/** The regular-expression matcher of user/grep.c. Strings are without their final NUL. */
module Grep {

  /** What a pattern asks for, piece by piece: one character, a run of a character, the end of the text. */
  datatype Item = One(c: char) | Star(c: char) | End

  /** The pieces of a pattern (without a leading '^'). */
  function Items(re: string): seq<Item> {
    if re == [] then []
    else if |re| >= 2 && re[1] == '*' then [Star(re[0])] + Items(re[2..])
    else if re == "$" then [End]
    else [One(re[0])] + Items(re[1..])
  }

  predicate Fits(c: char, x: char) {
    c == '.' || c == x
  }

  /** An item matches the text between two positions. */
  ghost predicate Piece(item: Item, text: string, from: int, to: int) {
    && 0 <= from <= to <= |text|
    && match item
       case One(c) => to == from + 1 && Fits(c, text[from])
       case Star(c) => forall i :: from <= i < to ==> Fits(c, text[i])
       case End => from == to == |text|
  }

  /** Positions that divide a part of the text into matches of the items, in order. */
  ghost predicate Division(items: seq<Item>, text: string, at: seq<int>) {
    && |at| == |items| + 1
    && 0 <= at[0] <= |text|
    && forall i :: 0 <= i < |items| ==> Piece(items[i], text, at[i], at[i + 1])
  }

  /** The items match at this position of the text. */
  ghost predicate MatchesAt(items: seq<Item>, text: string, from: int) {
    exists at :: Division(items, text, at) && at[0] == from
  }

  /** What it means for a pattern to match a text. */
  ghost predicate Matches(re: string, text: string) {
    if re != [] && re[0] == '^' then MatchesAt(Items(re[1..]), text, 0)
    else exists from :: 0 <= from <= |text| && MatchesAt(Items(re), text, from)
  }

  lemma AtNone(text: string, from: int)
    requires 0 <= from <= |text|
    ensures MatchesAt([], text, from)
  {
    assert Division([], text, [from]);
  }

  /** The first item takes a piece, and the others match from where it ends. */
  lemma AtMore(item: Item, items: seq<Item>, text: string, from: int)
    ensures MatchesAt([item] + items, text, from) <==>
          exists to :: Piece(item, text, from, to) && MatchesAt(items, text, to)
  {
    var all := [item] + items;
    if MatchesAt(all, text, from) {
      var at :| Division(all, text, at) && at[0] == from;
      assert Piece(all[0], text, at[0], at[1]);
      forall i | 0 <= i < |items|
        ensures Piece(items[i], text, at[1..][i], at[1..][i + 1])
      {
        assert Piece(all[i + 1], text, at[i + 1], at[i + 2]);
      }
      assert Division(items, text, at[1..]);
    }
    if to :| Piece(item, text, from, to) && MatchesAt(items, text, to) {
      var at :| Division(items, text, at) && at[0] == to;
      var at' := [from] + at;
      forall i | 0 <= i < |all|
        ensures Piece(all[i], text, at'[i], at'[i + 1])
      {
        if i > 0 {
          assert Piece(items[i - 1], text, at[i - 1], at[i]);
        }
      }
      assert Division(all, text, at');
    }
  }

  lemma AtOne(c: char, items: seq<Item>, text: string, from: int)
    requires 0 <= from <= |text|
    ensures MatchesAt([One(c)] + items, text, from) <==>
          from < |text| && Fits(c, text[from]) && MatchesAt(items, text, from + 1)
  {
    AtMore(One(c), items, text, from);
    assert from < |text| && Fits(c, text[from]) ==> Piece(One(c), text, from, from + 1);
  }

  lemma AtEnd(text: string, from: int)
    requires 0 <= from <= |text|
    ensures MatchesAt([End], text, from) <==> from == |text|
  {
    AtMore(End, [], text, from);
    assert [End] + [] == [End];
    AtNone(text, from);
    assert from == |text| ==> Piece(End, text, from, from);
  }

  /** match: the pattern matches somewhere in the text, or at its start. */
  method Match(re: string, text: string) returns (b: bool)
    ensures b <==> Matches(re, text)
  {
    if re != [] && re[0] == '^' {
      b := MatchHere(re[1..], text, 0);
      return;
    }
    var at := 0;
    while true
      invariant 0 <= at <= |text|
      invariant forall i :: 0 <= i < at ==> !MatchesAt(Items(re), text, i)
      decreases |text| - at
    {
      b := MatchHere(re, text, at);
      if b {
        return;
      }
      if at == |text| {
        return false;
      }
      at := at + 1;
    }
  }

  /** matchhere, with the text pointer as a position. */
  method MatchHere(re: string, text: string, at: nat) returns (b: bool)
    requires at <= |text|
    ensures b <==> MatchesAt(Items(re), text, at)
    decreases |re|, 0
  {
    if re == [] {
      AtNone(text, at);
      return true;
    }
    if |re| >= 2 && re[1] == '*' {
      b := MatchStar(re[0], re[2..], text, at);
      return;
    }
    if re == "$" {
      AtEnd(text, at);
      return at == |text|;
    }
    AtOne(re[0], Items(re[1..]), text, at);
    if at < |text| && (re[0] == '.' || re[0] == text[at]) {
      b := MatchHere(re[1..], text, at + 1);
      return;
    }
    return false;
  }

  /** matchstar: after some of the run of c, the rest of the pattern matches. */
  method MatchStar(c: char, re: string, text: string, start: nat) returns (b: bool)
    requires start <= |text|
    ensures b <==> MatchesAt([Star(c)] + Items(re), text, start)
    decreases |re|, 1
  {
    AtMore(Star(c), Items(re), text, start);
    var at := start;
    while true
      invariant start <= at <= |text| && Piece(Star(c), text, start, at)
      invariant forall i :: start <= i < at ==> !MatchesAt(Items(re), text, i)
      decreases |text| - at
    {
      b := MatchHere(re, text, at);
      if b {
        return;
      }
      if !(at < |text| && (text[at] == c || c == '.')) {
        return false;
      }
      at := at + 1;
    }
  }
}
