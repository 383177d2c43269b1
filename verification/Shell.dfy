/**
 * The shell's parser as it runs (user/sh.c): a cursor moves over the input
 * buffer, words are remembered as spans of it, and at the end the character
 * after each word is overwritten with NUL.
 */
module Shell {
  import opened Common
  import opened ShellGrammar

  // `buf` holds a C string of length `es`.
  predicate Text(s: string, es: nat) {
    es < |s| && s[es] == '\0' && forall i :: 0 <= i < es ==> s[i] != '\0'
  }

  // ---------- words in the buffer

  // A maximal run of plain characters; what follows it is not plain.
  predicate WordAt(s: string, w: Span) {
    w.lo < w.hi < |s| && !Plain(s[w.hi]) && forall i :: w.lo <= i < w.hi ==> Plain(s[i])
  }

  predicate Words(s: string, c: Cmd<Span>) {
    match c
    case Exec(argv) => forall w :: w in argv ==> WordAt(s, w)
    case Redir(d, f, _, _) => Words(s, d) && WordAt(s, f)
    case Pipe(a, b) => Words(s, a) && Words(s, b)
    case List(a, b) => Words(s, a) && Words(s, b)
    case Back(d) => Words(s, d)
  }

  // The command over the text its spans mark out.
  function Marked(s: string, c: Cmd<Span>): Cmd<string>
    requires Words(s, c)
  {
    match c
    case Exec(argv) =>
      Exec(seq(|argv|, i requires 0 <= i < |argv| => assert argv[i] in argv; s[argv[i].lo..argv[i].hi]))
    case Redir(d, f, mode, fd) => Redir(Marked(s, d), s[f.lo..f.hi], mode, fd)
    case Pipe(a, b) => Pipe(Marked(s, a), Marked(s, b))
    case List(a, b) => List(Marked(s, a), Marked(s, b))
    case Back(d) => Back(Marked(s, d))
  }

  // The C string that starts at `p`.
  function StringAt(s: string, p: nat): string
    decreases |s| - p
  {
    if p >= |s| || s[p] == '\0' then "" else [s[p]] + StringAt(s, p + 1)
  }

  // The command as `exec` and `open` see it: each word is the C string at its start.
  function Strings(s: string, c: Cmd<Span>): Cmd<string> {
    match c
    case Exec(argv) => Exec(seq(|argv|, i requires 0 <= i < |argv| => StringAt(s, argv[i].lo)))
    case Redir(d, f, mode, fd) => Redir(Strings(s, d), StringAt(s, f.lo), mode, fd)
    case Pipe(a, b) => Pipe(Strings(s, a), Strings(s, b))
    case List(a, b) => List(Strings(s, a), Strings(s, b))
    case Back(d) => Back(Strings(s, d))
  }

  // Where the words of a command end.
  function Ends(c: Cmd<Span>): set<int> {
    match c
    case Exec(argv) => set w | w in argv :: w.hi
    case Redir(d, f, _, _) => Ends(d) + {f.hi}
    case Pipe(a, b) => Ends(a) + Ends(b)
    case List(a, b) => Ends(a) + Ends(b)
    case Back(d) => Ends(d)
  }

  // `r` is `s` with NULs written at `ends`.
  predicate Cut(s: string, ends: set<int>, r: string) {
    |r| == |s| && forall i :: 0 <= i < |s| ==> r[i] == if i in ends then '\0' else s[i]
  }

  lemma {:induction false} RunIsString(s: string, lo: nat, hi: nat)
    requires lo <= hi < |s| && s[hi] == '\0' && forall i :: lo <= i < hi ==> s[i] != '\0'
    ensures StringAt(s, lo) == s[lo..hi]
    decreases hi - lo
  {
    if lo < hi {
      RunIsString(s, lo + 1, hi);
    }
  }

  // A word whose end was cut reads as the word, whatever other ends were cut.
  lemma WordSurvives(s: string, ends: set<int>, r: string, w: Span)
    requires WordAt(s, w) && w.hi in ends && Cut(s, ends, r)
    requires forall e :: e in ends && 0 <= e < |s| ==> !Plain(s[e])
    ensures StringAt(r, w.lo) == s[w.lo..w.hi]
  {
    RunIsString(r, w.lo, w.hi);
    assert r[w.lo..w.hi] == s[w.lo..w.hi];
  }

  lemma {:induction false} EndsNotPlain(s: string, c: Cmd<Span>)
    requires Words(s, c)
    ensures forall e :: e in Ends(c) ==> 0 <= e < |s| && !Plain(s[e])
  {
    match c
    case Exec(argv) =>
    case Redir(d, f, _, _) => EndsNotPlain(s, d);
    case Pipe(a, b) => EndsNotPlain(s, a); EndsNotPlain(s, b);
    case List(a, b) => EndsNotPlain(s, a); EndsNotPlain(s, b);
    case Back(d) => EndsNotPlain(s, d);
  }

  lemma {:induction false} WordsSurvive(s: string, ends: set<int>, r: string, c: Cmd<Span>)
    requires Words(s, c) && Ends(c) <= ends && Cut(s, ends, r)
    requires forall e :: e in ends && 0 <= e < |s| ==> !Plain(s[e])
    ensures Strings(r, c) == Marked(s, c)
  {
    match c
    case Exec(argv) =>
      forall w | w in argv ensures WordAt(s, w) && StringAt(r, w.lo) == s[w.lo..w.hi] {
        assert w.hi in Ends(c);
        WordSurvives(s, ends, r, w);
      }
      assert forall i :: 0 <= i < |argv| ==> argv[i] in argv;
      assert Strings(r, c).argv == Marked(s, c).argv;
    case Redir(d, f, _, _) =>
      WordsSurvive(s, ends, r, d);
      WordSurvives(s, ends, r, f);
    case Pipe(a, b) =>
      WordsSurvive(s, ends, r, a);
      WordsSurvive(s, ends, r, b);
    case List(a, b) =>
      WordsSurvive(s, ends, r, a);
      WordsSurvive(s, ends, r, b);
    case Back(d) => WordsSurvive(s, ends, r, d);
  }

  /** No word is damaged by another's terminator. */
  lemma NoneDamaged(s: string, r: string, c: Cmd<Span>)
    requires Words(s, c) && Cut(s, Ends(c), r)
    ensures Strings(r, c) == Marked(s, c)
  {
    EndsNotPlain(s, c);
    WordsSurvive(s, Ends(c), r, c);
  }

  method NulTerminate(buf: array<char>, c: Cmd<Span>)
    requires forall e :: e in Ends(c) ==> 0 <= e < buf.Length
    modifies buf
    ensures Cut(old(buf[..]), Ends(c), buf[..])
    decreases c
  {
    match c {
    case Exec(argv) =>
      for i := 0 to |argv|
        invariant forall k :: 0 <= k < buf.Length ==>
          buf[k] == if exists j :: 0 <= j < i && argv[j].hi == k then '\0' else old(buf[k])
      {
        assert argv[i].hi in Ends(c);
        buf[argv[i].hi] := '\0';
      }
      assert forall k :: k in Ends(c) ==> exists j :: 0 <= j < |argv| && argv[j].hi == k;
      assert forall j :: 0 <= j < |argv| ==> argv[j].hi in Ends(c);
    case Redir(d, f, _, _) =>
      assert Ends(c) == Ends(d) + {f.hi};
      NulTerminate(buf, d);
      buf[f.hi] := '\0';
    case Pipe(a, b) =>
      assert Ends(c) == Ends(a) + Ends(b);
      NulTerminate(buf, a);
      NulTerminate(buf, b);
    case List(a, b) =>
      assert Ends(c) == Ends(a) + Ends(b);
      NulTerminate(buf, a);
      NulTerminate(buf, b);
    case Back(d) =>
      assert Ends(c) == Ends(d);
      NulTerminate(buf, d);
    }
  }

  // ---------- the scanner

  lemma LexSkips(s: string, p: nat, es: nat)
    requires p < es <= |s| && White(s[p])
    ensures Lex(s[p..es]) == Lex(s[p + 1..es])
  {
    assert s[p..es][1..] == s[p + 1..es];
  }

  lemma LexEmpty(s: string)
    ensures (s == [] || !White(s[0])) ==> (Lex(s) == [] <==> s == [])
  {
  }

  method SkipWhite(buf: array<char>, es: nat, pos: nat) returns (at: nat)
    requires pos <= es < buf.Length
    ensures pos <= at <= es && (at == es || !White(buf[at]))
    ensures Lex(buf[at..es]) == Lex(buf[pos..es])
  {
    at := pos;
    while at < es && White(buf[at])
      invariant pos <= at <= es
      invariant Lex(buf[at..es]) == Lex(buf[pos..es])
    {
      LexSkips(buf[..], at, es);
      assert buf[..][at..es] == buf[at..es] && buf[..][at + 1..es] == buf[at + 1..es];
      at := at + 1;
    }
  }

  method Peek(buf: array<char>, es: nat, pos: nat, toks: string) returns (at: nat, found: bool)
    requires Text(buf[..], es) && pos <= es
    requires forall c :: c in toks ==> Symbol(c)
    ensures pos <= at <= es && Lex(buf[at..es]) == Lex(buf[pos..es])
    ensures found <==> Heads(Lex(buf[pos..es]), toks)
    ensures at == es <==> Lex(buf[pos..es]) == []
  {
    at := SkipWhite(buf, es, pos);
    found := buf[at] != '\0' && buf[at] in toks;
    if at < es {
      assert buf[..][at] != '\0';
      assert buf[at..es][0] == buf[at];
    }
  }

  // What the scanner reports for the first token: NUL at the end, 'a' for a word.
  predicate Scanned(s: string, ts: seq<Token>, tok: char, w: Span) {
    if ts == [] then tok == '\0'
    else match ts[0]
      case Word(t) => tok == 'a' && WordAt(s, w) && s[w.lo..w.hi] == t
      case Sym(c) => tok == c && (Symbol(c) || c == '+')
  }

  lemma SymbolScanned(s: string, q: nat, es: nat)
    requires Text(s, es) && q < es && Symbol(s[q])
    ensures Lex(s[q..es]) ==
      if s[q] == '>' && s[q + 1] == '>' then [Sym('+')] + Lex(s[q + 2..es]) else [Sym(s[q])] + Lex(s[q + 1..es])
    ensures s[q] == '>' && s[q + 1] == '>' ==> q + 2 <= es
  {
    var t := s[q..es];
    assert Skip(t) == t && t[0] == s[q] && t[1..] == s[q + 1..es];
    if q + 1 < es {
      assert t[1] == s[q + 1] && t[2..] == s[q + 2..es];
    }
  }

  lemma WordScanned(s: string, q: nat, e: nat, es: nat)
    requires Text(s, es) && q < e <= es && (e == es || White(s[e]) || Symbol(s[e]))
    requires forall i :: q <= i < e ==> !White(s[i]) && !Symbol(s[i])
    ensures Lex(s[q..es]) == [Word(s[q..e])] + Lex(s[e..es]) && WordAt(s, Span(q, e))
  {
    var t := s[q..es];
    assert forall i :: 0 <= i < |t| ==> t[i] == s[q + i];
    assert WordLength(t) == e - q;
    assert t[..e - q] == s[q..e] && t[e - q..] == s[e..es];
  }

  method GetToken(buf: array<char>, es: nat, pos: nat) returns (at: nat, tok: char, w: Span)
    requires Text(buf[..], es) && pos <= es
    ensures pos <= at <= es
    ensures Scanned(buf[..], Lex(buf[pos..es]), tok, w)
    ensures Lex(buf[pos..es]) != [] ==> pos < at
    ensures Lex(buf[at..es]) == if Lex(buf[pos..es]) == [] then [] else Lex(buf[pos..es])[1..]
  {
    hide Lex, WordAt;
    var q := SkipWhite(buf, es, pos);
    var s := q;
    tok := buf[s];
    assert forall p :: 0 <= p <= es ==> buf[p..es] == buf[..][p..es];
    LexEmpty(buf[q..es]);
    if s == es {
    } else if Symbol(buf[s]) {
      SymbolScanned(buf[..], q, es);
      s := s + 1;
      if tok == '>' && buf[s] == '>' {
        tok := '+';
        s := s + 1;
      }
    } else {
      tok := 'a';
      while s < es && !White(buf[s]) && !Symbol(buf[s])
        invariant q <= s <= es
        invariant forall i :: q <= i < s ==> !White(buf[i]) && !Symbol(buf[i])
      {
        s := s + 1;
      }
      WordScanned(buf[..], q, s, es);
    }
    w := Span(q, s);
    at := SkipWhite(buf, es, s);
  }

  // ---------- the parser

  // The command found, as text.
  predicate Found(s: string, r: Option<Cmd<Span>>, t: Cmd<string>) {
    r.Some? && Words(s, r.value) && Marked(s, r.value) == t
  }

  lemma BeforeTwice<A>(xs: seq<A>, x: A, p: Parse<seq<A>>)
    ensures Before(xs, Before([x], p)) == Before(xs + [x], p)
  {
    if p.Done? {
      assert xs + ([x] + p.phrase) == xs + [x] + p.phrase;
    }
  }

  lemma BeforeNone<A>(p: Parse<seq<A>>)
    ensures Before([], p) == p
  {
    if p.Done? {
      assert [] + p.phrase == p.phrase;
    }
  }

  lemma RedirStep(ts: seq<Token>)
    requires Heads(ts, "<>")
    ensures FindRedirs(ts) ==
      if |ts| < 2 || !ts[1].Word? then Fail else Before([To(ts[0].c, ts[1].text)], FindRedirs(ts[2..]))
  {
  }

  method ParseRedirs(cmd: Cmd<Span>, buf: array<char>, es: nat, pos: nat) returns (at: nat, r: Option<Cmd<Span>>)
    requires Text(buf[..], es) && pos <= es && Words(buf[..], cmd)
    ensures pos <= at <= es
    ensures var p := FindRedirs(Lex(buf[pos..es]));
      if p.Fail? then r.None? else Found(buf[..], r, Wrap(Marked(buf[..], cmd), p.phrase)) && Lex(buf[at..es]) == p.rest
  {
    hide Lex, WordAt, FindRedirs, Wrap, Heads;
    ghost var all := Lex(buf[pos..es]);
    ghost var t := Marked(buf[..], cmd);
    ghost var rs: seq<Redirection> := [];
    var c := cmd;
    var found;
    at, found := Peek(buf, es, pos, "<>");
    NoRedirs(all, t);
    BeforeNone(FindRedirs(all));
    while found
      invariant pos <= at <= es && found == Heads(Lex(buf[at..es]), "<>")
      invariant Words(buf[..], c) && Marked(buf[..], c) == Wrap(t, rs)
      invariant FindRedirs(all) == Before(rs, FindRedirs(Lex(buf[at..es])))
      decreases es - at
    {
      ghost var ts := Lex(buf[at..es]);
      RedirStep(ts);
      HeadsSome(ts, "<>");
      var tok, next, w;
      at, tok, w := GetToken(buf, es, at);
      at, next, w := GetToken(buf, es, at);
      if next != 'a' { return at, None; }
      ghost var to := To(ts[0].c, ts[1].text);
      assert ts[1..][1..] == ts[2..];
      BeforeTwice(rs, to, FindRedirs(ts[2..]));
      WrapMore(t, rs, to);
      rs := rs + [to];
      c := Redirected(c, w, tok);
      at, found := Peek(buf, es, at, "<>");
    }
    NoRedirs(Lex(buf[at..es]), t);
    assert rs + [] == rs;
    r := Some(c);
  }

  lemma HeadsSome(ts: seq<Token>, cs: string)
    requires Heads(ts, cs)
    ensures ts != [] && ts[0].Sym?
  {
  }

  lemma NoRedirs(ts: seq<Token>, t: Cmd<string>)
    ensures !Heads(ts, "<>") ==> FindRedirs(ts) == Done([], ts)
    ensures Wrap(t, []) == t
  {
  }

  // A simple command is built with its redirections already around it: an argument
  // is stored through the pointer to the innermost node.
  function AddArg<W>(c: Cmd<W>, w: W): Cmd<W> {
    match c
    case Exec(argv) => Exec(argv + [w])
    case Redir(d, f, mode, fd) => Redir(AddArg(d, w), f, mode, fd)
    case _ => c
  }

  lemma {:induction false} AddArgMarked(s: string, c: Cmd<Span>, w: Span)
    requires Words(s, c) && WordAt(s, w)
    ensures Words(s, AddArg(c, w)) && Marked(s, AddArg(c, w)) == AddArg(Marked(s, c), s[w.lo..w.hi])
  {
    match c
    case Exec(argv) =>
      assert Marked(s, AddArg(c, w)).argv == Marked(s, c).argv + [s[w.lo..w.hi]];
    case Redir(d, _, _, _) => AddArgMarked(s, d, w);
    case _ =>
  }

  lemma {:induction false} AddArgWrapped(c: Cmd<string>, rs: seq<Redirection>, w: string)
    ensures AddArg(Wrap(c, rs), w) == Wrap(AddArg(c, w), rs)
    decreases |rs|
  {
    if rs != [] {
      AddArgWrapped(Redirected(c, rs[0].file, rs[0].kind), rs[1..], w);
    }
  }

  lemma {:induction false} PartsArg(ps: seq<Part>, w: string)
    ensures Args(ps + [Arg(w)]) == Args(ps) + [w] && Redirs(ps + [Arg(w)]) == Redirs(ps)
  {
    if ps != [] {
      assert (ps + [Arg(w)])[1..] == ps[1..] + [Arg(w)];
      PartsArg(ps[1..], w);
    }
  }

  // The parts found so far are in `ret`, and the rest of the tokens will give the others.
  ghost predicate Going(s: string, all: seq<Token>, ps: seq<Part>, ts: seq<Token>, ret: Cmd<Span>) {
    && Words(s, ret)
    && Marked(s, ret) == Wrap(Exec(Args(ps)), Redirs(ps))
    && FindParts(all, 0) == Before(ps, FindParts(ts, |Args(ps)|))
  }

  lemma ArgTaken(s: string, all: seq<Token>, ps: seq<Part>, ts: seq<Token>, ret: Cmd<Span>, w: Span)
    requires Going(s, all, ps, ts, ret) && ts != [] && WordAt(s, w) && ts[0] == Word(s[w.lo..w.hi])
    ensures |Args(ps)| + 1 >= MAXARGS ==> FindParts(all, 0) == Fail
    ensures |Args(ps)| + 1 < MAXARGS ==> Going(s, all, ps + [Arg(ts[0].text)], ts[1..], AddArg(ret, w))
    ensures Words(s, AddArg(ret, w))
  {
    hide SpellParts, PartsOk, FindParts, Wrap, WordAt;
    AddArgMarked(s, ret, w);
    AddArgWrapped(Exec(Args(ps)), Redirs(ps), ts[0].text);
    PartsArg(ps, ts[0].text);
    BeforeTwice(ps, Arg(ts[0].text), FindParts(ts[1..], |Args(ps)| + 1));
    ArgStep(ts, |Args(ps)|);
  }

  // One redirection among the parts.
  lemma RedirectTaken(all: seq<Token>, ps: seq<Part>, ts: seq<Token>, r: Redirection, k: seq<Token>)
    requires FindParts(all, 0) == Before(ps, FindParts(ts, |Args(ps)|))
    requires RedirOk(r) && ts == [Sym(r.kind), Word(r.file)] + k
    ensures FindParts(all, 0) == Before(ps + [Redirect(r)], FindParts(k, |Args(ps + [Redirect(r)])|))
  {
    hide SpellParts, PartsOk, FindParts;
    PartsMore(ps, r);
    RedirectStep(r, k, |Args(ps)|);
    BeforeTwice(ps, Redirect(r), FindParts(k, |Args(ps)|));
  }

  function AsParts(ps: seq<Part>, rs: seq<Redirection>): seq<Part>
    decreases |rs|
  {
    if rs == [] then ps else AsParts(ps + [Redirect(rs[0])], rs[1..])
  }

  lemma {:induction false} RedirsTaken(all: seq<Token>, ps: seq<Part>, ts: seq<Token>, c: Cmd<string>)
    requires FindParts(all, 0) == Before(ps, FindParts(ts, |Args(ps)|)) && c == Wrap(Exec(Args(ps)), Redirs(ps))
    ensures FindRedirs(ts) == Fail ==> FindParts(all, 0) == Fail
    ensures var p := FindRedirs(ts); p.Done? ==>
      var qs := AsParts(ps, p.phrase);
      && FindParts(all, 0) == Before(qs, FindParts(p.rest, |Args(qs)|))
      && Wrap(c, p.phrase) == Wrap(Exec(Args(qs)), Redirs(qs))
    decreases |ts|
  {
    if Heads(ts, "<>") {
      RedirStep(ts);
      if |ts| >= 2 && ts[1].Word? {
        var r := To(ts[0].c, ts[1].text);
        var ps' := ps + [Redirect(r)];
        assert ts == [Sym(r.kind), Word(r.file)] + ts[2..];
        RedirectTaken(all, ps, ts, r, ts[2..]);
        PartsMore(ps, r);
        WrapMore(Exec(Args(ps)), Redirs(ps), r);
        RedirsTaken(all, ps', ts[2..], Redirected(c, r.file, r.kind));
      }
    }
  }

  // The outcome `r`, with the tokens `left`, is what the grammar's parse of `ts` calls for.
  ghost predicate ItemParsed(s: string, ts: seq<Token>, r: Option<Cmd<Span>>, left: seq<Token>) {
    match FindItem(ts)
    case Fail => r.None?
    case Done(i, k) => Found(s, r, TreeItem(i)) && left == k
  }

  ghost predicate PipeParsed(s: string, ts: seq<Token>, r: Option<Cmd<Span>>, left: seq<Token>) {
    match FindPipe(ts)
    case Fail => r.None?
    case Done(p, k) => Found(s, r, TreePipe(p)) && left == k
  }

  ghost predicate LineParsed(s: string, ts: seq<Token>, r: Option<Cmd<Span>>, left: seq<Token>) {
    match FindLine(ts)
    case Fail => r.None?
    case Done(l, k) => Found(s, r, TreeLine(l)) && left == k
  }

  lemma SimpleStarts(s: string, all: seq<Token>)
    ensures Going(s, all, [], all, Exec([])) && Words(s, Exec([])) && Args([]) == []
  {
    hide FindParts;
    BeforeNone(FindParts(all, 0));
    assert Marked(s, Exec([])) == Exec([]);
  }

  lemma SimpleRedirected(s: string, all: seq<Token>, ps: seq<Part>, ts: seq<Token>, ret: Cmd<Span>,
                         r: Option<Cmd<Span>>)
    returns (qs: seq<Part>)
    requires Going(s, all, ps, ts, ret)
    requires var p := FindRedirs(ts); if p.Fail? then r.None? else Found(s, r, Wrap(Marked(s, ret), p.phrase))
    ensures r.None? ==> FindParts(all, 0) == Fail
    ensures r.Some? ==>
          FindRedirs(ts).Done? && Going(s, all, qs, FindRedirs(ts).rest, r.value) && |Args(qs)| == |Args(ps)|
  {
    hide FindParts, FindRedirs, Wrap, Marked, Words;
    RedirsTaken(all, ps, ts, Marked(s, ret));
    qs := ps;
    if r.Some? {
      qs := AsParts(ps, FindRedirs(ts).phrase);
      AsPartsArgs(ps, FindRedirs(ts).phrase);
    }
  }

  lemma {:induction false} AsPartsArgs(ps: seq<Part>, rs: seq<Redirection>)
    ensures Args(AsParts(ps, rs)) == Args(ps)
    decreases |rs|
  {
    if rs != [] {
      PartsMore(ps, rs[0]);
      AsPartsArgs(ps + [Redirect(rs[0])], rs[1..]);
    }
  }

  // A simple command ends at the end of the line or at one of "|)&;".
  lemma SimpleEnds(s: string, all: seq<Token>, ps: seq<Part>, ts: seq<Token>, ret: Cmd<Span>)
    requires Going(s, all, ps, ts, ret) && !Heads(all, "(") && (ts == [] || Heads(ts, "|)&;"))
    ensures ItemParsed(s, all, Some(ret), ts)
  {
    hide SpellParts, PartsOk, Wrap, Marked, Words;
    NoParts(ts, |Args(ps)|);
    assert ps + [] == ps;
    assert FindParts(all, 0) == Done(ps, ts);
  }

  lemma SimpleFails(s: string, all: seq<Token>, left: seq<Token>)
    requires FindParts(all, 0) == Fail && !Heads(all, "(")
    ensures ItemParsed(s, all, None, left)
  {
  }

  lemma NotAPart(ts: seq<Token>, argc: nat)
    requires ts != [] && !ts[0].Word? && !Heads(ts, "<>") && !Heads(ts, "|)&;")
    ensures FindParts(ts, argc) == Fail
  {
  }

  lemma SimpleStuck(s: string, all: seq<Token>, ps: seq<Part>, ts: seq<Token>, ret: Cmd<Span>)
    requires Going(s, all, ps, ts, ret)
    requires ts != [] && !ts[0].Word? && !Heads(ts, "<>") && !Heads(ts, "|)&;")
    ensures FindParts(all, 0) == Fail
  {
    hide FindParts;
    NotAPart(ts, |Args(ps)|);
  }

  method ParseExec(buf: array<char>, es: nat, pos: nat) returns (at: nat, r: Option<Cmd<Span>>)
    requires Text(buf[..], es) && pos <= es
    ensures pos <= at <= es && ItemParsed(buf[..], Lex(buf[pos..es]), r, Lex(buf[at..es]))
    decreases es - pos, 1
  {
    hide Lex, WordAt, Words, Marked, Going, ItemParsed, FindParts, FindRedirs, Heads, Args, Wrap, Redirs;
    ghost var all := Lex(buf[pos..es]);
    ghost var s := buf[..];
    var found;
    at, found := Peek(buf, es, pos, "(");
    if found {
      at, r := ParseBlock(buf, es, at);
      return;
    }
    var argc := 0;
    ghost var ps: seq<Part> := [];
    var ret := Exec([]);
    SimpleStarts(s, all);
    at, r := ParseRedirs(ret, buf, es, at);
    ps := SimpleRedirected(s, all, ps, all, ret, r);
    if r.None? {
      SimpleFails(s, all, Lex(buf[at..es]));
      return;
    }
    ret := r.value;
    at, found := Peek(buf, es, at, "|)&;");
    while !found
      invariant pos <= at <= es && argc == |Args(ps)| < MAXARGS
      invariant Going(s, all, ps, Lex(buf[at..es]), ret)
      invariant found == Heads(Lex(buf[at..es]), "|)&;") && !Heads(Lex(buf[at..es]), "<>")
      decreases es - at
    {
      ghost var ts := Lex(buf[at..es]);
      var tok, w;
      at, tok, w := GetToken(buf, es, at);
      if tok == '\0' { break; }
      if tok != 'a' {
        SimpleStuck(s, all, ps, ts, ret);
        SimpleFails(s, all, Lex(buf[at..es]));
        return at, None;
      }
      ArgTaken(s, all, ps, ts, ret, w);
      ret := AddArg(ret, w);
      argc := argc + 1;
      if argc >= MAXARGS {
        SimpleFails(s, all, Lex(buf[at..es]));
        return at, None;
      }
      PartsArg(ps, ts[0].text);
      ps := ps + [Arg(ts[0].text)];
      at, r := ParseRedirs(ret, buf, es, at);
      ps := SimpleRedirected(s, all, ps, ts[1..], ret, r);
      if r.None? {
        SimpleFails(s, all, Lex(buf[at..es]));
        return;
      }
      ret := r.value;
      at, found := Peek(buf, es, at, "|)&;");
    }
    SimpleEnds(s, all, ps, Lex(buf[at..es]), ret);
    r := Some(ret);
  }

  lemma BlockParsed(s: string, ts: seq<Token>, k: seq<Token>, r: Option<Cmd<Span>>, left: seq<Token>)
    requires Heads(ts, "(") && FindLine(ts[1..]).Done? && k == FindLine(ts[1..]).rest && Heads(k, ")")
    requires var p := FindRedirs(k[1..]);
      if p.Fail? then r.None? else Found(s, r, Wrap(TreeLine(FindLine(ts[1..]).phrase), p.phrase)) && left == p.rest
    ensures ItemParsed(s, ts, r, left)
  {
    hide FindLine, FindRedirs, Wrap, Words, Marked;
  }

  lemma BlockFails(s: string, ts: seq<Token>, left: seq<Token>)
    requires Heads(ts, "(") && (FindLine(ts[1..]).Fail? || !Heads(FindLine(ts[1..]).rest, ")"))
    ensures ItemParsed(s, ts, None, left)
  {
    hide FindLine, FindRedirs, Wrap, Words, Marked;
  }

  method ParseBlock(buf: array<char>, es: nat, pos: nat) returns (at: nat, r: Option<Cmd<Span>>)
    requires Text(buf[..], es) && pos <= es && Heads(Lex(buf[pos..es]), "(")
    ensures pos <= at <= es && ItemParsed(buf[..], Lex(buf[pos..es]), r, Lex(buf[at..es]))
    decreases es - pos, 0
  {
    hide Lex, WordAt, Words, Marked, ItemParsed, FindLine, FindRedirs, Heads, Wrap;
    ghost var ts := Lex(buf[pos..es]);
    HeadsSome(ts, "(");
    var tok, w, found, inner;
    at, tok, w := GetToken(buf, es, pos);
    at, inner := ParseLine(buf, es, at);
    if inner.None? {
      BlockFails(buf[..], ts, Lex(buf[at..es]));
      return at, None;
    }
    at, found := Peek(buf, es, at, ")");
    ghost var k := Lex(buf[at..es]);
    if !found {
      BlockFails(buf[..], ts, Lex(buf[at..es]));
      return at, None;
    }
    HeadsSome(k, ")");
    at, tok, w := GetToken(buf, es, at);
    at, r := ParseRedirs(inner.value, buf, es, at);
    BlockParsed(buf[..], ts, k, r, Lex(buf[at..es]));
  }

  lemma PipeJoined(s: string, ts: seq<Token>, a: Cmd<Span>, k: seq<Token>, b: Option<Cmd<Span>>, left: seq<Token>)
    requires ItemParsed(s, ts, Some(a), k)
    ensures !Heads(k, "|") ==> PipeParsed(s, ts, Some(a), k)
    ensures Heads(k, "|") && PipeParsed(s, k[1..], b, left) ==>
      PipeParsed(s, ts, if b.None? then None else Some(Pipe(a, b.value)), left)
  {
    hide FindItem, TreeItem;
  }

  method ParsePipe(buf: array<char>, es: nat, pos: nat) returns (at: nat, r: Option<Cmd<Span>>)
    requires Text(buf[..], es) && pos <= es
    ensures pos <= at <= es && PipeParsed(buf[..], Lex(buf[pos..es]), r, Lex(buf[at..es]))
    decreases es - pos, 2
  {
    hide Lex, WordAt, Words, Marked, ItemParsed, PipeParsed, Heads;
    ghost var ts := Lex(buf[pos..es]);
    at, r := ParseExec(buf, es, pos);
    if r.None? {
      PipeFails(buf[..], ts, Lex(buf[at..es]));
      return;
    }
    var cmd := r.value;
    ghost var k := Lex(buf[at..es]);
    var found;
    at, found := Peek(buf, es, at, "|");
    if found {
      HeadsSome(k, "|");
      var tok, w;
      at, tok, w := GetToken(buf, es, at);
      at, r := ParsePipe(buf, es, at);
      PipeJoined(buf[..], ts, cmd, k, r, Lex(buf[at..es]));
      r := if r.None? then None else Some(Pipe(cmd, r.value));
    } else {
      PipeJoined(buf[..], ts, cmd, k, None, k);
    }
  }

  lemma PipeFails(s: string, ts: seq<Token>, left: seq<Token>)
    requires ItemParsed(s, ts, None, left)
    ensures PipeParsed(s, ts, None, left)
  {
    hide FindItem, TreeItem;
  }

  // After a pipeline and `n` '&'s.
  ghost predicate Amped(s: string, ts: seq<Token>, n: nat, c: Cmd<Span>, left: seq<Token>) {
    && FindPipe(ts).Done?
    && Found(s, Some(c), Backs(TreePipe(FindPipe(ts).phrase), n))
    && n + CountAmps(left) == CountAmps(FindPipe(ts).rest)
    && left == FindPipe(ts).rest[n..]
  }

  lemma AmpsStart(s: string, ts: seq<Token>, c: Cmd<Span>, left: seq<Token>)
    requires PipeParsed(s, ts, Some(c), left)
    ensures Amped(s, ts, 0, c, left)
  {
  }

  lemma AmpTaken(s: string, ts: seq<Token>, n: nat, c: Cmd<Span>, left: seq<Token>)
    requires Amped(s, ts, n, c, left) && Heads(left, "&")
    ensures Amped(s, ts, n + 1, Back(c), left[1..])
  {
    hide FindPipe, TreePipe, Heads;
    AmpStep(left);
    HeadsSome(left, "&");
    assert left[1..] == FindPipe(ts).rest[n + 1..];
  }

  lemma AmpStep(ts: seq<Token>)
    ensures CountAmps(ts) == if Heads(ts, "&") then 1 + CountAmps(ts[1..]) else 0
  {
  }

  lemma LineJoined(s: string, ts: seq<Token>, n: nat, a: Cmd<Span>, k: seq<Token>, b: Option<Cmd<Span>>,
                   left: seq<Token>)
    requires Amped(s, ts, n, a, k) && !Heads(k, "&")
    ensures !Heads(k, ";") ==> LineParsed(s, ts, Some(a), k)
    ensures Heads(k, ";") && LineParsed(s, k[1..], b, left) ==>
      LineParsed(s, ts, if b.None? then None else Some(List(a, b.value)), left)
  {
    hide FindPipe, TreePipe, Backs;
    AmpStep(k);
  }

  lemma LineFails(s: string, ts: seq<Token>, left: seq<Token>)
    requires PipeParsed(s, ts, None, left)
    ensures LineParsed(s, ts, None, left)
  {
    hide FindPipe, TreePipe;
  }

  method ParseLine(buf: array<char>, es: nat, pos: nat) returns (at: nat, r: Option<Cmd<Span>>)
    requires Text(buf[..], es) && pos <= es
    ensures pos <= at <= es && LineParsed(buf[..], Lex(buf[pos..es]), r, Lex(buf[at..es]))
    decreases es - pos, 3
  {
    hide Lex, WordAt, Words, Marked, PipeParsed, LineParsed, Heads, Amped;
    ghost var ts := Lex(buf[pos..es]);
    ghost var n := 0;
    at, r := ParsePipe(buf, es, pos);
    if r.None? {
      LineFails(buf[..], ts, Lex(buf[at..es]));
      return;
    }
    var cmd := r.value;
    AmpsStart(buf[..], ts, cmd, Lex(buf[at..es]));
    var tok, w, found;
    at, found := Peek(buf, es, at, "&");
    while found
      invariant pos <= at <= es && found == Heads(Lex(buf[at..es]), "&")
      invariant Amped(buf[..], ts, n, cmd, Lex(buf[at..es]))
      decreases es - at
    {
      ghost var k := Lex(buf[at..es]);
      HeadsSome(k, "&");
      AmpTaken(buf[..], ts, n, cmd, k);
      at, tok, w := GetToken(buf, es, at);
      cmd := Back(cmd);
      n := n + 1;
      at, found := Peek(buf, es, at, "&");
    }
    ghost var k := Lex(buf[at..es]);
    at, found := Peek(buf, es, at, ";");
    if found {
      HeadsSome(k, ";");
      at, tok, w := GetToken(buf, es, at);
      at, r := ParseLine(buf, es, at);
      LineJoined(buf[..], ts, n, cmd, k, r, Lex(buf[at..es]));
      r := if r.None? then None else Some(List(cmd, r.value));
    } else {
      LineJoined(buf[..], ts, n, cmd, k, None, k);
      r := Some(cmd);
    }
  }

  method Strlen(buf: array<char>) returns (es: nat)
    requires exists i :: 0 <= i < buf.Length && buf[i] == '\0'
    ensures Text(buf[..], es) && buf[..es] == StringAt(buf[..], 0)
  {
    es := 0;
    while buf[es] != '\0'
      invariant es < buf.Length && forall i :: 0 <= i < es ==> buf[i] != '\0'
      invariant exists i :: es <= i < buf.Length && buf[i] == '\0'
      decreases buf.Length - es
    {
      es := es + 1;
    }
    RunIsString(buf[..], 0, es);
    assert buf[..][0..es] == buf[..es];
  }

  method ParseCmd(buf: array<char>) returns (r: Option<Cmd<Span>>)
    requires exists i :: 0 <= i < buf.Length && buf[i] == '\0'
    modifies buf
    ensures Meaning(StringAt(old(buf[..]), 0)) == if r.None? then None else Some(Strings(buf[..], r.value))
    ensures if r.None? then buf[..] == old(buf[..]) else Cut(old(buf[..]), Ends(r.value), buf[..])
  {
    hide Lex, WordAt, Words, Marked, Cut, Ends, Strings, FindLine;
    ghost var s := buf[..];
    var es := Strlen(buf);
    var at, found;
    at, r := ParseLine(buf, es, 0);
    ghost var left := Lex(buf[at..es]);
    assert buf[0..es] == buf[..es];
    if r.None? { return; }
    at, found := Peek(buf, es, at, "");
    if at != es { return None; }
    EndsNotPlain(s, r.value);
    NulTerminate(buf, r.value);
    NoneDamaged(s, buf[..], r.value);
  }
}
