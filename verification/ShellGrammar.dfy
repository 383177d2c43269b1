/**
 * The shell's command language (user/sh.c): its scanner, its recursive-descent
 * parser and the in-place termination of the words it found.
 *
 * The language is given twice, independently of the parser: as a grammar (the
 * types `Line`, `Pipeline` and `Item` with `Spell…`, the tokens they are written
 * with, and `Tree…`, the command they stand for) and as a printer (`Show…`,
 * which chooses a derivation for any command tree).  The parser is proved to
 * accept exactly the grammar and to undo the printer.
 */
module ShellGrammar {
  import opened Common

  const MAXARGS := 10
  const O_RDONLY := 0
  const O_WRONLY := 1
  const O_CREATE := 0x200
  const O_TRUNC := 0x400

  // A command tree.  The parser builds it over spans of the input buffer; its
  // meaning is the same tree over strings.
  datatype Cmd<W> =
    | Exec(argv: seq<W>)
    | Redir(cmd: Cmd<W>, file: W, mode: int, fd: int)
    | Pipe(left: Cmd<W>, right: Cmd<W>)
    | List(left: Cmd<W>, right: Cmd<W>)
    | Back(cmd: Cmd<W>)

  datatype Span = Span(lo: nat, hi: nat)

  // ---------- tokens

  // A symbol is named by its character, except that '+' stands for ">>".
  datatype Token = Word(text: string) | Sym(c: char)

  predicate White(c: char) { c in {' ', '\t', '\r', '\n', '\U{00000b}'} }

  predicate Symbol(c: char) { c in {'<', '|', '>', '&', ';', '(', ')'} }

  predicate Plain(c: char) { !White(c) && !Symbol(c) && c != '\0' }

  function Skip(s: string): (r: string)
    ensures |r| <= |s| && (r == [] || !White(r[0]))
  {
    if s != [] && White(s[0]) then Skip(s[1..]) else s
  }

  function WordLength(s: string): (n: nat)
    ensures n <= |s|
    ensures forall i :: 0 <= i < n ==> !White(s[i]) && !Symbol(s[i])
    ensures n < |s| ==> White(s[n]) || Symbol(s[n])
  {
    if s == [] || White(s[0]) || Symbol(s[0]) then 0 else 1 + WordLength(s[1..])
  }

  function Lex(s: string): (ts: seq<Token>)
    decreases |s|
  {
    var t := Skip(s);
    if t == [] then []
    else if Symbol(t[0]) then
      if t[0] == '>' && |t| > 1 && t[1] == '>' then [Sym('+')] + Lex(t[2..])
      else [Sym(t[0])] + Lex(t[1..])
    else
      [Word(t[..WordLength(t)])] + Lex(t[WordLength(t)..])
  }

  // The first token starts with one of the characters of `cs`.
  predicate Heads(ts: seq<Token>, cs: string) {
    ts != [] && ts[0].Sym? && (if ts[0].c == '+' then '>' else ts[0].c) in cs
  }

  // ---------- the grammar

  datatype Redirection = To(kind: char, file: string)
  datatype Part = Arg(word: string) | Redirect(to: Redirection)
  datatype Item = Simple(parts: seq<Part>) | Block(line: Line, redirs: seq<Redirection>)
  datatype Pipeline = Pipeline(first: Item, next: Option<Pipeline>)
  datatype Line = Line(pipe: Pipeline, amps: nat, next: Option<Line>)

  // The tokens of a phrase, followed by `k`.
  function SpellRedirs(rs: seq<Redirection>, k: seq<Token>): (ts: seq<Token>) {
    if rs == [] then k else [Sym(rs[0].kind), Word(rs[0].file)] + SpellRedirs(rs[1..], k)
  }

  function SpellParts(ps: seq<Part>, k: seq<Token>): (ts: seq<Token>) {
    if ps == [] then k
    else match ps[0]
      case Arg(w) => [Word(w)] + SpellParts(ps[1..], k)
      case Redirect(r) => [Sym(r.kind), Word(r.file)] + SpellParts(ps[1..], k)
  }

  function SpellAmps(n: nat, k: seq<Token>): (ts: seq<Token>) {
    if n == 0 then k else [Sym('&')] + SpellAmps(n - 1, k)
  }

  function SpellItem(i: Item, k: seq<Token>): (ts: seq<Token>)
    decreases i, 0
  {
    match i
    case Simple(ps) => SpellParts(ps, k)
    case Block(l, rs) => [Sym('(')] + SpellLine(l, [Sym(')')] + SpellRedirs(rs, k))
  }

  function SpellPipe(p: Pipeline, k: seq<Token>): (ts: seq<Token>)
    decreases p, 1
  {
    SpellItem(p.first, match p.next case None => k case Some(q) => [Sym('|')] + SpellPipe(q, k))
  }

  function SpellLine(l: Line, k: seq<Token>): (ts: seq<Token>)
    decreases l, 2
  {
    SpellPipe(l.pipe, SpellAmps(l.amps, match l.next case None => k case Some(m) => [Sym(';')] + SpellLine(m, k)))
  }

  // The command a phrase stands for.
  function ModeOf(kind: char): int {
    if kind == '<' then O_RDONLY else if kind == '>' then O_WRONLY + O_CREATE + O_TRUNC else O_WRONLY + O_CREATE
  }

  function FdOf(kind: char): int { if kind == '<' then 0 else 1 }

  function Redirected<W>(c: Cmd<W>, file: W, kind: char): Cmd<W> { Redir(c, file, ModeOf(kind), FdOf(kind)) }

  // Redirections nest in the order written, the last one outermost.
  function Wrap(c: Cmd<string>, rs: seq<Redirection>): Cmd<string>
    decreases |rs|
  {
    if rs == [] then c else Wrap(Redirected(c, rs[0].file, rs[0].kind), rs[1..])
  }

  function Args(ps: seq<Part>): (r: seq<string>)
    ensures |r| <= |ps|
  {
    if ps == [] then [] else (if ps[0].Arg? then [ps[0].word] else []) + Args(ps[1..])
  }

  function Redirs(ps: seq<Part>): seq<Redirection> {
    if ps == [] then [] else (if ps[0].Redirect? then [ps[0].to] else []) + Redirs(ps[1..])
  }

  function Backs(c: Cmd<string>, n: nat): Cmd<string> { if n == 0 then c else Back(Backs(c, n - 1)) }

  function TreeItem(i: Item): Cmd<string>
    decreases i, 0
  {
    match i
    case Simple(ps) => Wrap(Exec(Args(ps)), Redirs(ps))
    case Block(l, rs) => Wrap(TreeLine(l), rs)
  }

  function TreePipe(p: Pipeline): Cmd<string>
    decreases p, 1
  {
    var c := TreeItem(p.first);
    match p.next case None => c case Some(q) => Pipe(c, TreePipe(q))
  }

  function TreeLine(l: Line): Cmd<string>
    decreases l, 2
  {
    var c := Backs(TreePipe(l.pipe), l.amps);
    match l.next case None => c case Some(m) => List(c, TreeLine(m))
  }

  // Phrases with redirection symbols where they belong and room for the arguments.
  predicate RedirOk(r: Redirection) { r.kind in {'<', '>', '+'} }

  predicate RedirsOk(rs: seq<Redirection>) { forall r :: r in rs ==> RedirOk(r) }

  predicate PartsOk(ps: seq<Part>) { forall p :: p in ps && p.Redirect? ==> RedirOk(p.to) }

  predicate ItemOk(i: Item)
    decreases i, 0
  {
    match i
    case Simple(ps) => PartsOk(ps) && |Args(ps)| < MAXARGS
    case Block(l, rs) => LineOk(l) && RedirsOk(rs)
  }

  predicate PipeOk(p: Pipeline)
    decreases p, 1
  {
    ItemOk(p.first) && (p.next.Some? ==> PipeOk(p.next.value))
  }

  predicate LineOk(l: Line)
    decreases l, 2
  {
    PipeOk(l.pipe) && (l.next.Some? ==> LineOk(l.next.value))
  }

  // ---------- the parser on tokens

  // Parsing fails, or finds a phrase and leaves the tokens after it.
  datatype Parse<A> = Fail | Done(phrase: A, rest: seq<Token>)

  function FindRedirs(ts: seq<Token>): (r: Parse<seq<Redirection>>)
    ensures r.Done? ==> |r.rest| <= |ts| && RedirsOk(r.phrase) && ts == SpellRedirs(r.phrase, r.rest)
    ensures r.Done? ==> !Heads(r.rest, "<>")
  {
    if !Heads(ts, "<>") then Done([], ts)
    else if |ts| < 2 || !ts[1].Word? then Fail
    else match FindRedirs(ts[2..])
      case Fail => Fail
      case Done(rs, k) => Done([To(ts[0].c, ts[1].text)] + rs, k)
  }

  // The rest of a simple command that already has `argc` arguments.
  function FindParts(ts: seq<Token>, argc: nat): (r: Parse<seq<Part>>)
    ensures r.Done? ==> |r.rest| <= |ts| && PartsOk(r.phrase) && ts == SpellParts(r.phrase, r.rest)
    ensures r.Done? && argc < MAXARGS ==> argc + |Args(r.phrase)| < MAXARGS
    decreases |ts|
  {
    if ts == [] || Heads(ts, "|)&;") then Done([], ts)
    else if ts[0].Word? then
      if argc + 1 >= MAXARGS then Fail
      else match FindParts(ts[1..], argc + 1)
        case Fail => Fail
        case Done(ps, k) => Done([Arg(ts[0].text)] + ps, k)
    else if !Heads(ts, "<>") || |ts| < 2 || !ts[1].Word? then Fail
    else match FindParts(ts[2..], argc)
      case Fail => Fail
      case Done(ps, k) => Done([Redirect(To(ts[0].c, ts[1].text))] + ps, k)
  }

  function FindItem(ts: seq<Token>): (r: Parse<Item>)
    ensures r.Done? ==> |r.rest| <= |ts| && ItemOk(r.phrase) && ts == SpellItem(r.phrase, r.rest)
    decreases |ts|, 0
  {
    if Heads(ts, "(") then
      match FindLine(ts[1..])
      case Fail => Fail
      case Done(l, k) =>
        if !Heads(k, ")") then Fail
        else match FindRedirs(k[1..])
          case Fail => Fail
          case Done(rs, m) =>
            assert k == [Sym(')')] + SpellRedirs(rs, m);
            Done(Block(l, rs), m)
    else
      match FindParts(ts, 0)
      case Fail => Fail
      case Done(ps, k) => Done(Simple(ps), k)
  }

  function FindPipe(ts: seq<Token>): (r: Parse<Pipeline>)
    ensures r.Done? ==> |r.rest| <= |ts| && PipeOk(r.phrase) && ts == SpellPipe(r.phrase, r.rest)
    decreases |ts|, 1
  {
    match FindItem(ts)
    case Fail => Fail
    case Done(i, k) =>
      if !Heads(k, "|") then Done(Pipeline(i, None), k)
      else match FindPipe(k[1..])
        case Fail => Fail
        case Done(p, m) =>
          assert k == [Sym('|')] + SpellPipe(p, m);
          Done(Pipeline(i, Some(p)), m)
  }

  function CountAmps(ts: seq<Token>): (n: nat)
    ensures n <= |ts| && ts == SpellAmps(n, ts[n..]) && !Heads(ts[n..], "&")
  {
    if Heads(ts, "&") then 1 + CountAmps(ts[1..]) else 0
  }

  function FindLine(ts: seq<Token>): (r: Parse<Line>)
    ensures r.Done? ==> |r.rest| <= |ts| && LineOk(r.phrase) && ts == SpellLine(r.phrase, r.rest)
    decreases |ts|, 2
  {
    match FindPipe(ts)
    case Fail => Fail
    case Done(p, k) =>
      var n := CountAmps(k);
      var m := k[n..];
      if !Heads(m, ";") then Done(Line(p, n, None), m)
      else match FindLine(m[1..])
        case Fail => Fail
        case Done(l, o) =>
          assert m == [Sym(';')] + SpellLine(l, o);
          Done(Line(p, n, Some(l)), o)
  }

  // What a command line means: a command, or a syntax error.
  function Meaning(s: string): (r: Option<Cmd<string>>) {
    match FindLine(Lex(s))
    case Fail => None
    case Done(l, k) => if k == [] then Some(TreeLine(l)) else None
  }

  // ---------- the parser accepts exactly the grammar

  predicate Stop(k: seq<Token>, cs: string) { k == [] || Heads(k, cs) }

  lemma {:induction false} RedirsFound(rs: seq<Redirection>, k: seq<Token>)
    requires RedirsOk(rs) && !Heads(k, "<>")
    ensures FindRedirs(SpellRedirs(rs, k)) == Done(rs, k)
  {
    if rs != [] {
      var ts := SpellRedirs(rs, k);
      RedirsFound(rs[1..], k);
      assert rs[0] in rs && ts[2..] == SpellRedirs(rs[1..], k) && rs == [rs[0]] + rs[1..];
    }
  }

  // Phrases already found, put before those a parse finds.
  ghost function Before<A>(xs: seq<A>, p: Parse<seq<A>>): Parse<seq<A>> {
    if p.Fail? then Fail else Done(xs + p.phrase, p.rest)
  }

  lemma ArgStep(ts: seq<Token>, argc: nat)
    requires ts != [] && ts[0].Word?
    ensures FindParts(ts, argc) ==
      if argc + 1 >= MAXARGS then Fail else Before([Arg(ts[0].text)], FindParts(ts[1..], argc + 1))
  {
  }

  lemma RedirectStep(r: Redirection, k: seq<Token>, argc: nat)
    requires RedirOk(r)
    ensures FindParts([Sym(r.kind), Word(r.file)] + k, argc) == Before([Redirect(r)], FindParts(k, argc))
  {
    hide SpellParts, Args, PartsOk;
    var all := [Sym(r.kind), Word(r.file)] + k;
    assert all[2..] == k && all[1] == Word(r.file) && all[0] == Sym(r.kind);
    assert Heads(all, "<>") && !Heads(all, "|)&;");
  }

  lemma {:induction false} PartsFound(ps: seq<Part>, argc: nat, k: seq<Token>)
    requires PartsOk(ps) && argc + |Args(ps)| < MAXARGS && Stop(k, "|)&;")
    ensures FindParts(SpellParts(ps, k), argc) == Done(ps, k)
    decreases |ps|
  {
    hide FindParts, Heads;
    if ps == [] {
      NoParts(k, argc);
    } else {
      assert ps[0] in ps && ps == [ps[0]] + ps[1..];
      match ps[0] {
        case Arg(w) =>
          PartsFound(ps[1..], argc + 1, k);
          ArgStep(SpellParts(ps, k), argc);
          assert SpellParts(ps, k)[1..] == SpellParts(ps[1..], k);
        case Redirect(r) =>
          PartsFound(ps[1..], argc, k);
          RedirectStep(r, SpellParts(ps[1..], k), argc);
      }
    }
  }

  lemma NoParts(k: seq<Token>, argc: nat)
    requires Stop(k, "|)&;")
    ensures FindParts(k, argc) == Done([], k)
  {
  }

  lemma {:induction false} AmpsFound(n: nat, k: seq<Token>)
    requires !Heads(k, "&")
    ensures CountAmps(SpellAmps(n, k)) == n && SpellAmps(n, k)[n..] == k
  {
    if n > 0 {
      AmpsFound(n - 1, k);
      assert SpellAmps(n, k)[1..] == SpellAmps(n - 1, k);
    }
  }

  lemma {:induction false} ItemFound(i: Item, k: seq<Token>)
    requires ItemOk(i) && Stop(k, "|&;)")
    ensures FindItem(SpellItem(i, k)) == Done(i, k)
    decreases i, 0
  {
    match i
    case Simple(ps) =>
      PartsFound(ps, 0, k);
      if ps != [] {
        assert ps[0] in ps;
      }
    case Block(l, rs) =>
      var after := [Sym(')')] + SpellRedirs(rs, k);
      RedirsFound(rs, k);
      LineFound(l, after);
      assert SpellItem(i, k)[1..] == SpellLine(l, after) && after[1..] == SpellRedirs(rs, k);
  }

  lemma {:induction false} PipeFound(p: Pipeline, k: seq<Token>)
    requires PipeOk(p) && Stop(k, "&;)")
    ensures FindPipe(SpellPipe(p, k)) == Done(p, k)
    decreases p, 1
  {
    match p.next
    case None => ItemFound(p.first, k);
    case Some(q) =>
      PipeFound(q, k);
      var m := [Sym('|')] + SpellPipe(q, k);
      ItemFound(p.first, m);
      assert m[1..] == SpellPipe(q, k);
  }

  lemma {:induction false} AmpsStop(n: nat, k: seq<Token>)
    requires Stop(k, ";)")
    ensures Stop(SpellAmps(n, k), "&;)")
  {
  }

  /** The parser finds the phrase behind any spelling of it, and stops where it ends. */
  lemma {:induction false} LineFound(l: Line, k: seq<Token>)
    requires LineOk(l) && Stop(k, ")")
    ensures FindLine(SpellLine(l, k)) == Done(l, k)
    decreases l, 2
  {
    var m := match l.next case None => k case Some(o) => [Sym(';')] + SpellLine(o, k);
    AmpsFound(l.amps, m);
    AmpsStop(l.amps, m);
    PipeFound(l.pipe, SpellAmps(l.amps, m));
    match l.next
    case None =>
    case Some(o) =>
      LineFound(o, k);
      assert m[1..] == SpellLine(o, k);
  }

  /** A line means `t` exactly if its tokens spell a phrase of the grammar that stands for `t`. */
  lemma MeaningIsGrammar(s: string, t: Cmd<string>)
    ensures Meaning(s) == Some(t) <==> exists l :: LineOk(l) && SpellLine(l, []) == Lex(s) && TreeLine(l) == t
  {
    if l :| LineOk(l) && SpellLine(l, []) == Lex(s) && TreeLine(l) == t {
      LineFound(l, []);
    }
  }

  /** The grammar is unambiguous: tokens spell one phrase only. */
  lemma Unambiguous(l: Line, m: Line)
    requires LineOk(l) && LineOk(m) && SpellLine(l, []) == SpellLine(m, [])
    ensures l == m
  {
    LineFound(l, []);
    LineFound(m, []);
  }

  // ---------- the printer

  // Adds a redirection at the end of an item.
  function Extend(i: Item, r: Redirection): Item {
    match i
    case Simple(ps) => Simple(ps + [Redirect(r)])
    case Block(l, rs) => Block(l, rs + [r])
  }

  function KindOf(mode: int, fd: int): char {
    if fd == 0 then '<' else if mode == O_WRONLY + O_CREATE then '+' else '>'
  }

  predicate Unit(t: Cmd<string>) { t.Exec? || t.Redir? }

  function ShowItem(t: Cmd<string>): Item
    decreases t, if Unit(t) then 1 else 5
  {
    match t
    case Exec(argv) => Simple(seq(|argv|, i requires 0 <= i < |argv| => Arg(argv[i])))
    case Redir(c, f, mode, fd) => Extend(ShowItem(c), To(KindOf(mode, fd), f))
    case _ => Block(ShowLine(t), [])
  }

  function ShowPipe(t: Cmd<string>): Pipeline
    decreases t, if Unit(t) then 2 else if t.Pipe? then 0 else 6
  {
    match t
    case Pipe(a, b) => Pipeline(ShowItem(a), Some(ShowPipe(b)))
    case _ => Pipeline(ShowItem(t), None)
  }

  // A line without ';'.
  function ShowBack(t: Cmd<string>): (l: Line)
    ensures l.next.None?
    decreases t, if Unit(t) then 3 else if t.List? then 7 else 1
  {
    match t
    case Back(c) => var l := ShowBack(c); Line(l.pipe, l.amps + 1, None)
    case _ => Line(ShowPipe(t), 0, None)
  }

  function ShowLine(t: Cmd<string>): Line
    decreases t, if Unit(t) then 4 else 2
  {
    match t
    case List(a, b) => var l := ShowBack(a); Line(l.pipe, l.amps, Some(ShowLine(b)))
    case _ => ShowBack(t)
  }

  function Glyphs(t: Token): string {
    match t
    case Word(w) => w
    case Sym(c) => if c == '+' then ">>" else [c]
  }

  // One token after another, a blank after each.
  function Written(ts: seq<Token>): string {
    if ts == [] then "" else Glyphs(ts[0]) + (" " + Written(ts[1..]))
  }

  function Print(t: Cmd<string>): string { Written(SpellLine(ShowLine(t), [])) }

  // The trees the shell can express: any nesting, with words a scanner can return.
  predicate ProperWord(w: string) { w != "" && forall c :: c in w ==> Plain(c) }

  predicate WellFormed(t: Cmd<string>) {
    match t
    case Exec(argv) => |argv| < MAXARGS && forall w :: w in argv ==> ProperWord(w)
    case Redir(c, f, mode, fd) =>
      && WellFormed(c) && ProperWord(f)
      && exists kind :: kind in {'<', '>', '+'} && mode == ModeOf(kind) && fd == FdOf(kind)
    case Pipe(a, b) => WellFormed(a) && WellFormed(b)
    case List(a, b) => WellFormed(a) && WellFormed(b)
    case Back(c) => WellFormed(c)
  }

  predicate PartProper(p: Part) { ProperWord(if p.Arg? then p.word else p.to.file) }

  predicate ItemProper(i: Item)
    decreases i, 0
  {
    match i
    case Simple(ps) => forall p :: p in ps ==> PartProper(p)
    case Block(l, rs) => LineProper(l) && forall r :: r in rs ==> ProperWord(r.file)
  }

  predicate PipeProper(p: Pipeline)
    decreases p, 1
  {
    ItemProper(p.first) && (p.next.Some? ==> PipeProper(p.next.value))
  }

  predicate LineProper(l: Line)
    decreases l, 2
  {
    PipeProper(l.pipe) && (l.next.Some? ==> LineProper(l.next.value))
  }

  // ---------- the printer chooses a phrase that stands for the tree

  lemma {:induction false} WrapMore(c: Cmd<string>, rs: seq<Redirection>, r: Redirection)
    ensures Wrap(c, rs + [r]) == Redirected(Wrap(c, rs), r.file, r.kind)
    decreases |rs|
  {
    if rs != [] {
      assert (rs + [r])[1..] == rs[1..] + [r];
      WrapMore(Redirected(c, rs[0].file, rs[0].kind), rs[1..], r);
    }
  }

  lemma {:induction false} PartsMore(ps: seq<Part>, r: Redirection)
    ensures Args(ps + [Redirect(r)]) == Args(ps) && Redirs(ps + [Redirect(r)]) == Redirs(ps) + [r]
  {
    if ps != [] {
      assert (ps + [Redirect(r)])[1..] == ps[1..] + [Redirect(r)];
      PartsMore(ps[1..], r);
    }
  }

  lemma Extended(i: Item, r: Redirection)
    requires ItemOk(i) && ItemProper(i) && RedirOk(r) && ProperWord(r.file)
    ensures ItemOk(Extend(i, r)) && ItemProper(Extend(i, r))
    ensures TreeItem(Extend(i, r)) == Redirected(TreeItem(i), r.file, r.kind)
  {
    match i
    case Simple(ps) =>
      PartsMore(ps, r);
      WrapMore(Exec(Args(ps)), Redirs(ps), r);
    case Block(l, rs) => WrapMore(TreeLine(l), rs, r);
  }

  lemma {:induction false} ArgsOnly(ps: seq<Part>)
    requires forall p :: p in ps ==> p.Arg?
    ensures Redirs(ps) == [] && |Args(ps)| == |ps|
    ensures forall i :: 0 <= i < |ps| ==> Args(ps)[i] == ps[i].word
  {
    if ps != [] {
      assert ps[0] in ps && ps[0].Arg?;
      ArgsOnly(ps[1..]);
    }
  }

  lemma {:induction false} ShowItemTrue(t: Cmd<string>)
    requires WellFormed(t)
    ensures ItemOk(ShowItem(t)) && ItemProper(ShowItem(t)) && TreeItem(ShowItem(t)) == t
    decreases t, if Unit(t) then 1 else 5
  {
    match t
    case Exec(argv) =>
      var ps := ShowItem(t).parts;
      ArgsOnly(ps);
      assert Args(ps) == argv;
    case Redir(c, f, mode, fd) =>
      ShowItemTrue(c);
      Extended(ShowItem(c), To(KindOf(mode, fd), f));
    case _ => ShowLineTrue(t);
  }

  lemma {:induction false} ShowPipeTrue(t: Cmd<string>)
    requires WellFormed(t)
    ensures PipeOk(ShowPipe(t)) && PipeProper(ShowPipe(t)) && TreePipe(ShowPipe(t)) == t
    decreases t, if Unit(t) then 2 else if t.Pipe? then 0 else 6
  {
    match t
    case Pipe(a, b) =>
      ShowItemTrue(a);
      ShowPipeTrue(b);
    case _ => ShowItemTrue(t);
  }

  lemma {:induction false} ShowBackTrue(t: Cmd<string>)
    requires WellFormed(t)
    ensures LineOk(ShowBack(t)) && LineProper(ShowBack(t)) && TreeLine(ShowBack(t)) == t
    decreases t, if Unit(t) then 3 else if t.List? then 7 else 1
  {
    match t
    case Back(c) => ShowBackTrue(c);
    case _ => ShowPipeTrue(t);
  }

  lemma {:induction false} ShowLineTrue(t: Cmd<string>)
    requires WellFormed(t)
    ensures LineOk(ShowLine(t)) && LineProper(ShowLine(t)) && TreeLine(ShowLine(t)) == t
    decreases t, if Unit(t) then 4 else 2
  {
    match t
    case List(a, b) =>
      ShowBackTrue(a);
      ShowLineTrue(b);
    case _ => ShowBackTrue(t);
  }

  // ---------- scanning undoes writing

  predicate TokenProper(t: Token) { if t.Word? then ProperWord(t.text) else Symbol(t.c) || t.c == '+' }

  predicate Proper(ts: seq<Token>) { forall t :: t in ts ==> TokenProper(t) }

  lemma {:induction false} PartsSpelt(ps: seq<Part>, k: seq<Token>)
    requires PartsOk(ps) && (forall p :: p in ps ==> PartProper(p)) && Proper(k)
    ensures Proper(SpellParts(ps, k))
  {
    if ps != [] {
      PartsSpelt(ps[1..], k);
      assert ps[0] in ps;
    }
  }

  lemma {:induction false} RedirsSpelt(rs: seq<Redirection>, k: seq<Token>)
    requires RedirsOk(rs) && (forall r :: r in rs ==> ProperWord(r.file)) && Proper(k)
    ensures Proper(SpellRedirs(rs, k))
  {
    if rs != [] {
      RedirsSpelt(rs[1..], k);
      assert rs[0] in rs;
    }
  }

  lemma {:induction false} AmpsSpelt(n: nat, k: seq<Token>)
    requires Proper(k)
    ensures Proper(SpellAmps(n, k))
  {
    if n > 0 {
      AmpsSpelt(n - 1, k);
    }
  }

  lemma {:induction false} ItemSpelt(i: Item, k: seq<Token>)
    requires ItemOk(i) && ItemProper(i) && Proper(k)
    ensures Proper(SpellItem(i, k))
    decreases i, 0
  {
    match i
    case Simple(ps) => PartsSpelt(ps, k);
    case Block(l, rs) =>
      RedirsSpelt(rs, k);
      LineSpelt(l, [Sym(')')] + SpellRedirs(rs, k));
  }

  lemma {:induction false} PipeSpelt(p: Pipeline, k: seq<Token>)
    requires PipeOk(p) && PipeProper(p) && Proper(k)
    ensures Proper(SpellPipe(p, k))
    decreases p, 1
  {
    match p.next
    case None => ItemSpelt(p.first, k);
    case Some(q) =>
      PipeSpelt(q, k);
      ItemSpelt(p.first, [Sym('|')] + SpellPipe(q, k));
  }

  lemma {:induction false} LineSpelt(l: Line, k: seq<Token>)
    requires LineOk(l) && LineProper(l) && Proper(k)
    ensures Proper(SpellLine(l, k))
    decreases l, 2
  {
    var m := k;
    if l.next.Some? {
      LineSpelt(l.next.value, k);
      m := [Sym(';')] + SpellLine(l.next.value, k);
    }
    AmpsSpelt(l.amps, m);
    PipeSpelt(l.pipe, SpellAmps(l.amps, m));
  }

  lemma LexBlank(s: string)
    ensures Lex(" " + s) == Lex(s)
  {
    assert (" " + s)[1..] == s;
  }

  lemma LexFirst(t: Token, s: string)
    requires TokenProper(t)
    ensures Lex(Glyphs(t) + (" " + s)) == [t] + Lex(s)
  {
    var g := Glyphs(t);
    var all := g + (" " + s);
    LexBlank(s);
    assert all[0] == g[0] && all[|g|] == ' ' && all[|g|..] == " " + s && all[..|g|] == g;
    if t.Word? {
      assert g[0] in g;
      assert forall i :: 0 <= i < |g| ==> all[i] == g[i] && g[i] in g;
      assert WordLength(all) == |g|;
    }
  }

  lemma {:induction false} LexWritten(ts: seq<Token>)
    requires Proper(ts)
    ensures Lex(Written(ts)) == ts
  {
    if ts != [] {
      LexWritten(ts[1..]);
      assert ts[0] in ts;
      LexFirst(ts[0], Written(ts[1..]));
    }
  }

  // ---------- what the pieces of the language are for

  // How a file is opened: on which descriptor, for reading or writing, made if missing, emptied first.
  datatype Opening = Opening(fd: int, reading: bool, writing: bool, making: bool, emptying: bool)

  predicate Flag(mode: int, bit: int)
    requires bit > 0
  {
    mode / bit % 2 == 1
  }

  // The tests of the kernel's open on a mode.
  function OpensAs(mode: int, fd: int): Opening {
    Opening(fd, !Flag(mode, 1), Flag(mode, 1) || Flag(mode, 2), Flag(mode, 0x200), Flag(mode, 0x400))
  }

  /** As the kernel reads the modes, "<" is an existing file as input, ">" an emptied or new file as output, and
      ">>" a file as output that is kept or new. */
  lemma RedirectionOpens(c: Cmd<string>, file: string, kind: char)
    requires kind in {'<', '>', '+'}
    ensures var r := Redirected(c, file, kind);
            && r.Redir? && r.cmd == c && r.file == file
            && OpensAs(r.mode, r.fd) == match kind
                                        case '<' => Opening(0, true, false, false, false)
                                        case '>' => Opening(1, false, true, true, true)
                                        case _ => Opening(1, false, true, true, false)
  {
  }

  // Tabs, carriage returns, newlines and vertical tabs replaced by spaces.
  function Spaced(s: string): (r: string)
    ensures |r| == |s|
  {
    seq(|s|, i requires 0 <= i < |s| => if s[i] in {'\t', '\r', '\n', '\U{00000b}'} then ' ' else s[i])
  }

  lemma SpacedRest(s: string, n: nat)
    requires n <= |s|
    ensures Spaced(s)[n..] == Spaced(s[n..])
  {
  }

  lemma {:induction false} SpacedSkip(s: string)
    ensures Skip(Spaced(s)) == Spaced(Skip(s))
  {
    if s != [] && White(s[0]) {
      SpacedRest(s, 1);
      SpacedSkip(s[1..]);
    }
  }

  lemma {:induction false} SpacedWord(s: string)
    ensures WordLength(Spaced(s)) == WordLength(s) && Spaced(s)[..WordLength(s)] == s[..WordLength(s)]
  {
    if s != [] && !White(s[0]) && !Symbol(s[0]) {
      SpacedRest(s, 1);
      SpacedWord(s[1..]);
      assert s[..WordLength(s)] == [s[0]] + s[1..][..WordLength(s[1..])];
    }
  }

  lemma {:induction false} SpacedLex(s: string)
    ensures Lex(Spaced(s)) == Lex(s)
    decreases |s|
  {
    hide Spaced;
    var t := Skip(s);
    SpacedSkip(s);
    if t != [] {
      SpacedHead(t);
      if Symbol(t[0]) {
        var n := if t[0] == '>' && |t| > 1 && t[1] == '>' then 2 else 1;
        SpacedRest(t, n);
        SpacedLex(t[n..]);
      } else {
        SpacedWord(t);
        SpacedRest(t, WordLength(t));
        SpacedLex(t[WordLength(t)..]);
      }
    }
  }

  lemma SpacedHead(t: string)
    requires t != [] && !White(t[0])
    ensures Spaced(t)[0] == t[0] && (|t| > 1 ==> (Spaced(t)[1] == '>' <==> t[1] == '>'))
  {
  }

  /** All five kinds of white space separate words alike. */
  lemma AnyBlank(s: string)
    ensures Meaning(Spaced(s)) == Meaning(s)
  {
    SpacedLex(s);
  }

  /** Every command tree over proper words is what its printed form means. */
  lemma RoundTrip(t: Cmd<string>)
    requires WellFormed(t)
    ensures Meaning(Print(t)) == Some(t)
  {
    var l := ShowLine(t);
    ShowLineTrue(t);
    LineSpelt(l, []);
    LexWritten(SpellLine(l, []));
    LineFound(l, []);
  }
}
