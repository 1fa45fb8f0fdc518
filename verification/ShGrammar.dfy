/**
 The command language as a grammar over tokens, and parsecmd (src/sh.c:328-447) as its parser:

   line  ::= pipe '&'* | pipe '&'* ';' line
   pipe  ::= exec | exec '|' pipe
   exec  ::= '(' line ')' redir* | redir* (word redir*)*      fewer than MAXARGS words
   redir ::= '<' word | '>' word | '>>' word
 */
module ShGrammar {
  import opened ShLex
  import opened ShParse

  // Tokens

  datatype Tok = S(c: char) | More | W(w: Span)

  function TokOf(t: Token): (r: Tok)
    requires t.kind != End
  {
    match t.kind
    case Sym(c) => S(c)
    case Append => More
    case Word => W(Span(t.q, t.eq))
  }

  /** What gettoken returns from s on. */
  function Toks(b: Line, s: nat): (r: seq<Tok>)
    requires s <= |b|
    decreases |b| - s
  {
    var t := Next(b, s);
    if t.kind == End then [] else [TokOf(t)] + Toks(b, t.next)
  }

  function Text(b: Line, t: Tok): (r: string)
    requires t.W? ==> t.w.q <= t.w.eq <= |b|
  {
    match t
    case S(c) => [c]
    case More => ">>"
    case W(w) => b[w.q..w.eq]
  }

  predicate InLine(b: Line, ts: seq<Tok>) {
    forall k :: 0 <= k < |ts| && ts[k].W? ==> ts[k].w.q <= ts[k].w.eq <= |b|
  }

  function Texts(b: Line, ts: seq<Tok>): (r: string)
    requires InLine(b, ts)
  {
    if ts == [] then [] else Text(b, ts[0]) + Texts(b, ts[1..])
  }

  const WHITESPACE: string := [' ', '\t', '\r', '\n', 11 as char]
  const SYMBOLS: string := "<|>&;()"

  /** The line from s on without its white space. */
  function Black(b: Line, s: nat): (r: string)
    requires s <= |b|
    decreases |b| - s
  {
    if s == |b| then [] else (if b[s] in WHITESPACE then [] else [b[s]]) + Black(b, s + 1)
  }

  lemma {:induction false} BlackSkip(b: Line, s: nat, e: nat)
    requires s <= e <= |b| && forall i :: s <= i < e ==> Ws(b[i])
    ensures Black(b, s) == Black(b, e)
    decreases e - s
  {
    if s < e {
      BlackSkip(b, s + 1, e);
    }
  }

  lemma BlackStep(b: Line, s: nat)
    requires s < |b| && !Ws(b[s])
    ensures Black(b, s) == [b[s]] + Black(b, s + 1)
  {
  }

  lemma {:induction false} BlackRun(b: Line, s: nat, e: nat)
    requires s <= e <= |b| && forall i :: s <= i < e ==> !Ws(b[i])
    ensures Black(b, s) == b[s..e] + Black(b, e)
    decreases e - s
  {
    hide Black, Ws;
    if s < e {
      BlackRun(b, s + 1, e);
      BlackStep(b, s);
      assert b[s..e] == [b[s]] + b[s + 1..e];
      assert [b[s]] + (b[s + 1..e] + Black(b, e)) == b[s..e] + Black(b, e);
    } else {
      assert b[s..e] == [];
    }
  }

  /** The tokens spell the line: nothing but white space lies outside them. */
  lemma {:induction false} TokensSpell(b: Line, s: nat)
    requires s <= |b|
    ensures InLine(b, Toks(b, s)) && Texts(b, Toks(b, s)) == Black(b, s)
    decreases |b| - s
  {
    hide Next, Black, Ws;
    var t := Next(b, s);
    SpellToken(b, s);
    if t.kind != End {
      TokensSpell(b, t.next);
      assert Toks(b, s)[1..] == Toks(b, t.next);
    }
  }

  lemma SpellToken(b: Line, s: nat)
    requires s <= |b|
    ensures var t := Next(b, s);
            if t.kind == End then Black(b, s) == []
            else (TokOf(t).W? ==> TokOf(t).w.q <= TokOf(t).w.eq <= |b|) && Black(b, s) == Text(b, TokOf(t)) + Black(b, t.next)
  {
    hide Black;
    var t := Next(b, s);
    BlackSkip(b, s, t.q);
    if t.kind == End {
      BlackRun(b, |b|, |b|);
      BlackEnd(b);
    } else {
      TokenText(b, s);
      BlackRun(b, t.q, t.eq);
      BlackSkip(b, t.eq, t.next);
    }
  }

  lemma BlackEnd(b: Line)
    ensures Black(b, |b|) == []
  {
  }

  /** A token's text is the piece of the line it was taken from; '>' is single only where no other follows. */
  lemma TokenText(b: Line, s: nat)
    requires s <= |b| && Next(b, s).kind != End
    ensures var t := Next(b, s);
            && Text(b, TokOf(t)) == b[t.q..t.eq]
            && (forall i :: t.q <= i < t.eq ==> !Ws(b[i])) && (forall i :: t.eq <= i < t.next ==> Ws(b[i]))
            && (TokOf(t) == S('>') ==> t.eq == |b| || b[t.eq] != '>')
            && (TokOf(t).S? ==> TokOf(t).c in SYMBOLS) && (TokOf(t).W? ==> t.q < t.eq && forall i :: t.q <= i < t.eq ==> b[i] !in SYMBOLS)
  {
  }

  lemma SkipToks(b: Line, s: nat)
    requires s <= |b|
    ensures Toks(b, Skip(b, s)) == Toks(b, s)
  {
    assert Skip(b, Skip(b, s)) == Skip(b, s);
  }

  predicate Starts(ts: seq<Tok>, toks: string) {
    ts != [] && ts[0].S? && ts[0].c in toks
  }

  predicate StartsRedir(ts: seq<Tok>) {
    ts != [] && (ts[0] == S('<') || ts[0] == S('>') || ts[0] == More)
  }

  lemma PeekSees(b: Line, s: nat, toks: string)
    requires s <= |b| && forall c :: c in toks ==> Symbol(c) && c != '>'
    ensures Peek(b, s, toks) <==> Starts(Toks(b, s), toks)
  {
  }

  lemma PeekSeesRedir(b: Line, s: nat)
    requires s <= |b|
    ensures Peek(b, s, "<>") <==> StartsRedir(Toks(b, s))
  {
  }

  // Derivations

  datatype RedirD = In(file: Span) | Out(file: Span) | OutMore(file: Span)
  datatype ArgD = ArgD(word: Span, redirs: seq<RedirD>)
  datatype ExecD = Simple(redirs: seq<RedirD>, args: seq<ArgD>) | Block(line: LineD, redirs: seq<RedirD>)
  datatype PipeD = One(exec: ExecD) | Bar(exec: ExecD, rest: PipeD)
  datatype LineD = Last(pipe: PipeD, amps: nat) | Semi(pipe: PipeD, amps: nat, rest: LineD)

  // The tokens derived

  function RedirToks(d: RedirD): (r: seq<Tok>) {
    [match d case In(_) => S('<') case Out(_) => S('>') case OutMore(_) => More] + [W(d.file)]
  }

  function RedirsToks(ds: seq<RedirD>): (r: seq<Tok>) {
    if ds == [] then [] else RedirToks(ds[0]) + RedirsToks(ds[1..])
  }

  function ArgsToks(ds: seq<ArgD>): (r: seq<Tok>) {
    if ds == [] then [] else [W(ds[0].word)] + RedirsToks(ds[0].redirs) + ArgsToks(ds[1..])
  }

  function Amps(n: nat): (r: seq<Tok>) {
    if n == 0 then [] else [S('&')] + Amps(n - 1)
  }

  function ExecToks(d: ExecD): (r: seq<Tok>) {
    match d
    case Simple(rs, args) => RedirsToks(rs) + ArgsToks(args)
    case Block(l, rs) => [S('(')] + LineToks(l) + [S(')')] + RedirsToks(rs)
  }

  function PipeToks(d: PipeD): (r: seq<Tok>) {
    match d
    case One(e) => ExecToks(e)
    case Bar(e, rest) => ExecToks(e) + [S('|')] + PipeToks(rest)
  }

  function LineToks(d: LineD): (r: seq<Tok>) {
    match d
    case Last(p, n) => PipeToks(p) + Amps(n)
    case Semi(p, n, rest) => PipeToks(p) + Amps(n) + [S(';')] + LineToks(rest)
  }

  /** Fewer than MAXARGS words in every command. */
  predicate FitsExec(d: ExecD) {
    match d
    case Simple(_, args) => |args| < MAXARGS
    case Block(l, _) => FitsLine(l)
  }

  predicate FitsPipe(d: PipeD) {
    FitsExec(d.exec) && (d.Bar? ==> FitsPipe(d.rest))
  }

  predicate FitsLine(d: LineD) {
    FitsPipe(d.pipe) && (d.Semi? ==> FitsLine(d.rest))
  }

  // The tree meant

  /** '>' and '>>' both open the file for writing, without appending (src/sh.c:391-395). */
  function RedirTree(d: RedirD): (r: Redirect) {
    Redirect(d.file, !d.In?)
  }

  function RedirTrees(ds: seq<RedirD>): (r: seq<Redirect>)
    ensures |r| == |ds|
  {
    if ds == [] then [] else [RedirTree(ds[0])] + RedirTrees(ds[1..])
  }

  function Words(ds: seq<ArgD>): (r: seq<Span>)
    ensures |r| == |ds|
  {
    if ds == [] then [] else [ds[0].word] + Words(ds[1..])
  }

  function ArgRedirs(ds: seq<ArgD>): (r: seq<Redirect>) {
    if ds == [] then [] else RedirTrees(ds[0].redirs) + ArgRedirs(ds[1..])
  }

  /** The redirections applied to the command one after the other, the first to the command itself. */
  function Nest(c: Cmd, rs: seq<Redirect>): (r: Cmd)
    decreases |rs|
  {
    if rs == [] then c else Nest(Redir(c, rs[0]), rs[1..])
  }

  function Backs(c: Cmd, n: nat): (r: Cmd) {
    if n == 0 then c else Back(Backs(c, n - 1))
  }

  function ExecTree(d: ExecD): (r: Cmd) {
    match d
    case Simple(rs, args) => Nest(Exec(Words(args)), RedirTrees(rs) + ArgRedirs(args))
    case Block(l, rs) => Nest(LineTree(l), RedirTrees(rs))
  }

  function PipeTree(d: PipeD): (r: Cmd) {
    match d
    case One(e) => ExecTree(e)
    case Bar(e, rest) => Pipe(ExecTree(e), PipeTree(rest))
  }

  function LineTree(d: LineD): (r: Cmd) {
    match d
    case Last(p, n) => Backs(PipeTree(p), n)
    case Semi(p, n, rest) => List(Backs(PipeTree(p), n), LineTree(rest))
  }

  lemma {:induction false} WrapIsNest(c: Cmd, rs: seq<Redirect>)
    ensures Wrap(c, rs) == Nest(c, rs)
    decreases |rs|
  {
    if rs != [] {
      WrapIsNest(c, rs[..|rs| - 1]);
      NestLast(c, rs[..|rs| - 1], rs[|rs| - 1]);
      assert rs == rs[..|rs| - 1] + [rs[|rs| - 1]];
    }
  }

  lemma {:induction false} NestLast(c: Cmd, rs: seq<Redirect>, x: Redirect)
    ensures Nest(c, rs + [x]) == Redir(Nest(c, rs), x)
    decreases |rs|
  {
    if rs == [] {
      assert (rs + [x])[1..] == [];
    } else {
      NestLast(Redir(c, rs[0]), rs[1..], x);
      assert (rs + [x])[1..] == rs[1..] + [x];
    }
  }

  // Every derivation is parsed, to its tree

  /** What may follow a command. */
  predicate Follows(rest: seq<Tok>) {
    rest == [] || Starts(rest, "|)&;")
  }

  lemma FirstTok(b: Line, s: nat, t: Tok, rest: seq<Tok>)
    requires s <= |b| && Toks(b, s) == [t] + rest
    ensures Next(b, s).kind != End && TokOf(Next(b, s)) == t && Toks(b, Next(b, s).next) == rest
  {
    assert Toks(b, s)[0] == t && Toks(b, s)[1..] == rest;
    assert Toks(b, s)[1..] == Toks(b, Next(b, s).next);
  }

  lemma RedirsSplit(d: RedirD, ds: seq<RedirD>, rest: seq<Tok>, rs: seq<Redirect>)
    ensures RedirsToks([d] + ds) + rest == [RedirToks(d)[0]] + ([W(d.file)] + (RedirsToks(ds) + rest))
    ensures rs + RedirTrees([d] + ds) == rs + [RedirTree(d)] + RedirTrees(ds)
  {
    assert ([d] + ds)[1..] == ds;
    assert RedirToks(d) == [RedirToks(d)[0]] + [W(d.file)];
  }

  lemma ArgsSplit(d: ArgD, ds: seq<ArgD>, rest: seq<Tok>, args: seq<Span>, rs: seq<Redirect>)
    ensures ArgsToks([d] + ds) + rest == [W(d.word)] + (RedirsToks(d.redirs) + (ArgsToks(ds) + rest))
    ensures args + Words([d] + ds) == args + [d.word] + Words(ds)
    ensures rs + ArgRedirs([d] + ds) == rs + RedirTrees(d.redirs) + ArgRedirs(ds)
  {
    hide RedirsToks, RedirTrees;
    assert ([d] + ds)[1..] == ds;
  }

  lemma {:induction false} RedirsParsed(b: Line, rs: seq<Redirect>, s: nat, ds: seq<RedirD>, rest: seq<Tok>)
    requires s <= |b| && Toks(b, s) == RedirsToks(ds) + rest && !StartsRedir(rest)
    ensures var r := RedirsAt(b, rs, s); r.Ok? && r.value == rs + RedirTrees(ds) && Toks(b, r.next) == rest
    decreases |ds|
  {
    hide Next, Skip, Peek, Toks;
    PeekSeesRedir(b, s);
    if ds == [] {
      assert RedirsToks(ds) + rest == rest;
      SkipToks(b, s);
    } else {
      var ts := RedirsToks(ds[1..]) + rest;
      var k := RedirToks(ds[0])[0];
      assert ds == [ds[0]] + ds[1..];
      RedirsSplit(ds[0], ds[1..], rest, rs);
      hide RedirsToks, RedirTrees;
      FirstTok(b, s, k, [W(ds[0].file)] + ts);
      var t := Next(b, s);
      FirstTok(b, t.next, W(ds[0].file), ts);
      var f := Next(b, t.next);
      RedirsParsed(b, rs + [RedirTree(ds[0])], f.next, ds[1..], rest);
    }
  }

  lemma ArgsStop(b: Line, args: seq<Span>, rs: seq<Redirect>, s: nat)
    requires s <= |b| && Follows(Toks(b, s))
    ensures var r := ArgsAt(b, args, rs, s); r.Ok? && r.value == Nest(Exec(args), rs) && Toks(b, r.next) == Toks(b, s)
  {
    hide Skip, Peek, Nest, Wrap;
    PeekSees(b, s, "|)&;");
    SkipToks(b, s);
    WrapIsNest(Exec(args), rs);
    if Toks(b, s) == [] {
      AtEnd(b, s);
    }
  }

  lemma ArgsNoRedir(ds: seq<ArgD>, rest: seq<Tok>)
    requires Follows(rest)
    ensures !Starts(ArgsToks(ds) + rest, "(") && !StartsRedir(ArgsToks(ds) + rest)
  {
  }

  lemma {:induction false} ArgsParsed(b: Line, args: seq<Span>, rs: seq<Redirect>, s: nat, ds: seq<ArgD>, rest: seq<Tok>)
    requires s <= |b| && Toks(b, s) == ArgsToks(ds) + rest && Follows(rest) && |args| + |ds| < MAXARGS
    ensures var r := ArgsAt(b, args, rs, s);
            r.Ok? && r.value == Nest(Exec(args + Words(ds)), rs + ArgRedirs(ds)) && Toks(b, r.next) == rest
    decreases |ds|
  {
    hide Next, Skip, Peek, Toks, RedirsAt, Nest, Wrap;
    PeekSees(b, s, "|)&;");
    if ds == [] {
      assert ArgsToks(ds) + rest == rest && args + Words(ds) == args && rs + ArgRedirs(ds) == rs;
      ArgsStop(b, args, rs, s);
    } else {
      var d := ds[0];
      var ts := ArgsToks(ds[1..]) + rest;
      assert ds == [d] + ds[1..];
      ArgsSplit(d, ds[1..], rest, args, rs);
      ArgsNoRedir(ds[1..], rest);
      hide ArgsToks, RedirsToks, Words, ArgRedirs, RedirTrees;
      FirstTok(b, s, W(d.word), RedirsToks(d.redirs) + ts);
      var t := Next(b, s);
      RedirsParsed(b, rs, t.next, d.redirs, ts);
      var rr := RedirsAt(b, rs, t.next);
      ArgsParsed(b, args + [d.word], rr.value, rr.next, ds[1..], rest);
    }
  }

  lemma {:induction false} BacksParsed(b: Line, c: Cmd, s: nat, n: nat, rest: seq<Tok>)
    requires s <= |b| && Toks(b, s) == Amps(n) + rest && !Starts(rest, "&")
    ensures var r := BacksAt(b, c, s); r.value == Backs(c, n) && Toks(b, r.next) == rest
    decreases n
  {
    hide Next, Skip, Peek, Toks;
    PeekSees(b, s, "&");
    if n == 0 {
      assert Amps(n) + rest == rest;
      SkipToks(b, s);
    } else {
      assert Amps(n) + rest == [S('&')] + (Amps(n - 1) + rest);
      FirstTok(b, s, S('&'), Amps(n - 1) + rest);
      BacksParsed(b, Back(c), Next(b, s).next, n - 1, rest);
      BacksInside(c, n - 1);
    }
  }

  lemma {:induction false} BacksInside(c: Cmd, n: nat)
    ensures Backs(Back(c), n) == Back(Backs(c, n)) == Backs(c, n + 1)
  {
    if n > 0 {
      BacksInside(c, n - 1);
    }
  }

  lemma {:induction false} ExecParsed(b: Line, s: nat, d: ExecD, rest: seq<Tok>)
    requires s <= |b| && FitsExec(d) && Toks(b, s) == ExecToks(d) + rest && Follows(rest)
    ensures var r := ExecAt(b, s); r.Ok? && r.value == ExecTree(d) && Toks(b, r.next) == rest
    decreases d
  {
    hide Next, Skip, Peek, Toks, RedirsAt, ArgsAt, BlockAt, RedirsToks, ArgsToks, LineToks, Nest;
    PeekSees(b, s, "(");
    match d
    case Simple(rs, args) =>
      ArgsNoRedir(args, rest);
      SimpleStarts(rs, args, rest);
      SkipToks(b, s);
      assert ExecToks(d) + rest == RedirsToks(rs) + (ArgsToks(args) + rest);
      RedirsParsed(b, [], Skip(b, s), rs, ArgsToks(args) + rest);
      var rr := RedirsAt(b, [], Skip(b, s));
      ArgsParsed(b, [], rr.value, rr.next, args, rest);
      assert [] + Words(args) == Words(args) && [] + RedirTrees(rs) == RedirTrees(rs);
    case Block(l, rs) =>
      BlockParsed(b, s, l, rs, rest);
  }

  lemma SimpleStarts(rs: seq<RedirD>, args: seq<ArgD>, rest: seq<Tok>)
    requires Follows(rest)
    ensures !Starts(RedirsToks(rs) + ArgsToks(args) + rest, "(")
  {
    ArgsNoRedir(args, rest);
    hide ArgsToks;
  }

  lemma {:induction false} BlockParsed(b: Line, s: nat, l: LineD, rs: seq<RedirD>, rest: seq<Tok>)
    requires s <= |b| && FitsLine(l) && Toks(b, s) == [S('(')] + LineToks(l) + [S(')')] + RedirsToks(rs) + rest && Follows(rest)
    ensures Peek(b, s, "(")
    ensures var r := BlockAt(b, s); r.Ok? && r.value == Nest(LineTree(l), RedirTrees(rs)) && Toks(b, r.next) == rest
    decreases l, 1
  {
    hide Next, Skip, Peek, Toks, RedirsAt, LineAt, RedirsToks, LineToks, LineTree, FitsLine, Nest, Wrap;
    var ts := [S(')')] + (RedirsToks(rs) + rest);
    assert [S('(')] + LineToks(l) + [S(')')] + RedirsToks(rs) + rest == [S('(')] + (LineToks(l) + ts);
    PeekSees(b, s, "(");
    FirstTok(b, s, S('('), LineToks(l) + ts);
    LineParsed(b, Next(b, s).next, l, ts);
    var c := LineAt(b, Next(b, s).next);
    PeekSees(b, c.next, ")");
    FirstTok(b, c.next, S(')'), RedirsToks(rs) + rest);
    RedirsParsed(b, [], Next(b, c.next).next, rs, rest);
    WrapIsNest(c.value, RedirTrees(rs));
    assert [] + RedirTrees(rs) == RedirTrees(rs);
  }

  lemma {:induction false} PipeParsed(b: Line, s: nat, d: PipeD, rest: seq<Tok>)
    requires s <= |b| && FitsPipe(d) && Toks(b, s) == PipeToks(d) + rest && Follows(rest) && !Starts(rest, "|")
    ensures var r := PipeAt(b, s); r.Ok? && r.value == PipeTree(d) && Toks(b, r.next) == rest
    decreases d
  {
    hide Next, Skip, Peek, Toks, ExecAt, ExecToks, ExecTree;
    match d
    case One(e) =>
      ExecParsed(b, s, e, rest);
      var c := ExecAt(b, s);
      PeekSees(b, c.next, "|");
      SkipToks(b, c.next);
    case Bar(e, more) =>
      var ts := [S('|')] + (PipeToks(more) + rest);
      assert PipeToks(d) + rest == ExecToks(e) + ts;
      ExecParsed(b, s, e, ts);
      var c := ExecAt(b, s);
      PeekSees(b, c.next, "|");
      FirstTok(b, c.next, S('|'), PipeToks(more) + rest);
      PipeParsed(b, Next(b, c.next).next, more, rest);
  }

  /** What follows a pipe: some '&', then ';' and a line, or the end. */
  lemma AmpsFollow(n: nat, rest: seq<Tok>)
    requires Follows(rest) && !Starts(rest, "|")
    ensures Follows(Amps(n) + rest) && !Starts(Amps(n) + rest, "|")
  {
  }

  lemma {:induction false} LineParsed(b: Line, s: nat, d: LineD, rest: seq<Tok>)
    requires s <= |b| && FitsLine(d) && Toks(b, s) == LineToks(d) + rest && (rest == [] || Starts(rest, ")"))
    ensures var r := LineAt(b, s); r.Ok? && r.value == LineTree(d) && Toks(b, r.next) == rest
    decreases d, 0
  {
    hide Next, Skip, Peek, Toks, PipeAt, PipeToks, PipeTree, BacksAt;
    var after := if d.Last? then rest else [S(';')] + (LineToks(d.rest) + rest);
    assert LineToks(d) + rest == PipeToks(d.pipe) + (Amps(d.amps) + after);
    AmpsFollow(d.amps, after);
    PipeParsed(b, s, d.pipe, Amps(d.amps) + after);
    var p := PipeAt(b, s);
    BacksParsed(b, p.value, p.next, d.amps, after);
    var c := BacksAt(b, p.value, p.next);
    PeekSees(b, c.next, ";");
    if d.Last? {
      SkipToks(b, c.next);
    } else {
      FirstTok(b, c.next, S(';'), LineToks(d.rest) + rest);
      LineParsed(b, Next(b, c.next).next, d.rest, rest);
    }
  }

  // Whatever is parsed has a derivation

  lemma TakeWord(b: Line, s: nat)
    requires s <= |b| && Next(b, s).kind == Word
    ensures Toks(b, s) == [W(Span(Next(b, s).q, Next(b, s).eq))] + Toks(b, Next(b, s).next)
  {
    hide Skip;
  }

  lemma TakeSym(b: Line, s: nat, c: char)
    requires s <= |b| && Peek(b, s, [c]) && Symbol(c) && c != '>'
    ensures Next(b, s).kind == Sym(c) && Toks(b, s) == [S(c)] + Toks(b, Next(b, s).next)
  {
  }

  lemma TakeRedir(b: Line, s: nat)
    requires s <= |b| && Peek(b, s, "<>")
    ensures var t := Next(b, s);
            (t.kind == Sym('<') || t.kind == Sym('>') || t.kind == Append) && Toks(b, s) == [TokOf(t)] + Toks(b, t.next)
  {
  }

  lemma AtEnd(b: Line, s: nat)
    requires s <= |b| && Next(b, s).kind == End
    ensures Toks(b, s) == Toks(b, Next(b, s).next) == []
  {
  }

  lemma {:induction false} RedirsDerived(b: Line, rs: seq<Redirect>, s: nat) returns (ds: seq<RedirD>)
    requires s <= |b| && RedirsAt(b, rs, s).Ok?
    ensures var r := RedirsAt(b, rs, s); r.value == rs + RedirTrees(ds) && Toks(b, s) == RedirsToks(ds) + Toks(b, r.next)
    decreases |b| - s
  {
    hide Skip, Peek, Next, Toks;
    if !Peek(b, s, "<>") {
      SkipToks(b, s);
      return [];
    }
    var t := Next(b, s);
    TakeRedir(b, s);
    TakeWord(b, t.next);
    var f := Next(b, t.next);
    var w := Span(f.q, f.eq);
    var d := if t.kind == Sym('<') then In(w) else if t.kind == Append then OutMore(w) else Out(w);
    var more := RedirsDerived(b, rs + [RedirTree(d)], f.next);
    ds := [d] + more;
    RedirsSplit(d, more, Toks(b, RedirsAt(b, rs, s).next), rs);
    hide RedirsToks, RedirTrees;
  }

  lemma {:induction false} ArgsDerived(b: Line, args: seq<Span>, rs: seq<Redirect>, s: nat) returns (ds: seq<ArgD>)
    requires s <= |b| && ArgsAt(b, args, rs, s).Ok? && |args| < MAXARGS
    ensures var r := ArgsAt(b, args, rs, s);
            && |args| + |ds| < MAXARGS && Toks(b, s) == ArgsToks(ds) + Toks(b, r.next)
            && r.value == Nest(Exec(args + Words(ds)), rs + ArgRedirs(ds))
    decreases |b| - s
  {
    hide Skip, Peek, Next, Toks, RedirsAt, Nest, Wrap;
    var t := Next(b, s);
    if Peek(b, s, "|)&;") || t.kind == End {
      WrapIsNest(Exec(args), rs);
      SkipToks(b, s);
      if t.kind == End {
        AtEnd(b, s);
      }
      assert args + [] == args && rs + [] == rs;
      return [];
    }
    TakeWord(b, s);
    var w := Span(t.q, t.eq);
    var rds := RedirsDerived(b, rs, t.next);
    var rr := RedirsAt(b, rs, t.next);
    var more := ArgsDerived(b, args + [w], rr.value, rr.next);
    ds := [ArgD(w, rds)] + more;
    ArgsSplit(ArgD(w, rds), more, Toks(b, ArgsAt(b, args, rs, s).next), args, rs);
    hide ArgsToks, RedirsToks, Words, ArgRedirs, RedirTrees;
  }

  lemma AmpsMore(n: nat, rest: seq<Tok>)
    ensures [S('&')] + (Amps(n) + rest) == Amps(n + 1) + rest
  {
  }

  lemma AmpsNone(rest: seq<Tok>)
    ensures Amps(0) + rest == rest
  {
  }

  lemma {:induction false} BacksDerived(b: Line, c: Cmd, s: nat) returns (n: nat)
    requires s <= |b|
    ensures var r := BacksAt(b, c, s); r.value == Backs(c, n) && Toks(b, s) == Amps(n) + Toks(b, r.next)
    decreases |b| - s
  {
    hide Skip, Peek, Next, Toks, Amps;
    if !Peek(b, s, "&") {
      SkipToks(b, s);
      AmpsNone(Toks(b, s));
      return 0;
    }
    TakeSym(b, s, '&');
    n := BacksDerived(b, Back(c), Next(b, s).next);
    BacksInside(c, n);
    var rest := Toks(b, BacksAt(b, c, s).next);
    AmpsMore(n, rest);
    n := n + 1;
  }

  lemma {:induction false} ExecDerived(b: Line, s: nat) returns (d: ExecD)
    requires s <= |b| && ExecAt(b, s).Ok?
    ensures FitsExec(d)
    ensures var r := ExecAt(b, s); r.value == ExecTree(d) && Toks(b, s) == ExecToks(d) + Toks(b, r.next)
    decreases |b| - s, 1
  {
    hide Next, Skip, Peek, Toks, RedirsAt, ArgsAt, BlockAt, RedirsToks, ArgsToks, LineToks, Nest;
    if Peek(b, s, "(") {
      d := BlockDerived(b, s);
    } else {
      var rs := RedirsDerived(b, [], Skip(b, s));
      var rr := RedirsAt(b, [], Skip(b, s));
      var args := ArgsDerived(b, [], rr.value, rr.next);
      SkipToks(b, s);
      assert [] + Words(args) == Words(args) && [] + RedirTrees(rs) == RedirTrees(rs);
      d := Simple(rs, args);
      var rest := Toks(b, ArgsAt(b, [], rr.value, rr.next).next);
      assert RedirsToks(rs) + (ArgsToks(args) + rest) == ExecToks(d) + rest;
    }
  }

  lemma {:induction false} BlockDerived(b: Line, s: nat) returns (d: ExecD)
    requires s <= |b| && Peek(b, s, "(") && BlockAt(b, s).Ok?
    ensures FitsExec(d)
    ensures var r := BlockAt(b, s); r.value == ExecTree(d) && Toks(b, s) == ExecToks(d) + Toks(b, r.next)
    decreases |b| - s, 0
  {
    hide Skip, Peek, Next, Toks, RedirsAt, LineAt, LineToks, RedirsToks, Nest, Wrap;
    TakeSym(b, s, '(');
    var l := LineDerived(b, Next(b, s).next);
    var c := LineAt(b, Next(b, s).next);
    TakeSym(b, c.next, ')');
    var rs := RedirsDerived(b, [], Next(b, c.next).next);
    assert [] + RedirTrees(rs) == RedirTrees(rs);
    WrapIsNest(c.value, RedirTrees(rs));
    d := Block(l, rs);
    var rest := Toks(b, BlockAt(b, s).next);
    assert [S('(')] + (LineToks(l) + ([S(')')] + (RedirsToks(rs) + rest))) == ExecToks(d) + rest;
  }

  lemma {:induction false} PipeDerived(b: Line, s: nat) returns (d: PipeD)
    requires s <= |b| && PipeAt(b, s).Ok?
    ensures FitsPipe(d)
    ensures var r := PipeAt(b, s); r.value == PipeTree(d) && Toks(b, s) == PipeToks(d) + Toks(b, r.next)
    decreases |b| - s, 2
  {
    hide Skip, Peek, Next, Toks, ExecAt, ExecToks, ExecTree, FitsExec;
    var e := ExecDerived(b, s);
    var c := ExecAt(b, s);
    if !Peek(b, c.next, "|") {
      SkipToks(b, c.next);
      return One(e);
    }
    TakeSym(b, c.next, '|');
    var more := PipeDerived(b, Next(b, c.next).next);
    d := Bar(e, more);
    var rest := Toks(b, PipeAt(b, s).next);
    assert ExecToks(e) + ([S('|')] + (PipeToks(more) + rest)) == PipeToks(d) + rest;
  }

  lemma {:induction false} LineDerived(b: Line, s: nat) returns (d: LineD)
    requires s <= |b| && LineAt(b, s).Ok?
    ensures FitsLine(d)
    ensures var r := LineAt(b, s); r.value == LineTree(d) && Toks(b, s) == LineToks(d) + Toks(b, r.next)
    decreases |b| - s, 3
  {
    hide Skip, Peek, Next, Toks, PipeAt, PipeToks, PipeTree, BacksAt, FitsPipe;
    var p := PipeDerived(b, s);
    var pr := PipeAt(b, s);
    var n := BacksDerived(b, pr.value, pr.next);
    var c := BacksAt(b, pr.value, pr.next);
    var rest := Toks(b, LineAt(b, s).next);
    if !Peek(b, c.next, ";") {
      SkipToks(b, c.next);
      d := Last(p, n);
      assert PipeToks(p) + (Amps(n) + rest) == LineToks(d) + rest;
      return;
    }
    TakeSym(b, c.next, ';');
    var more := LineDerived(b, Next(b, c.next).next);
    d := Semi(p, n, more);
    assert PipeToks(p) + (Amps(n) + ([S(';')] + (LineToks(more) + rest))) == LineToks(d) + rest;
  }

  // The parser and the grammar

  ghost predicate Derives(b: Line, d: LineD) {
    FitsLine(d) && LineToks(d) == Toks(b, 0)
  }

  /** Sound: what parsecmd accepts, the grammar derives, and its tree is the one parsecmd builds. */
  lemma Sound(b: Line) returns (d: LineD)
    requires CommandOf(b).Ok?
    ensures Derives(b, d) && CommandOf(b).value == LineTree(d)
  {
    d := LineDerived(b, 0);
    var c := LineAt(b, 0);
    SkipToks(b, c.next);
    assert Toks(b, |b|) == [];
    assert LineToks(d) + [] == LineToks(d);
  }

  /** Complete: what the grammar derives, parsecmd accepts, with that tree. */
  lemma Complete(b: Line, d: LineD)
    requires Derives(b, d)
    ensures CommandOf(b) == Ok(LineTree(d), |b|)
  {
    assert LineToks(d) + [] == LineToks(d);
    LineParsed(b, 0, d, []);
    var c := LineAt(b, 0);
    assert Next(b, c.next).kind == End;
  }

  /** parsecmd accepts exactly the lines of the language, and each has one tree. */
  lemma ParserIsGrammar(b: Line)
    ensures CommandOf(b).Ok? <==> exists d: LineD :: Derives(b, d)
    ensures forall d: LineD :: Derives(b, d) ==> CommandOf(b) == Ok(LineTree(d), |b|)
  {
    forall d: LineD | Derives(b, d) ensures CommandOf(b) == Ok(LineTree(d), |b|) {
      Complete(b, d);
    }
    if CommandOf(b).Ok? {
      var d := Sound(b);
    }
  }

  /** '>>' appends nothing: the two lines have one tree, the file opened for writing from its start. */
  lemma AppendIsOut()
    ensures CommandOf("x>>y") == CommandOf("x> y") == Ok(Redir(Exec([Span(0, 1)]), Redirect(Span(3, 4), true)), 4)
  {
    OneRedir("x>>y", OutMore(Span(3, 4)));
    OneRedir("x> y", Out(Span(3, 4)));
  }

  lemma OneRedir(b: Line, r: RedirD)
    requires (b == "x>>y" && r == OutMore(Span(3, 4))) || (b == "x> y" && r == Out(Span(3, 4)))
    ensures CommandOf(b) == Ok(Redir(Exec([Span(0, 1)]), RedirTree(r)), 4)
  {
    hide CommandOf, Toks;
    var a := ArgD(Span(0, 1), [r]);
    var e := Simple([], [a]);
    var d := Last(One(e), 0);
    TwoTokens(b);
    RedirsSplit(r, [], [], []);
    ArgsSplit(a, [], [], [], []);
    assert [r] + [] == [r] && [a] + [] == [a];
    assert ExecToks(e) == ArgsToks([a]) && PipeToks(One(e)) == ExecToks(e) && LineToks(d) == PipeToks(One(e));
    Complete(b, d);
    assert Words([a]) == [Span(0, 1)] && RedirTrees([]) + ArgRedirs([a]) == [RedirTree(r)];
    assert LineTree(d) == PipeTree(One(e)) == ExecTree(e) == Nest(Exec([Span(0, 1)]), [RedirTree(r)]);
  }

  lemma TwoTokens(b: Line)
    requires b == "x>>y" || b == "x> y"
    ensures Toks(b, 0) == [W(Span(0, 1)), if b[2] == '>' then More else S('>'), W(Span(3, 4))]
  {
    assert Skip(b, 3) == 3 && Skip(b, 2) == (if b[2] == '>' then 2 else 3) && Skip(b, 1) == 1 && Skip(b, 0) == 0;
    assert WordEnd(b, 4) == 4 && WordEnd(b, 3) == 4 && WordEnd(b, 1) == 1 && WordEnd(b, 0) == 1;
    assert Next(b, 0) == Token(Word, 0, 1, 1) && Next(b, 3) == Token(Word, 3, 4, 4);
    assert Toks(b, 4) == [];
    assert Toks(b, 3) == [W(Span(3, 4))];
    assert Toks(b, 1) == [if b[2] == '>' then More else S('>'), W(Span(3, 4))];
  }
}
