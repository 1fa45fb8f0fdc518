/** Printing a command tree with every operand in parentheses, and reading it back. */
module ShellPrint {
  import opened ShLex
  import opened ShParse

  /** A command tree by its strings. */
  datatype Tree =
    | Command(args: seq<string>)
    | Redirected(sub: Tree, file: string, out: bool)
    | Piped(left: Tree, right: Tree)
    | Then(left: Tree, right: Tree)
    | Background(sub: Tree)

  function Cut(b: Line, w: Span): (r: string) {
    if w.q <= w.eq <= |b| then b[w.q..w.eq] else ""
  }

  function Cuts(b: Line, ws: seq<Span>): (r: seq<string>)
    ensures |r| == |ws|
  {
    if ws == [] then [] else Cuts(b, ws[..|ws| - 1]) + [Cut(b, ws[|ws| - 1])]
  }

  /** What a parsed command says, given the line its spans point into. */
  function Text(b: Line, c: Cmd): (t: Tree) {
    match c
    case Exec(args) => Command(Cuts(b, args))
    case Redir(sub, to) => Redirected(Text(b, sub), Cut(b, to.file), to.out)
    case Pipe(l, r) => Piped(Text(b, l), Text(b, r))
    case List(l, r) => Then(Text(b, l), Text(b, r))
    case Back(sub) => Background(Text(b, sub))
  }

  function Join(args: seq<string>): (r: string) {
    if args == [] then "" else if |args| == 1 then args[0] else args[0] + " " + Join(args[1..])
  }

  function Paren(t: Tree): (r: string)
    decreases t, 1
  {
    "(" + Print(t) + ")"
  }

  function Print(t: Tree): (r: string)
    decreases t, 0
  {
    match t
    case Command(args) => Join(args)
    case Redirected(sub, file, out) => Paren(sub) + (if out then ">" else "<") + file
    case Piped(l, r) => Paren(l) + "|" + Paren(r)
    case Then(l, r) => Paren(l) + ";" + Paren(r)
    case Background(sub) => Paren(sub) + "&"
  }

  predicate IsName(w: string) {
    w != "" && forall i :: 0 <= i < |w| ==> WordChar(w[i])
  }

  /** At most nine arguments to a command, and every string a word. */
  predicate Printable(t: Tree) {
    match t
    case Command(args) => |args| < MAXARGS && forall i :: 0 <= i < |args| ==> IsName(args[i])
    case Redirected(sub, file, out) => Printable(sub) && IsName(file)
    case Piped(l, r) => Printable(l) && Printable(r)
    case Then(l, r) => Printable(l) && Printable(r)
    case Background(sub) => Printable(sub)
  }

  predicate Occurs(b: Line, s: nat, p: string) {
    s + |p| <= |b| && b[s..s + |p|] == p
  }

  lemma OccursParts(b: Line, s: nat, p: string, q: string)
    requires Occurs(b, s, p + q)
    ensures Occurs(b, s, p) && Occurs(b, s + |p|, q)
  {
    var r := p + q;
    assert b[s..s + |p|] == r[..|p|] == p;
    assert b[s + |p|..s + |r|] == r[|p|..] == q;
  }

  /** Where a line inside parentheses, or the whole line, ends. */
  predicate Stop(b: Line, e: nat) {
    e == |b| || (e < |b| && b[e] == ')')
  }

  // Tokens of printed text

  lemma SymbolHere(b: Line, s: nat)
    requires s < |b| && Symbol(b[s]) && (s + 1 == |b| || !Ws(b[s + 1])) && !(b[s] == '>' && s + 1 < |b| && b[s + 1] == '>')
    ensures Next(b, s) == Token(Sym(b[s]), s, s + 1, s + 1) && Skip(b, s) == s
    ensures Peek(b, s, "|") <==> b[s] == '|'
    ensures Peek(b, s, "&") <==> b[s] == '&'
    ensures Peek(b, s, ";") <==> b[s] == ';'
    ensures Peek(b, s, "(") <==> b[s] == '('
    ensures Peek(b, s, ")") <==> b[s] == ')'
    ensures Peek(b, s, "<>") <==> b[s] == '<' || b[s] == '>'
  {
  }

  lemma StopHere(b: Line, e: nat)
    requires Stop(b, e)
    ensures Skip(b, e) == e && !Peek(b, e, "|") && !Peek(b, e, "&") && !Peek(b, e, ";") && !Peek(b, e, "(")
    ensures e == |b| ==> Next(b, e) == Token(End, e, e, e) && !Peek(b, e, "|)&;")
    ensures e < |b| ==> Peek(b, e, "|)&;")
  {
  }

  lemma {:induction false} WordEndsAt(b: Line, s: nat, e: nat)
    requires s <= e <= |b| && (forall i :: s <= i < e ==> WordChar(b[i])) && (e == |b| || !WordChar(b[e])) && (e < |b| ==> b[e] != '\0')
    ensures WordEnd(b, s) == e
    decreases e - s
  {
    if s < e {
      WordEndsAt(b, s + 1, e);
    }
  }

  lemma WordHere(b: Line, s: nat, w: string)
    requires Occurs(b, s, w) && IsName(w)
    requires s + |w| == |b| || (!WordChar(b[s + |w|]) && b[s + |w|] != '\0')
    ensures Next(b, s) == Token(Word, s, s + |w|, Skip(b, s + |w|)) && Cut(b, Span(s, s + |w|)) == w
    ensures s < |b| && !Ws(b[s]) && !Symbol(b[s])
    ensures Skip(b, s) == s && !Peek(b, s, "(") && !Peek(b, s, "|)&;")
  {
    forall i | s <= i < s + |w| ensures WordChar(b[i]) {
      assert b[s..s + |w|][i - s] == w[i - s];
    }
    WordEndsAt(b, s, s + |w|);
  }

  /** No redirection here. */
  lemma NoRedirs(b: Line, s: nat, rs: seq<Redirect>)
    requires s <= |b| && (s == |b| || (!Ws(b[s]) && b[s] != '<' && b[s] != '>'))
    ensures RedirsAt(b, rs, s) == Ok(rs, s)
  {
  }

  // Commands

  /** Printed arguments, from s up to the end of the line or a closing parenthesis, read back after `done`. */
  lemma {:induction false} ArgsReadBack(b: Line, s: nat, done: seq<Span>, args: seq<string>) returns (ws: seq<Span>)
    requires Occurs(b, s, Join(args)) && Stop(b, s + |Join(args)|) && |done| + |args| < MAXARGS
    requires forall i :: 0 <= i < |args| ==> IsName(args[i])
    ensures ArgsAt(b, done, [], s) == Ok(Exec(done + ws), s + |Join(args)|)
    ensures Cuts(b, ws) == args
    decreases |args|
  {
    hide Skip, WordEnd, Next, IsName, RedirsAt, ArgsAt, Peek, Ws, WordChar;
    if args == [] {
      ws := [];
      NoMoreArgs(b, done, s);
      assert done + ws == done;
    } else {
      var m := s + |args[0]|;
      FirstArg(b, s, args);
      WordHere(b, s, args[0]);
      var n := if |args| == 1 then m else m + 1;
      AfterArg(b, s, args);
      OneArg(b, done, s, m, n);
      ws := ArgsReadBack(b, n, done + [Span(s, m)], args[1..]);
      assert done + [Span(s, m)] + ws == done + ([Span(s, m)] + ws);
      CutsFront(b, Span(s, m), ws);
      assert [args[0]] + args[1..] == args;
      ws := [Span(s, m)] + ws;
    }
  }

  /** No redirection stands between arguments. */
  lemma {:induction false} AfterArg(b: Line, s: nat, args: seq<string>)
    requires args != [] && Occurs(b, s, Join(args)) && Stop(b, s + |Join(args)|)
    requires forall i :: 0 <= i < |args| ==> IsName(args[i])
    ensures var n := s + |args[0]| + if |args| == 1 then 0 else 1;
            n <= |b| && Occurs(b, n, Join(args[1..])) && n + |Join(args[1..])| == s + |Join(args)| && RedirsAt(b, [], n) == Ok([], n)
  {
    hide RedirsAt, IsName, WordEnd;
    FirstArg(b, s, args);
    var n := s + |args[0]| + if |args| == 1 then 0 else 1;
    if |args| > 1 {
      FirstArg(b, n, args[1..]);
      WordHere(b, n, args[1]);
    }
    NoRedirs(b, n, []);
  }

  /** The first argument is followed by a space and the rest, or by the stop. */
  lemma {:induction false} FirstArg(b: Line, s: nat, args: seq<string>)
    requires args != [] && Occurs(b, s, Join(args)) && Stop(b, s + |Join(args)|)
    requires forall i :: 0 <= i < |args| ==> IsName(args[i])
    ensures var m := s + |args[0]|;
            Occurs(b, s, args[0]) && (m == |b| || (!WordChar(b[m]) && b[m] != '\0'))
            && (|args| == 1 ==> m == s + |Join(args)| && Skip(b, m) == m)
            && (|args| > 1 ==> m < |b| && Occurs(b, m + 1, Join(args[1..])) && m + 1 + |Join(args[1..])| == s + |Join(args)| && Skip(b, m) == m + 1)
  {
    var m := s + |args[0]|;
    if |args| > 1 {
      OccursParts(b, s, args[0] + " ", Join(args[1..]));
      OccursParts(b, s, args[0], " ");
      assert b[m..m + 1] == " ";
      assert b[m] == ' ';
      JoinStarts(args[1..]);
      assert b[m + 1..m + 1 + |Join(args[1..])|][0] == Join(args[1..])[0];
      assert !Ws(b[m + 1]);
    }
  }

  lemma {:induction false} JoinStarts(args: seq<string>)
    requires args != [] && forall i :: 0 <= i < |args| ==> IsName(args[i])
    ensures Join(args) != "" && WordChar(Join(args)[0])
  {
    assert IsName(args[0]);
  }

  lemma {:induction false} CutsFront(b: Line, w: Span, ws: seq<Span>)
    ensures Cuts(b, [w] + ws) == [Cut(b, w)] + Cuts(b, ws)
    decreases |ws|
  {
    if ws == [] {
      assert [w] + ws == [w];
    } else {
      var front := ws[..|ws| - 1];
      CutsFront(b, w, front);
      assert ([w] + ws)[..|ws|] == [w] + front;
    }
  }

  // The grammar's rules, one step at a time

  lemma PipeEnds(b: Line, s: nat, e: nat, c: Cmd)
    requires s <= e <= |b| && ExecAt(b, s) == Ok(c, e) && Skip(b, e) == e && !Peek(b, e, "|")
    ensures PipeAt(b, s) == Ok(c, e)
  {
    hide ExecAt;
  }

  lemma PipeGoesOn(b: Line, s: nat, e1: nat, e: nat, c: Cmd, d: Cmd)
    requires s <= e1 < e <= |b| && ExecAt(b, s) == Ok(c, e1) && Peek(b, e1, "|") && Next(b, e1).next == e1 + 1 && PipeAt(b, e1 + 1) == Ok(d, e)
    ensures PipeAt(b, s) == Ok(Pipe(c, d), e)
  {
    hide ExecAt, Next, Peek;
  }

  lemma LineGoesOn(b: Line, s: nat, e1: nat, e: nat, c: Cmd, d: Cmd)
    requires s <= e1 < e <= |b| && PipeAt(b, s) == Ok(c, e1) && Skip(b, e1) == e1 && !Peek(b, e1, "&")
    requires Peek(b, e1, ";") && Next(b, e1).next == e1 + 1 && LineAt(b, e1 + 1) == Ok(d, e)
    ensures LineAt(b, s) == Ok(List(c, d), e)
  {
    hide PipeAt, Next, Peek, Skip;
  }

  lemma LineInBackground(b: Line, s: nat, e1: nat, c: Cmd)
    requires s <= e1 < |b| && PipeAt(b, s) == Ok(c, e1) && Peek(b, e1, "&") && Next(b, e1).next == e1 + 1
    requires Skip(b, e1 + 1) == e1 + 1 && !Peek(b, e1 + 1, "&") && !Peek(b, e1 + 1, ";")
    ensures LineAt(b, s) == Ok(Back(c), e1 + 1)
  {
    hide PipeAt, Next, Peek, Skip;
    assert BacksAt(b, Back(c), e1 + 1) == Ok(Back(c), e1 + 1);
  }

  function Wrapped(c: Cmd, r: Result<seq<Redirect>>): (q: Result<Cmd>) {
    if r.Panic? then Panic else Ok(Wrap(c, r.value), r.next)
  }

  lemma BlockIs(b: Line, s: nat, k: nat, c: Cmd)
    requires s < k < |b| && Peek(b, s, "(") && Next(b, s).next == s + 1 && LineAt(b, s + 1) == Ok(c, k)
    requires Peek(b, k, ")") && Next(b, k).next == k + 1
    ensures BlockAt(b, s) == Wrapped(c, RedirsAt(b, [], k + 1))
  {
    hide LineAt, Next, Peek, Skip, RedirsAt, Wrap;
  }

  lemma ExecIsBlock(b: Line, s: nat)
    requires s <= |b| && Peek(b, s, "(")
    ensures ExecAt(b, s) == BlockAt(b, s)
  {
    hide BlockAt;
  }

  lemma ExecIsArgs(b: Line, s: nat)
    requires s <= |b| && !Peek(b, s, "(") && Skip(b, s) == s && RedirsAt(b, [], s) == Ok([], s)
    ensures ExecAt(b, s) == ArgsAt(b, [], [], s)
  {
    hide Peek, RedirsAt, ArgsAt, Skip;
  }

  lemma OneRedirect(b: Line, s: nat, e: nat, out: bool)
    requires s + 1 < e <= |b| && Peek(b, s, "<>") && Next(b, s) == Token(Sym(if out then '>' else '<'), s, s + 1, s + 1)
    requires Next(b, s + 1) == Token(Word, s + 1, e, e) && RedirsAt(b, [Redirect(Span(s + 1, e), out)], e) == Ok([Redirect(Span(s + 1, e), out)], e)
    ensures RedirsAt(b, [], s) == Ok([Redirect(Span(s + 1, e), out)], e)
  {
    hide Next, Peek;
    assert [] + [Redirect(Span(s + 1, e), out)] == [Redirect(Span(s + 1, e), out)];
  }

  lemma OneArg(b: Line, done: seq<Span>, s: nat, m: nat, n: nat)
    requires s <= m <= n <= |b| && !Peek(b, s, "|)&;") && Next(b, s) == Token(Word, s, m, n) && |done| + 1 < MAXARGS
    requires RedirsAt(b, [], n) == Ok([], n)
    ensures ArgsAt(b, done, [], s) == ArgsAt(b, done + [Span(s, m)], [], n)
  {
    hide Next, Peek, RedirsAt;
  }

  lemma NoMoreArgs(b: Line, done: seq<Span>, s: nat)
    requires Stop(b, s)
    ensures ArgsAt(b, done, [], s) == Ok(Exec(done), s)
  {
    StopHere(b, s);
  }

  // Lines

  /** A stop ends a line: no operator follows. */
  lemma LineStops(b: Line, s: nat, e: nat, c: Cmd)
    requires s <= e <= |b| && Stop(b, e) && PipeAt(b, s) == Ok(c, e)
    ensures LineAt(b, s) == Ok(c, e)
  {
    hide PipeAt;
    StopHere(b, e);
  }

  /** A command that starts with a word or is empty is not a block. */
  lemma {:induction false} CommandReadsBack(b: Line, s: nat, args: seq<string>) returns (c: Cmd)
    requires Printable(Command(args)) && Occurs(b, s, Join(args)) && Stop(b, s + |Join(args)|)
    ensures LineAt(b, s) == Ok(c, s + |Join(args)|) && Text(b, c) == Command(args)
  {
    hide Next, ArgsAt, RedirsAt, IsName, WordEnd, ExecAt, PipeAt, LineAt, Skip, Peek;
    var e := s + |Join(args)|;
    if args != [] {
      FirstArg(b, s, args);
      WordHere(b, s, args[0]);
    }
    if args == [] {
      StopHere(b, s);
    }
    NoRedirs(b, s, []);
    ExecIsArgs(b, s);
    var ws := ArgsReadBack(b, s, [], args);
    assert [] + ws == ws;
    c := Exec(ws);
    StopHere(b, e);
    PipeEnds(b, s, e, c);
    LineStops(b, s, e, c);
  }

  /** Text after a closing parenthesis is never white space. */
  predicate Follows(b: Line, e: nat) {
    e <= |b| && (e < |b| ==> !Ws(b[e]))
  }

  /** "(" line ")" up to the redirections. */
  lemma {:induction false} InnerReadsBack(b: Line, s: nat, t: Tree) returns (c: Cmd)
    requires Printable(t) && Occurs(b, s, Paren(t)) && Follows(b, s + |Paren(t)|)
    ensures Peek(b, s, "(") && Text(b, c) == t
    ensures BlockAt(b, s) == Wrapped(c, RedirsAt(b, [], s + |Paren(t)|))
    decreases t, 1
  {
    hide Skip, RedirsAt, Wrap, Printable, LineAt, BlockAt, Next, Peek, Print;
    var k := s + 1 + |Print(t)|;
    OccursParts(b, s, "(" + Print(t), ")");
    OccursParts(b, s, "(", Print(t));
    assert b[s..s + 1] == "(" && b[k..k + 1] == ")";
    assert b[s] == '(' && b[k] == ')';
    PrintStarts(b, s + 1, t);
    SymbolHere(b, s);
    SymbolHere(b, k);
    c := LineReadsBack(b, s + 1, t);
    BlockIs(b, s, k, c);
  }

  /** Printed text never starts with white space. */
  lemma {:induction false} PrintStarts(b: Line, s: nat, t: Tree)
    requires Printable(t) && Occurs(b, s, Print(t)) && s + |Print(t)| < |b| && b[s + |Print(t)|] == ')'
    ensures !Ws(b[s])
  {
    if t.Command? {
      if t.args != [] {
        JoinStarts(t.args);
        assert b[s..s + |Print(t)|][0] == Print(t)[0];
      }
    } else {
      assert Print(t)[0] == '(';
      assert b[s..s + |Print(t)|][0] == '(';
    }
  }

  /** A parenthesised operand with no redirection after it. */
  lemma {:induction false} OperandReadsBack(b: Line, s: nat, t: Tree) returns (c: Cmd)
    requires Printable(t) && Occurs(b, s, Paren(t)) && Follows(b, s + |Paren(t)|)
    requires s + |Paren(t)| < |b| ==> b[s + |Paren(t)|] != '<' && b[s + |Paren(t)|] != '>'
    ensures ExecAt(b, s) == Ok(c, s + |Paren(t)|) && Text(b, c) == t
    decreases t, 2
  {
    hide Skip, BlockAt, ExecAt, Printable, Peek, Paren;
    c := InnerReadsBack(b, s, t);
    NoRedirs(b, s + |Paren(t)|, []);
    ExecIsBlock(b, s);
  }

  /** Reading the printed tree gives the tree back. */
  lemma {:induction false} LineReadsBack(b: Line, s: nat, t: Tree) returns (c: Cmd)
    requires Printable(t) && Occurs(b, s, Print(t)) && Stop(b, s + |Print(t)|)
    ensures LineAt(b, s) == Ok(c, s + |Print(t)|) && Text(b, c) == t
    decreases t, 0
  {
    match t
    case Command(args) => c := CommandReadsBack(b, s, args);
    case Redirected(sub, file, out) => c := RedirectedReadsBack(b, s, sub, file, out);
    case Piped(l, r) => c := PipedReadsBack(b, s, l, r);
    case Then(l, r) => c := ThenReadsBack(b, s, l, r);
    case Background(sub) => c := BackgroundReadsBack(b, s, sub);
  }

  /** Where the parts of a printed two-operand command stand. */
  lemma {:induction false} OperandsAt(b: Line, s: nat, l: Tree, op: char, r: Tree)
    requires Occurs(b, s, Paren(l) + [op] + Paren(r)) && !Ws(op)
    ensures var e1 := s + |Paren(l)|;
            e1 + 1 < |b| && b[e1] == op && b[e1 + 1] == '(' && Occurs(b, s, Paren(l)) && Occurs(b, e1 + 1, Paren(r))
            && Follows(b, e1) && e1 + 1 + |Paren(r)| == s + |Paren(l) + [op] + Paren(r)| <= |b|
  {
    hide Paren;
    var e1 := s + |Paren(l)|;
    OccursParts(b, s, Paren(l) + [op], Paren(r));
    OccursParts(b, s, Paren(l), [op]);
    assert b[e1..e1 + 1] == [op];
    assert b[e1] == op;
    ParenStarts(b, e1 + 1, r);
  }

  lemma {:induction false} PipedReadsBack(b: Line, s: nat, l: Tree, r: Tree) returns (c: Cmd)
    requires Printable(l) && Printable(r) && Occurs(b, s, Print(Piped(l, r))) && Stop(b, s + |Print(Piped(l, r))|)
    ensures LineAt(b, s) == Ok(c, s + |Print(Piped(l, r))|) && Text(b, c) == Piped(l, r)
    decreases Piped(l, r), 0, 0
  {
    hide Skip, ExecAt, PipeAt, LineAt, Printable, Print, Paren, Next, Peek, Occurs;
    var e1, e := s + |Paren(l)|, s + |Print(Piped(l, r))|;
    PrintOf(Piped(l, r));
    OperandsAt(b, s, l, '|', r);
    var c1 := OperandReadsBack(b, s, l);
    var c2 := OperandReadsBack(b, e1 + 1, r);
    SymbolHere(b, e1);
    StopHere(b, e);
    PipeEnds(b, e1 + 1, e, c2);
    PipeGoesOn(b, s, e1, e, c1, c2);
    c := Pipe(c1, c2);
    LineStops(b, s, e, c);
  }

  lemma {:induction false} PrintOf(t: Tree)
    ensures t.Redirected? ==> Print(t) == Paren(t.sub) + [if t.out then '>' else '<'] + t.file
    ensures t.Piped? ==> Print(t) == Paren(t.left) + ['|'] + Paren(t.right)
    ensures t.Then? ==> Print(t) == Paren(t.left) + [';'] + Paren(t.right)
    ensures t.Background? ==> Print(t) == Paren(t.sub) + "&"
  {
  }

  lemma {:induction false} ParenStarts(b: Line, s: nat, t: Tree)
    requires Occurs(b, s, Paren(t))
    ensures s < |b| && b[s] == '('
  {
    assert b[s..s + |Paren(t)|][0] == Paren(t)[0];
  }

  lemma {:induction false} ThenReadsBack(b: Line, s: nat, l: Tree, r: Tree) returns (c: Cmd)
    requires Printable(l) && Printable(r) && Occurs(b, s, Print(Then(l, r))) && Stop(b, s + |Print(Then(l, r))|)
    ensures LineAt(b, s) == Ok(c, s + |Print(Then(l, r))|) && Text(b, c) == Then(l, r)
    decreases Then(l, r), 0, 0
  {
    hide Skip, ExecAt, PipeAt, LineAt, Printable, Print, Paren, Next, Peek, Occurs;
    var e1, e := s + |Paren(l)|, s + |Print(Then(l, r))|;
    PrintOf(Then(l, r));
    OperandsAt(b, s, l, ';', r);
    var c1 := OperandReadsBack(b, s, l);
    var c2 := OperandReadsBack(b, e1 + 1, r);
    SymbolHere(b, e1);
    StopHere(b, e);
    PipeEnds(b, s, e1, c1);
    PipeEnds(b, e1 + 1, e, c2);
    LineStops(b, e1 + 1, e, c2);
    LineGoesOn(b, s, e1, e, c1, c2);
    c := List(c1, c2);
  }

  lemma {:induction false} BackgroundReadsBack(b: Line, s: nat, sub: Tree) returns (c: Cmd)
    requires Printable(sub) && Occurs(b, s, Print(Background(sub))) && Stop(b, s + |Print(Background(sub))|)
    ensures LineAt(b, s) == Ok(c, s + |Print(Background(sub))|) && Text(b, c) == Background(sub)
    decreases Background(sub), 0, 0
  {
    hide Skip, ExecAt, PipeAt, LineAt, Printable, Print, Paren, Next, Peek;
    var e1, e := s + |Paren(sub)|, s + |Print(Background(sub))|;
    assert Print(Background(sub)) == Paren(sub) + "&" by { PrintOf(Background(sub)); }
    OccursParts(b, s, Paren(sub), "&");
    assert b[e1..e1 + 1] == "&";
    assert b[e1] == '&';
    var c1 := OperandReadsBack(b, s, sub);
    SymbolHere(b, e1);
    StopHere(b, e);
    PipeEnds(b, s, e1, c1);
    LineInBackground(b, s, e1, c1);
    c := Back(c1);
  }

  /** Where the parts of a printed redirection stand. */
  lemma {:induction false} FileAt(b: Line, s: nat, sub: Tree, sign: char, file: string)
    requires Occurs(b, s, Paren(sub) + [sign] + file) && IsName(file) && !Ws(sign)
    ensures var e1 := s + |Paren(sub)|;
            e1 + 1 < |b| && b[e1] == sign && !Ws(b[e1 + 1]) && !Symbol(b[e1 + 1]) && Occurs(b, s, Paren(sub)) && Occurs(b, e1 + 1, file)
            && Follows(b, e1) && e1 + 1 + |file| == s + |Paren(sub) + [sign] + file| <= |b|
  {
    hide Paren;
    var e1 := s + |Paren(sub)|;
    OccursParts(b, s, Paren(sub) + [sign], file);
    OccursParts(b, s, Paren(sub), [sign]);
    assert b[e1..e1 + 1] == [sign];
    assert b[e1] == sign;
    assert b[e1 + 1..e1 + 1 + |file|][0] == file[0];
  }

  lemma {:induction false} RedirectedReadsBack(b: Line, s: nat, sub: Tree, file: string, out: bool) returns (c: Cmd)
    requires Printable(sub) && IsName(file) && Occurs(b, s, Print(Redirected(sub, file, out))) && Stop(b, s + |Print(Redirected(sub, file, out))|)
    ensures LineAt(b, s) == Ok(c, s + |Print(Redirected(sub, file, out))|) && Text(b, c) == Redirected(sub, file, out)
    decreases Redirected(sub, file, out), 0, 0
  {
    hide Skip, Printable, Print, Paren, BlockAt, ExecAt, PipeAt, LineAt, RedirsAt, Next, IsName, Peek, Occurs;
    var e1, e := s + |Paren(sub)|, s + |Print(Redirected(sub, file, out))|;
    PrintOf(Redirected(sub, file, out));
    FileAt(b, s, sub, if out then '>' else '<', file);
    var rs := RedirectReadsBack(b, e1, e, file, out);
    var c1 := InnerReadsBack(b, s, sub);
    c := Redir(c1, rs);
    assert Wrap(c1, [rs]) == c by { assert [rs][..0] == []; }
    ExecIsBlock(b, s);
    StopHere(b, e);
    PipeEnds(b, s, e, c);
    LineStops(b, s, e, c);
  }

  lemma RedirectReadsBack(b: Line, e1: nat, e: nat, file: string, out: bool) returns (w: Redirect)
    requires e1 + 1 < |b| && b[e1] == (if out then '>' else '<') && !Ws(b[e1 + 1]) && !Symbol(b[e1 + 1])
    requires Occurs(b, e1 + 1, file) && IsName(file) && e == e1 + 1 + |file| && Stop(b, e)
    ensures RedirsAt(b, [], e1) == Ok([w], e) && Cut(b, w.file) == file && w.out == out
  {
    hide Skip, RedirsAt, Next, Peek;
    StopHere(b, e);
    WordHere(b, e1 + 1, file);
    SymbolHere(b, e1);
    w := Redirect(Span(e1 + 1, e), out);
    NoRedirs(b, e, [w]);
    OneRedirect(b, e1, e, out);
  }

  /** For every printable tree, parsing its printed form succeeds and gives the tree back. */
  lemma {:induction false} ParsePrint(t: Tree) returns (c: Cmd)
    requires Printable(t)
    ensures CommandOf(Print(t)) == Ok(c, |Print(t)|) && Text(Print(t), c) == t
  {
    hide LineAt, Print, Printable;
    var b := Print(t);
    assert b[0..0 + |b|] == b;
    c := LineReadsBack(b, 0, t);
  }
}
