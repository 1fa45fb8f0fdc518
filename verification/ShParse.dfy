/** The grammar (src/sh.c:328-447). */
module ShParse {
  import opened ShLex

  const MAXARGS: nat := 10

  /** A redirection; out is open for writing on descriptor 1, otherwise for reading on descriptor 0. */
  datatype Redirect = Redirect(file: Span, out: bool)

  datatype Cmd =
    | Exec(args: seq<Span>)
    | Redir(sub: Cmd, to: Redirect)
    | Pipe(left: Cmd, right: Cmd)
    | List(left: Cmd, right: Cmd)
    | Back(sub: Cmd)

  datatype Result<T> = Ok(value: T, next: nat) | Panic

  /** The command wrapped in redirections, the last one outermost. */
  function Wrap(c: Cmd, rs: seq<Redirect>): (r: Cmd) {
    if rs == [] then c else Redir(Wrap(c, rs[..|rs| - 1]), rs[|rs| - 1])
  }

  /** parseredirs, after the redirections rs. */
  function RedirsAt(b: Line, rs: seq<Redirect>, s: nat): (r: Result<seq<Redirect>>)
    requires s <= |b|
    ensures r.Ok? ==> s <= r.next <= |b|
    decreases |b| - s
  {
    if !Peek(b, s, "<>") then Ok(rs, Skip(b, s))
    else
      var t := Next(b, s);
      var f := Next(b, t.next);
      if f.kind != Word then Panic
      else RedirsAt(b, rs + [Redirect(Span(f.q, f.eq), t.kind != Sym('<'))], f.next)
  }

  /** parseexec's loop, after args and rs. */
  function ArgsAt(b: Line, args: seq<Span>, rs: seq<Redirect>, s: nat): (r: Result<Cmd>)
    requires s <= |b|
    ensures r.Ok? ==> s <= r.next <= |b|
    decreases |b| - s
  {
    if Peek(b, s, "|)&;") then Ok(Wrap(Exec(args), rs), Skip(b, s))
    else
      var t := Next(b, s);
      if t.kind == End then Ok(Wrap(Exec(args), rs), t.next)
      else if t.kind != Word || |args| + 1 >= MAXARGS then Panic
      else
        var rr := RedirsAt(b, rs, t.next);
        if rr.Panic? then Panic else ArgsAt(b, args + [Span(t.q, t.eq)], rr.value, rr.next)
  }

  /** The loop of parseline over '&'. */
  function BacksAt(b: Line, c: Cmd, s: nat): (r: Result<Cmd>)
    requires s <= |b|
    ensures r.Ok? && s <= r.next <= |b|
    decreases |b| - s
  {
    if Peek(b, s, "&") then BacksAt(b, Back(c), Next(b, s).next) else Ok(c, Skip(b, s))
  }

  function ExecAt(b: Line, s: nat): (r: Result<Cmd>)
    requires s <= |b|
    ensures r.Ok? ==> s <= r.next <= |b|
    decreases |b| - s, 1
  {
    if Peek(b, s, "(") then BlockAt(b, s)
    else
      var rr := RedirsAt(b, [], Skip(b, s));
      if rr.Panic? then Panic else ArgsAt(b, [], rr.value, rr.next)
  }

  function BlockAt(b: Line, s: nat): (r: Result<Cmd>)
    requires s <= |b| && Peek(b, s, "(")
    ensures r.Ok? ==> s <= r.next <= |b|
    decreases |b| - s, 0
  {
    var c := LineAt(b, Next(b, s).next);
    if c.Panic? || !Peek(b, c.next, ")") then Panic
    else
      var rr := RedirsAt(b, [], Next(b, c.next).next);
      if rr.Panic? then Panic else Ok(Wrap(c.value, rr.value), rr.next)
  }

  function PipeAt(b: Line, s: nat): (r: Result<Cmd>)
    requires s <= |b|
    ensures r.Ok? ==> s <= r.next <= |b|
    decreases |b| - s, 2
  {
    var c := ExecAt(b, s);
    if c.Panic? then Panic
    else if !Peek(b, c.next, "|") then Ok(c.value, Skip(b, c.next))
    else
      var d := PipeAt(b, Next(b, c.next).next);
      if d.Panic? then Panic else Ok(Pipe(c.value, d.value), d.next)
  }

  /** parseline. */
  function LineAt(b: Line, s: nat): (r: Result<Cmd>)
    requires s <= |b|
    ensures r.Ok? ==> s <= r.next <= |b|
    decreases |b| - s, 3
  {
    var p := PipeAt(b, s);
    if p.Panic? then Panic
    else
      var c := BacksAt(b, p.value, p.next);
      if !Peek(b, c.next, ";") then Ok(c.value, Skip(b, c.next))
      else
        var d := LineAt(b, Next(b, c.next).next);
        if d.Panic? then Panic else Ok(List(c.value, d.value), d.next)
  }

  /** parsecmd: the whole line, or a panic about what is left over. */
  function CommandOf(b: Line): (r: Result<Cmd>)
    ensures r.Ok? ==> r.next == |b|
  {
    var c := LineAt(b, 0);
    if c.Panic? || Skip(b, c.next) != |b| then Panic else Ok(c.value, |b|)
  }

  // Every string in the tree is a word of the line

  ghost predicate RedirectWords(b: Line, rs: seq<Redirect>) {
    forall i :: 0 <= i < |rs| ==> IsWord(b, rs[i].file)
  }

  ghost predicate CmdWords(b: Line, c: Cmd) {
    match c
    case Exec(args) => forall i :: 0 <= i < |args| ==> IsWord(b, args[i])
    case Redir(sub, to) => CmdWords(b, sub) && IsWord(b, to.file)
    case Pipe(l, r) => CmdWords(b, l) && CmdWords(b, r)
    case List(l, r) => CmdWords(b, l) && CmdWords(b, r)
    case Back(sub) => CmdWords(b, sub)
  }

  lemma {:induction false} WrapWords(b: Line, c: Cmd, rs: seq<Redirect>)
    requires CmdWords(b, c) && RedirectWords(b, rs)
    ensures CmdWords(b, Wrap(c, rs))
    decreases |rs|
  {
    if rs != [] {
      WrapWords(b, c, rs[..|rs| - 1]);
    }
  }

  lemma {:induction false} RedirsWords(b: Line, rs: seq<Redirect>, s: nat)
    requires NoNul(b) && s <= |b| && RedirectWords(b, rs)
    ensures var r := RedirsAt(b, rs, s); r.Ok? ==> RedirectWords(b, r.value)
    decreases |b| - s
  {
    hide IsWord, Skip;
    if Peek(b, s, "<>") {
      var t := Next(b, s);
      var f := Next(b, t.next);
      if f.kind == Word {
        WordTokens(b, t.next);
        RedirsWords(b, rs + [Redirect(Span(f.q, f.eq), t.kind != Sym('<'))], f.next);
      }
    }
  }

  lemma {:induction false} ArgsWords(b: Line, args: seq<Span>, rs: seq<Redirect>, s: nat)
    requires NoNul(b) && s <= |b| && RedirectWords(b, rs) && (forall i :: 0 <= i < |args| ==> IsWord(b, args[i]))
    ensures var r := ArgsAt(b, args, rs, s); r.Ok? ==> CmdWords(b, r.value)
    decreases |b| - s
  {
    hide IsWord, Skip;
    var t := Next(b, s);
    if Peek(b, s, "|)&;") || t.kind == End {
      WrapWords(b, Exec(args), rs);
    } else if t.kind == Word && |args| + 1 < MAXARGS {
      WordTokens(b, s);
      RedirsWords(b, rs, t.next);
      var rr := RedirsAt(b, rs, t.next);
      if rr.Ok? {
        ArgsWords(b, args + [Span(t.q, t.eq)], rr.value, rr.next);
      }
    }
  }

  lemma {:induction false} BacksWords(b: Line, c: Cmd, s: nat)
    requires s <= |b| && CmdWords(b, c)
    ensures CmdWords(b, BacksAt(b, c, s).value)
    decreases |b| - s
  {
    if Peek(b, s, "&") {
      BacksWords(b, Back(c), Next(b, s).next);
    }
  }

  lemma {:induction false} ExecWords(b: Line, s: nat)
    requires NoNul(b) && s <= |b|
    ensures var r := ExecAt(b, s); r.Ok? ==> CmdWords(b, r.value)
    decreases |b| - s, 1
  {
    if Peek(b, s, "(") {
      BlockWords(b, s);
    } else {
      RedirsWords(b, [], Skip(b, s));
      var rr := RedirsAt(b, [], Skip(b, s));
      if rr.Ok? {
        ArgsWords(b, [], rr.value, rr.next);
      }
    }
  }

  lemma {:induction false} BlockWords(b: Line, s: nat)
    requires NoNul(b) && s <= |b| && Peek(b, s, "(")
    ensures var r := BlockAt(b, s); r.Ok? ==> CmdWords(b, r.value)
    decreases |b| - s, 0
  {
    LineWords(b, Next(b, s).next);
    var c := LineAt(b, Next(b, s).next);
    if c.Ok? && Peek(b, c.next, ")") {
      RedirsWords(b, [], Next(b, c.next).next);
      var rr := RedirsAt(b, [], Next(b, c.next).next);
      if rr.Ok? {
        WrapWords(b, c.value, rr.value);
      }
    }
  }

  lemma {:induction false} PipeWords(b: Line, s: nat)
    requires NoNul(b) && s <= |b|
    ensures var r := PipeAt(b, s); r.Ok? ==> CmdWords(b, r.value)
    decreases |b| - s, 2
  {
    ExecWords(b, s);
    var c := ExecAt(b, s);
    if c.Ok? && Peek(b, c.next, "|") {
      PipeWords(b, Next(b, c.next).next);
    }
  }

  /** Whatever the line, the strings of the tree it parses to are words of it. */
  lemma {:induction false} LineWords(b: Line, s: nat)
    requires NoNul(b) && s <= |b|
    ensures var r := LineAt(b, s); r.Ok? ==> CmdWords(b, r.value)
    decreases |b| - s, 3
  {
    PipeWords(b, s);
    var p := PipeAt(b, s);
    if p.Ok? {
      BacksWords(b, p.value, p.next);
      var c := BacksAt(b, p.value, p.next);
      if Peek(b, c.next, ";") {
        LineWords(b, Next(b, c.next).next);
      }
    }
  }

  // No word of the line is lost

  predicate Spans(w: Span, i: int) {
    w.q <= i < w.eq
  }

  ghost predicate InArgs(args: seq<Span>, i: int) {
    exists k :: 0 <= k < |args| && Spans(args[k], i)
  }

  ghost predicate InRedirects(rs: seq<Redirect>, i: int) {
    exists k :: 0 <= k < |rs| && Spans(rs[k].file, i)
  }

  /** Position i of the line lies in a string of the tree. */
  ghost predicate InTree(c: Cmd, i: int) {
    match c
    case Exec(args) => InArgs(args, i)
    case Redir(sub, to) => InTree(sub, i) || Spans(to.file, i)
    case Pipe(l, r) => InTree(l, i) || InTree(r, i)
    case List(l, r) => InTree(l, i) || InTree(r, i)
    case Back(sub) => InTree(sub, i)
  }

  lemma {:induction false} WrapHolds(c: Cmd, rs: seq<Redirect>, i: int)
    ensures InTree(Wrap(c, rs), i) <==> InTree(c, i) || InRedirects(rs, i)
    decreases |rs|
  {
    if rs != [] {
      var front := rs[..|rs| - 1];
      WrapHolds(c, front, i);
      if InRedirects(rs, i) && !Spans(rs[|rs| - 1].file, i) {
        var k :| 0 <= k < |rs| && Spans(rs[k].file, i);
        assert Spans(front[k].file, i);
      }
      if InRedirects(front, i) {
        var k :| 0 <= k < |front| && Spans(front[k].file, i);
        assert Spans(rs[k].file, i);
      }
    }
  }

  /** The only word characters gettoken passes over are those of the word it returns; peek passes over none. */
  lemma TokenChars(b: Line, s: nat, i: nat)
    requires s <= |b| && s <= i < |b| && WordChar(b[i])
    ensures i < Next(b, s).next ==> Next(b, s).kind == Word && Next(b, s).q <= i < Next(b, s).eq
    ensures Skip(b, s) <= i
  {
  }

  lemma {:induction false} RedirsHold(b: Line, rs: seq<Redirect>, s: nat, i: nat)
    requires s <= |b| && RedirsAt(b, rs, s).Ok? && i < |b| && WordChar(b[i])
    ensures InRedirects(rs, i) || s <= i < RedirsAt(b, rs, s).next ==> InRedirects(RedirsAt(b, rs, s).value, i)
    decreases |b| - s
  {
    hide Next, Skip;
    if Peek(b, s, "<>") {
      SymbolTaken(b, s, "<>");
      var t := Next(b, s);
      var f := Next(b, t.next);
      var rs1 := rs + [Redirect(Span(f.q, f.eq), t.kind != Sym('<'))];
      RedirsHold(b, rs1, f.next, i);
      if InRedirects(rs, i) {
        var k :| 0 <= k < |rs| && Spans(rs[k].file, i);
        assert Spans(rs1[k].file, i);
      } else if s <= i < f.next {
        TokenChars(b, s, i);
        if t.next <= i {
          TokenChars(b, t.next, i);
        }
        assert Spans(rs1[|rs|].file, i);
      }
    } else if s <= i {
      TokenChars(b, s, i);
    }
  }

  /** What peek saw as a symbol gettoken does not return as a word. */
  lemma SymbolTaken(b: Line, s: nat, toks: string)
    requires s <= |b| && Peek(b, s, toks) && forall c :: c in toks ==> Symbol(c)
    ensures Next(b, s).kind != Word && Next(b, s).kind != End
  {
  }

  lemma {:induction false} ArgsHold(b: Line, args: seq<Span>, rs: seq<Redirect>, s: nat, i: nat)
    requires s <= |b| && ArgsAt(b, args, rs, s).Ok? && i < |b| && WordChar(b[i])
    ensures InArgs(args, i) || InRedirects(rs, i) || s <= i < ArgsAt(b, args, rs, s).next ==> InTree(ArgsAt(b, args, rs, s).value, i)
    decreases |b| - s
  {
    hide Next, Skip;
    var t := Next(b, s);
    if s <= i {
      TokenChars(b, s, i);
    }
    if Peek(b, s, "|)&;") || t.kind == End {
      WrapHolds(Exec(args), rs, i);
    } else {
      RedirsHold(b, rs, t.next, i);
      var rr := RedirsAt(b, rs, t.next);
      var args1 := args + [Span(t.q, t.eq)];
      ArgsHold(b, args1, rr.value, rr.next, i);
      if InArgs(args, i) {
        var k :| 0 <= k < |args| && Spans(args[k], i);
        assert Spans(args1[k], i);
      } else if s <= i < t.next {
        assert Spans(args1[|args|], i);
      }
    }
  }

  lemma {:induction false} BacksHold(b: Line, c: Cmd, s: nat, i: nat)
    requires s <= |b| && i < |b| && WordChar(b[i])
    ensures InTree(c, i) ==> InTree(BacksAt(b, c, s).value, i)
    ensures !(s <= i < BacksAt(b, c, s).next)
    decreases |b| - s
  {
    hide Next, Skip;
    if s <= i {
      TokenChars(b, s, i);
    }
    if Peek(b, s, "&") {
      SymbolTaken(b, s, "&");
      BacksHold(b, Back(c), Next(b, s).next, i);
    }
  }

  lemma {:induction false} ExecHolds(b: Line, s: nat, i: nat)
    requires s <= i < |b| && WordChar(b[i]) && ExecAt(b, s).Ok? && i < ExecAt(b, s).next
    ensures InTree(ExecAt(b, s).value, i)
    decreases |b| - s, 1
  {
    if Peek(b, s, "(") {
      BlockHolds(b, s, i);
    } else {
      hide Next, Skip;
      TokenChars(b, s, i);
      RedirsHold(b, [], Skip(b, s), i);
      var rr := RedirsAt(b, [], Skip(b, s));
      ArgsHold(b, [], rr.value, rr.next, i);
    }
  }

  lemma {:induction false} BlockHolds(b: Line, s: nat, i: nat)
    requires s <= i < |b| && WordChar(b[i]) && Peek(b, s, "(") && BlockAt(b, s).Ok? && i < BlockAt(b, s).next
    ensures InTree(BlockAt(b, s).value, i)
    decreases |b| - s, 0
  {
    hide Next, Skip;
    TokenChars(b, s, i);
    SymbolTaken(b, s, "(");
    var c := LineAt(b, Next(b, s).next);
    SymbolTaken(b, c.next, ")");
    var e := Next(b, c.next).next;
    RedirsHold(b, [], e, i);
    WrapHolds(c.value, RedirsAt(b, [], e).value, i);
    if i < c.next {
      LineHolds(b, Next(b, s).next, i);
    } else {
      TokenChars(b, c.next, i);
    }
  }

  lemma {:induction false} PipeHolds(b: Line, s: nat, i: nat)
    requires s <= i < |b| && WordChar(b[i]) && PipeAt(b, s).Ok? && i < PipeAt(b, s).next
    ensures InTree(PipeAt(b, s).value, i)
    decreases |b| - s, 2
  {
    hide Next, Skip;
    var c := ExecAt(b, s);
    if i < c.next {
      ExecHolds(b, s, i);
    } else {
      TokenChars(b, c.next, i);
    }
    if Peek(b, c.next, "|") {
      SymbolTaken(b, c.next, "|");
      if Next(b, c.next).next <= i {
        PipeHolds(b, Next(b, c.next).next, i);
      }
    }
  }

  /** Whatever the line, every word character the parser passes is part of a string of the tree. */
  lemma {:induction false} LineHolds(b: Line, s: nat, i: nat)
    requires s <= i < |b| && WordChar(b[i]) && LineAt(b, s).Ok? && i < LineAt(b, s).next
    ensures InTree(LineAt(b, s).value, i)
    decreases |b| - s, 3
  {
    hide Next, Skip;
    var p := PipeAt(b, s);
    BacksHold(b, p.value, p.next, i);
    var c := BacksAt(b, p.value, p.next);
    if i < p.next {
      PipeHolds(b, s, i);
    } else {
      TokenChars(b, c.next, i);
    }
    if Peek(b, c.next, ";") {
      SymbolTaken(b, c.next, ";");
      if Next(b, c.next).next <= i {
        LineHolds(b, Next(b, c.next).next, i);
      }
    }
  }

  /** The strings of an accepted line's tree are words of the line, and hold every word character of it. */
  lemma NothingLost(b: Line)
    requires NoNul(b) && CommandOf(b).Ok?
    ensures CmdWords(b, CommandOf(b).value)
    ensures forall i :: 0 <= i < |b| && WordChar(b[i]) ==> InTree(CommandOf(b).value, i)
  {
    LineWords(b, 0);
    var c := LineAt(b, 0);
    forall i | 0 <= i < |b| && WordChar(b[i]) ensures InTree(c.value, i) {
      LineHolds(b, 0, i);
    }
  }
}
