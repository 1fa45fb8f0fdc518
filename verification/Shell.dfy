/** src/sh.c: the recursive-descent parser, and parsecmd with its NULs. */
module Shell {
  import opened ShLex
  import opened ShParse
  import opened ShNul

  /** parseredirs' loop. */
  method ParseRedirs(b: Line, ps: nat) returns (r: Result<seq<Redirect>>)
    requires ps <= |b|
    ensures r == RedirsAt(b, [], ps)
  {
    var rs, s := [], ps;
    while Peek(b, s, "<>")
      invariant s <= |b| && RedirsAt(b, rs, s) == RedirsAt(b, [], ps)
      decreases |b| - s
    {
      var tok := GetToken(b, s);
      var file := GetToken(b, tok.next);
      if file.kind != Word {
        return Panic;
      }
      rs := rs + [Redirect(Span(file.q, file.eq), tok.kind != Sym('<'))];
      s := file.next;
    }
    s := SkipSpace(b, s);
    return Ok(rs, s);
  }

  /** parseredirs continues the redirections it is given. */
  lemma {:induction false} RedirsAppend(b: Line, rs: seq<Redirect>, more: seq<Redirect>, s: nat)
    requires s <= |b|
    ensures RedirsAt(b, rs + more, s)
              == var r := RedirsAt(b, more, s); if r.Panic? then Panic else Ok(rs + r.value, r.next)
    decreases |b| - s
  {
    hide Skip;
    if Peek(b, s, "<>") {
      var t := Next(b, s);
      var f := Next(b, t.next);
      if f.kind == Word {
        var x := [Redirect(Span(f.q, f.eq), t.kind != Sym('<'))];
        RedirsAppend(b, rs, more + x, f.next);
        assert rs + more + x == rs + (more + x);
      }
    }
  }

  /** parseexec. */
  method ParseExec(b: Line, ps: nat) returns (r: Result<Cmd>)
    requires ps <= |b|
    ensures r == ExecAt(b, ps)
    decreases |b| - ps, 1
  {
    if Peek(b, ps, "(") {
      r := ParseBlock(b, ps);
      return;
    }
    var s := SkipSpace(b, ps);
    var first := ParseRedirs(b, s);
    if first.Panic? {
      return Panic;
    }
    r := ParseArgs(b, first.value, first.next);
  }

  /** parseexec's loop. */
  method ParseArgs(b: Line, rs0: seq<Redirect>, s0: nat) returns (r: Result<Cmd>)
    requires s0 <= |b|
    ensures r == ArgsAt(b, [], rs0, s0)
  {
    hide Wrap;
    var args, rs, s := [], rs0, s0;
    while !Peek(b, s, "|)&;")
      invariant s <= |b| && ArgsAt(b, args, rs, s) == ArgsAt(b, [], rs0, s0)
      decreases |b| - s
    {
      var tok := GetToken(b, s);
      if tok.kind == End {
        return Ok(Wrap(Exec(args), rs), tok.next);
      }
      if tok.kind != Word {
        return Panic;
      }
      if |args| + 1 >= MAXARGS {
        return Panic;
      }
      var more := ParseRedirs(b, tok.next);
      RedirsAppend(b, rs, [], tok.next);
      assert rs + [] == rs;
      if more.Panic? {
        return Panic;
      }
      args, rs, s := args + [Span(tok.q, tok.eq)], rs + more.value, more.next;
    }
    s := SkipSpace(b, s);
    return Ok(Wrap(Exec(args), rs), s);
  }

  method ParseBlock(b: Line, ps: nat) returns (r: Result<Cmd>)
    requires ps <= |b| && Peek(b, ps, "(")
    ensures r == BlockAt(b, ps)
    decreases |b| - ps, 0
  {
    var open := GetToken(b, ps);
    var c := ParseLine(b, open.next);
    if c.Panic? || !Peek(b, c.next, ")") {
      return Panic;
    }
    var close := GetToken(b, c.next);
    var rs := ParseRedirs(b, close.next);
    if rs.Panic? {
      return Panic;
    }
    return Ok(Wrap(c.value, rs.value), rs.next);
  }

  method ParsePipe(b: Line, ps: nat) returns (r: Result<Cmd>)
    requires ps <= |b|
    ensures r == PipeAt(b, ps)
    decreases |b| - ps, 2
  {
    var c := ParseExec(b, ps);
    if c.Panic? {
      return Panic;
    }
    if Peek(b, c.next, "|") {
      var bar := GetToken(b, c.next);
      var d := ParsePipe(b, bar.next);
      if d.Panic? {
        return Panic;
      }
      return Ok(Pipe(c.value, d.value), d.next);
    }
    var s := SkipSpace(b, c.next);
    return Ok(c.value, s);
  }

  method ParseLine(b: Line, ps: nat) returns (r: Result<Cmd>)
    requires ps <= |b|
    ensures r == LineAt(b, ps)
    decreases |b| - ps, 3
  {
    var p := ParsePipe(b, ps);
    if p.Panic? {
      return Panic;
    }
    var c, s := p.value, p.next;
    while Peek(b, s, "&")
      invariant p.next <= s <= |b| && BacksAt(b, c, s) == BacksAt(b, p.value, p.next)
      decreases |b| - s
    {
      var amp := GetToken(b, s);
      c, s := Back(c), amp.next;
    }
    s := SkipSpace(b, s);
    if Peek(b, s, ";") {
      var semi := GetToken(b, s);
      var d := ParseLine(b, semi.next);
      if d.Panic? {
        return Panic;
      }
      return Ok(List(c, d.value), d.next);
    }
    s := SkipSpace(b, s);
    return Ok(c, s);
  }

  /** parsecmd on the shared buffer: after it every string of the tree reads as the token that was typed. */
  method ParseCmd(buf: array<char>, n: nat) returns (r: Result<Cmd>)
    requires n < buf.Length && NoNul(buf[..n]) && buf[n] == '\0'
    modifies buf
    ensures r == CommandOf(old(buf[..n]))
    ensures r.Panic? ==> buf[..] == old(buf[..])
    ensures r.Ok? ==> forall k :: 0 <= k < |Strings(r.value)| ==>
                        var w := Strings(r.value)[k];
                        w.q < w.eq <= n && StringAt(buf[..], w.q) == old(buf[..n])[w.q..w.eq]
    ensures r.Ok? ==> Marked(old(buf[..]), buf[..], Ends(r.value))
  {
    hide StringAt, LineAt, Ends, Strings, IsWord, CmdWords, Marked;
    ghost var m := buf[..];
    var b := buf[..n];
    var c := ParseLine(b, 0);
    if c.Panic? {
      return Panic;
    }
    var s := SkipSpace(b, c.next);
    if s != n {
      return Panic;
    }
    LineWords(b, 0);
    Nulterminate(buf, c.value, b);
    forall k | 0 <= k < |Strings(c.value)|
      ensures var w := Strings(c.value)[k];
              w.q < w.eq <= n && StringAt(buf[..], w.q) == b[w.q..w.eq]
    {
      StringsReadBack(m, buf[..], b, c.value, k);
    }
    return Ok(c.value, n);
  }
}
