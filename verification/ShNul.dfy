/** nulterminate (src/sh.c:450-494): NULs written into the line itself. */
module ShNul {
  import opened ShLex
  import opened ShParse

  /** The positions nulterminate writes to. */
  function Ends(c: Cmd): (r: set<nat>) {
    match c
    case Exec(args) => ArgEnds(args)
    case Redir(sub, to) => Ends(sub) + {to.file.eq}
    case Pipe(l, r) => Ends(l) + Ends(r)
    case List(l, r) => Ends(l) + Ends(r)
    case Back(sub) => Ends(sub)
  }

  function ArgEnds(args: seq<Span>): (r: set<nat>)
    ensures forall i :: 0 <= i < |args| ==> args[i].eq in r
  {
    if args == [] then {} else ArgEnds(args[..|args| - 1]) + {args[|args| - 1].eq}
  }

  /** The strings of the tree: arguments and file names. */
  function Strings(c: Cmd): (r: seq<Span>) {
    match c
    case Exec(args) => args
    case Redir(sub, to) => Strings(sub) + [to.file]
    case Pipe(l, r) => Strings(l) + Strings(r)
    case List(l, r) => Strings(l) + Strings(r)
    case Back(sub) => Strings(sub)
  }

  /** The buffer: the line, its NUL, and whatever follows. */
  ghost predicate Holds(m: seq<char>, b: Line) {
    |b| < |m| && m[..|b|] == b && m[|b|] == '\0'
  }

  /** A C string: the bytes from i up to the first NUL. */
  function StringAt(m: seq<char>, i: nat): (r: seq<char>)
    requires i <= |m|
    decreases |m| - i
  {
    if i == |m| || m[i] == '\0' then [] else [m[i]] + StringAt(m, i + 1)
  }

  /** m with NULs at the positions in E. */
  ghost predicate Marked(m: seq<char>, m': seq<char>, E: set<nat>) {
    |m'| == |m| && forall i :: 0 <= i < |m| ==> m'[i] == if i in E then '\0' else m[i]
  }

  /** nulterminate ends tokens where no token has a byte. */
  lemma {:induction false} EndsAreOutside(b: Line, c: Cmd)
    requires CmdWords(b, c)
    ensures forall e :: e in Ends(c) ==> e <= |b| && (e < |b| ==> !WordChar(b[e]))
    ensures forall i :: 0 <= i < |Strings(c)| ==> IsWord(b, Strings(c)[i]) && Strings(c)[i].eq in Ends(c)
    decreases c
  {
    hide WordChar;
    match c
    case Exec(args) => ArgEndsAreOutside(b, args);
    case Redir(sub, to) => EndsAreOutside(b, sub);
    case Pipe(l, r) =>
      EndsAreOutside(b, l);
      EndsAreOutside(b, r);
    case List(l, r) =>
      EndsAreOutside(b, l);
      EndsAreOutside(b, r);
    case Back(sub) => EndsAreOutside(b, sub);
  }

  lemma {:induction false} ArgEndsAreOutside(b: Line, args: seq<Span>)
    requires forall i :: 0 <= i < |args| ==> IsWord(b, args[i])
    ensures forall e :: e in ArgEnds(args) ==> e <= |b| && (e < |b| ==> !WordChar(b[e]))
    decreases |args|
  {
    hide WordChar;
    if args != [] {
      ArgEndsAreOutside(b, args[..|args| - 1]);
      assert IsWord(b, args[|args| - 1]);
    }
  }

  lemma {:induction false} StringStops(m: seq<char>, i: nat, e: nat)
    requires i <= e < |m| && m[e] == '\0' && forall k :: i <= k < e ==> m[k] != '\0'
    ensures StringAt(m, i) == m[i..e]
    decreases e - i
  {
    if i < e {
      StringStops(m, i + 1, e);
    }
  }

  /** After the marks every string of the tree reads back as exactly its token: no mark damages another token. */
  lemma StringsReadBack(m: seq<char>, m': seq<char>, b: Line, c: Cmd, k: nat)
    requires Holds(m, b) && CmdWords(b, c) && Marked(m, m', Ends(c)) && k < |Strings(c)|
    ensures var w := Strings(c)[k];
            w.q < w.eq <= |b| && StringAt(m', w.q) == b[w.q..w.eq]
  {
    EndsAreOutside(b, c);
    var w := Strings(c)[k];
    assert IsWord(b, w);
    forall i | w.q <= i < w.eq ensures m'[i] == b[i] && m'[i] != '\0' {
      assert m[..|b|][i] == b[i];
    }
    StringStops(m', w.q, w.eq);
  }

  lemma MarkedThen(m: seq<char>, m1: seq<char>, m2: seq<char>, E: set<nat>, F: set<nat>)
    requires Marked(m, m1, E) && Marked(m1, m2, F)
    ensures Marked(m, m2, E + F)
  {
  }

  /** The loop over argv. */
  method MarkArgs(buf: array<char>, args: seq<Span>)
    requires forall i :: 0 <= i < |args| ==> args[i].eq < buf.Length
    modifies buf
    ensures Marked(old(buf[..]), buf[..], ArgEnds(args))
  {
    var i := 0;
    while i < |args|
      invariant 0 <= i <= |args| && Marked(old(buf[..]), buf[..], ArgEnds(args[..i]))
    {
      assert args[..i + 1][..i] == args[..i];
      buf[args[i].eq] := '\0';
      i := i + 1;
    }
    assert args[..i] == args;
  }

  /** nulterminate: a NUL after every argument and file name of the tree, and nothing else. */
  method Nulterminate(buf: array<char>, c: Cmd, ghost b: Line)
    requires CmdWords(b, c) && |b| < buf.Length
    modifies buf
    ensures Marked(old(buf[..]), buf[..], Ends(c))
    decreases c
  {
    hide IsWord;
    ghost var m := buf[..];
    match c {
      case Exec(args) =>
        ArgsInside(b, args);
        MarkArgs(buf, args);
      case Redir(sub, to) =>
        Nulterminate(buf, sub, b);
        WordInside(b, to.file);
        buf[to.file.eq] := '\0';
      case Pipe(l, r) =>
        Nulterminate(buf, l, b);
        ghost var m1 := buf[..];
        Nulterminate(buf, r, b);
        MarkedThen(m, m1, buf[..], Ends(l), Ends(r));
      case List(l, r) =>
        Nulterminate(buf, l, b);
        ghost var m1 := buf[..];
        Nulterminate(buf, r, b);
        MarkedThen(m, m1, buf[..], Ends(l), Ends(r));
      case Back(sub) =>
        Nulterminate(buf, sub, b);
    }
  }

  lemma WordInside(b: Line, w: Span)
    requires IsWord(b, w)
    ensures w.eq <= |b|
  {
  }

  lemma ArgsInside(b: Line, args: seq<Span>)
    requires forall i :: 0 <= i < |args| ==> IsWord(b, args[i])
    ensures forall i :: 0 <= i < |args| ==> args[i].eq <= |b|
  {
  }
}
