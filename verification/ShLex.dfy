/** Tokens of a command line (src/sh.c:263-321).  A line is the bytes before the terminating NUL. */
module ShLex {
  type Line = seq<char>

  predicate Ws(c: char) {
    c == ' ' || c == '\t' || c == '\r' || c == '\n' || c == (11 as char)
  }

  predicate Symbol(c: char) {
    c == '<' || c == '|' || c == '>' || c == '&' || c == ';' || c == '(' || c == ')'
  }

  predicate WordChar(c: char) {
    !Ws(c) && !Symbol(c) && c != '\0'
  }

  /** strlen stops at the first NUL, so there is none inside. */
  predicate NoNul(b: Line) {
    forall i :: 0 <= i < |b| ==> b[i] != '\0'
  }

  /** The first position at or after s that is not white space. */
  function Skip(b: Line, s: nat): (r: nat)
    requires s <= |b|
    ensures s <= r <= |b| && (r < |b| ==> !Ws(b[r])) && (forall i :: s <= i < r ==> Ws(b[i]))
    decreases |b| - s
  {
    if s < |b| && Ws(b[s]) then Skip(b, s + 1) else s
  }

  /** The end of the word that starts at s. */
  function WordEnd(b: Line, s: nat): (r: nat)
    requires s <= |b|
    ensures s <= r <= |b| && (r < |b| ==> Ws(b[r]) || Symbol(b[r])) && (forall i :: s <= i < r ==> !Ws(b[i]) && !Symbol(b[i]))
    decreases |b| - s
  {
    if s < |b| && !Ws(b[s]) && !Symbol(b[s]) then WordEnd(b, s + 1) else s
  }

  datatype Kind = End | Sym(c: char) | Append | Word

  /** A token: its kind, its bytes from q to eq, and where scanning resumes. */
  datatype Token = Token(kind: Kind, q: nat, eq: nat, next: nat)

  /** The end of the token that starts at q. */
  function TokenEnd(b: Line, q: nat): (r: nat)
    requires q < |b|
    ensures q < r <= |b| || (q == r && Ws(b[q]))
  {
    if b[q] == '>' then if q + 1 < |b| && b[q + 1] == '>' then q + 2 else q + 1
    else if Symbol(b[q]) then q + 1
    else WordEnd(b, q)
  }

  function KindAt(b: Line, q: nat): (k: Kind)
    requires q < |b|
  {
    if b[q] == '>' && q + 1 < |b| && b[q + 1] == '>' then Append
    else if Symbol(b[q]) then Sym(b[q])
    else Word
  }

  /** gettoken. */
  function Next(b: Line, s: nat): (t: Token)
    requires s <= |b|
    ensures s <= t.q <= t.eq <= t.next <= |b| && (t.kind == End <==> t.q == |b|) && (t.kind != End ==> s < t.next)
  {
    var q := Skip(b, s);
    if q == |b| then Token(End, q, q, q) else Token(KindAt(b, q), q, TokenEnd(b, q), Skip(b, TokenEnd(b, q)))
  }

  /** peek. */
  predicate Peek(b: Line, s: nat, toks: string)
    requires s <= |b|
  {
    Skip(b, s) < |b| && b[Skip(b, s)] in toks
  }

  datatype Span = Span(q: nat, eq: nat)

  /** A word of the line, as long as it can be. */
  predicate IsWord(b: Line, w: Span) {
    w.q < w.eq <= |b| && (forall i :: w.q <= i < w.eq ==> WordChar(b[i])) && (w.eq < |b| ==> !WordChar(b[w.eq]))
  }

  lemma WordTokens(b: Line, s: nat)
    requires s <= |b| && NoNul(b) && Next(b, s).kind == Word
    ensures IsWord(b, Span(Next(b, s).q, Next(b, s).eq))
  {
  }

  // The scanning loops

  method SkipSpace(b: Line, s: nat) returns (r: nat)
    requires s <= |b|
    ensures r == Skip(b, s)
  {
    r := s;
    while r < |b| && Ws(b[r])
      invariant s <= r <= |b| && Skip(b, r) == Skip(b, s)
    {
      r := r + 1;
    }
  }

  method ScanWord(b: Line, s: nat) returns (r: nat)
    requires s <= |b|
    ensures r == WordEnd(b, s)
  {
    r := s;
    while r < |b| && !Ws(b[r]) && !Symbol(b[r])
      invariant s <= r <= |b| && WordEnd(b, r) == WordEnd(b, s)
    {
      r := r + 1;
    }
  }

  method GetToken(b: Line, ps: nat) returns (t: Token)
    requires ps <= |b|
    ensures t == Next(b, ps)
  {
    var s := SkipSpace(b, ps);
    var q := s;
    if s == |b| {
      return Token(End, s, s, s);
    }
    var kind := Word;
    if b[s] == '>' {
      kind := Sym('>');
      s := s + 1;
      if s < |b| && b[s] == '>' {
        kind := Append;
        s := s + 1;
      }
    } else if Symbol(b[s]) {
      kind := Sym(b[s]);
      s := s + 1;
    } else {
      s := ScanWord(b, s);
    }
    var eq := s;
    s := SkipSpace(b, s);
    return Token(kind, q, eq, s);
  }
}
