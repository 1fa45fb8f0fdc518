/**
 The regular-expression matcher of src/grep.c.  A pattern is read as a list of items,
 each a character or a starred character, and an optional final `$`; a text matches when it can be
 cut into pieces that fit the items one by one.
 */
module Grep {
  /** c itself, or any number of c; the character '.' stands for every character. */
  datatype Item = One(c: char) | Star(c: char)

  datatype Pattern = Pattern(items: seq<Item>, atEnd: bool)

  /** How matchhere reads a pattern: a star binds to the character before it, and `$` is special only as the last character. */
  function Read(re: string): (r: Pattern) {
    if re == "" then Pattern([], false)
    else if |re| > 1 && re[1] == '*' then
      var rest := Read(re[2..]);
      Pattern([Star(re[0])] + rest.items, rest.atEnd)
    else if re == "$" then Pattern([], true)
    else
      var rest := Read(re[1..]);
      Pattern([One(re[0])] + rest.items, rest.atEnd)
  }

  predicate CharFits(c: char, x: char) {
    c == '.' || c == x
  }

  /** A piece of text fits an item. */
  ghost predicate Fits(item: Item, piece: string) {
    match item
    case One(c) => |piece| == 1 && CharFits(c, piece[0])
    case Star(c) => forall i :: 0 <= i < |piece| ==> CharFits(c, piece[i])
  }

  function Join(pieces: seq<string>): (r: string) {
    if |pieces| == 0 then "" else pieces[0] + Join(pieces[1..])
  }

  /** The text is these pieces in order, each fitting its item, and then the rest. */
  ghost predicate Splits(p: Pattern, text: string, pieces: seq<string>, rest: string) {
    && |pieces| == |p.items|
    && text == Join(pieces) + rest
    && (forall i :: 0 <= i < |p.items| ==> Fits(p.items[i], pieces[i]))
    && (p.atEnd ==> rest == "")
  }

  /** Some beginning of the text, or all of it if the pattern ends in `$`, matches the pattern. */
  ghost predicate Begins(p: Pattern, text: string) {
    exists pieces, rest :: Splits(p, text, pieces, rest)
  }

  /** What grep looks for: the pattern at the start of the text after `^`, anywhere in it otherwise. */
  ghost predicate Matches(re: string, text: string) {
    if re != "" && re[0] == '^' then Begins(Read(re[1..]), text)
    else exists k :: 0 <= k <= |text| && Begins(Read(re), text[k..])
  }

  // One item at a time

  lemma BeginsEmpty(text: string, atEnd: bool)
    ensures Begins(Pattern([], atEnd), text) <==> (atEnd ==> text == "")
  {
    if atEnd ==> text == "" {
      assert Splits(Pattern([], atEnd), text, [], text);
    }
  }

  /** The first item takes the first n characters and the rest of the pattern begins what is left. */
  ghost predicate TakesFirst(item: Item, p: Pattern, text: string, n: int) {
    0 <= n <= |text| && Fits(item, text[..n]) && Begins(p, text[n..])
  }

  lemma BeginsOne(item: Item, p: Pattern, text: string)
    ensures Begins(p.(items := [item] + p.items), text) <==> exists n :: TakesFirst(item, p, text, n)
  {
    hide Splits, Begins, TakesFirst;
    if Begins(p.(items := [item] + p.items), text) {
      var n := FirstPiece(item, p, text);
    }
    if n :| TakesFirst(item, p, text, n) {
      WithFirstPiece(item, p, text, n);
    }
  }

  lemma FirstPiece(item: Item, p: Pattern, text: string) returns (n: int)
    requires Begins(p.(items := [item] + p.items), text)
    ensures TakesFirst(item, p, text, n)
  {
    var q := p.(items := [item] + p.items);
    var pieces, rest :| Splits(q, text, pieces, rest);
    n := |pieces[0]|;
    assert q.items[0] == item;
    assert text[..n] == pieces[0] && text[n..] == Join(pieces[1..]) + rest;
    forall i | 0 <= i < |p.items| ensures Fits(p.items[i], pieces[1..][i]) {
      assert p.items[i] == q.items[i + 1];
    }
    assert Splits(p, text[n..], pieces[1..], rest);
  }

  lemma WithFirstPiece(item: Item, p: Pattern, text: string, n: int)
    requires TakesFirst(item, p, text, n)
    ensures Begins(p.(items := [item] + p.items), text)
  {
    var pieces, rest :| Splits(p, text[n..], pieces, rest);
    var all := [text[..n]] + pieces;
    assert all[1..] == pieces;
    assert Splits(p.(items := [item] + p.items), text, all, rest);
  }

  // The matcher

  /** matchhere as the recursive calls define it. */
  predicate Here(re: string, text: string)
    decreases |re|, |text| + 1
  {
    if re == "" then true
    else if |re| > 1 && re[1] == '*' then StarHere(re[0], re[2..], text)
    else if re == "$" then text == ""
    else text != "" && CharFits(re[0], text[0]) && Here(re[1..], text[1..])
  }

  /** matchstar: re after zero or more c. */
  predicate StarHere(c: char, re: string, text: string)
    decreases |re|, |text| + 2
  {
    Here(re, text) || (text != "" && CharFits(c, text[0]) && StarHere(c, re, text[1..]))
  }

  /** matchhere decides the declarative meaning, both ways. */
  lemma {:induction false} HereMeans(re: string, text: string)
    ensures Here(re, text) <==> Begins(Read(re), text)
    decreases |re|, |text| + 1
  {
    if re == "" || re == "$" {
      BeginsEmpty(text, re == "$");
    } else if |re| > 1 && re[1] == '*' {
      BeginsOne(Star(re[0]), Read(re[2..]), text);
      assert Read(re) == Read(re[2..]).(items := [Star(re[0])] + Read(re[2..]).items);
      StarMeans(re[0], re[2..], text);
    } else {
      var p := Read(re[1..]);
      BeginsOne(One(re[0]), p, text);
      if text != "" {
        HereMeans(re[1..], text[1..]);
        assert text[..1] == [text[0]];
        assert TakesFirst(One(re[0]), p, text, 1) <==> CharFits(re[0], text[0]) && Begins(p, text[1..]);
      }
    }
  }

  lemma {:induction false} StarMeans(c: char, re: string, text: string)
    ensures StarHere(c, re, text) <==> exists n :: TakesFirst(Star(c), Read(re), text, n)
    decreases |re|, |text| + 2
  {
    var p := Read(re);
    HereMeans(re, text);
    assert text[..0] == "" && text[0..] == text;
    assert TakesFirst(Star(c), p, text, 0) <==> Begins(p, text);
    if text != "" {
      if CharFits(c, text[0]) {
        StarMeans(c, re, text[1..]);
      }
      if StarHere(c, re, text) && !Here(re, text) {
        var n :| TakesFirst(Star(c), p, text[1..], n);
        StarShift(c, p, text, n);
      }
      if n :| TakesFirst(Star(c), p, text, n) && n > 0 {
        assert text[..n][0] == text[0];
        StarShift(c, p, text, n - 1);
      }
    }
  }

  /** A star that takes one more character. */
  lemma StarShift(c: char, p: Pattern, text: string, n: nat)
    requires n < |text| && CharFits(c, text[0])
    ensures TakesFirst(Star(c), p, text[1..], n) <==> TakesFirst(Star(c), p, text, n + 1)
  {
    var a, b := text[1..][..n], text[..n + 1];
    assert b == [text[0]] + a && text[1..][n..] == text[n + 1..];
    if Fits(Star(c), b) {
      forall i | 0 <= i < |a| ensures CharFits(c, a[i]) {
        assert a[i] == b[i + 1];
      }
    }
  }

  ghost predicate HasAt(c: char, text: string, k: int) {
    0 <= k < |text| && (c == '.' || text[k] == c)
  }

  /** '.' is found in every text but the empty one, and any other plain character in the texts that have it. */
  lemma OneCharacter(c: char, text: string)
    requires c != '^' && c != '$'
    ensures Matches([c], text) <==> exists k :: HasAt(c, text, k)
  {
    forall k | 0 <= k <= |text| ensures Begins(Read([c]), text[k..]) <==> HasAt(c, text, k) {
      HereMeans([c], text[k..]);
      assert [c][1..] == "" && Here("", if k < |text| then text[k..][1..] else "");
    }
    hide Begins, Read;
    assert [c][0] == c;
    if k :| HasAt(c, text, k) {
      assert Begins(Read([c]), text[k..]);
    }
  }

  // The loops

  /** matchhere. */
  method MatchHere(re: string, text: string) returns (r: bool)
    ensures r == Here(re, text)
    decreases |re|, |text| + 1
  {
    if re == "" {
      return true;
    }
    if |re| > 1 && re[1] == '*' {
      r := MatchStar(re[0], re[2..], text);
      return;
    }
    if re == "$" {
      return text == "";
    }
    if text != "" && (re[0] == '.' || re[0] == text[0]) {
      r := MatchHere(re[1..], text[1..]);
      return;
    }
    return false;
  }

  /** matchstar: try the rest of the pattern after every run of c. */
  method MatchStar(c: char, re: string, text: string) returns (r: bool)
    ensures r == StarHere(c, re, text)
    decreases |re|, |text| + 2
  {
    var k := 0;
    while true
      invariant 0 <= k <= |text| && StarHere(c, re, text) == StarHere(c, re, text[k..])
      decreases |text| - k
    {
      var here := MatchHere(re, text[k..]);
      if here {
        return true;
      }
      if k == |text| || !(text[k] == c || c == '.') {
        return false;
      }
      assert text[k..][1..] == text[k + 1..];
      k := k + 1;
    }
  }

  /** match: search for the pattern anywhere in the text. */
  method Match(re: string, text: string) returns (r: bool)
    ensures r <==> Matches(re, text)
  {
    if re != "" && re[0] == '^' {
      r := MatchHere(re[1..], text);
      HereMeans(re[1..], text);
      return;
    }
    var k := 0;
    while true
      invariant 0 <= k <= |text| && forall j :: 0 <= j < k ==> !Begins(Read(re), text[j..])
      decreases |text| - k
    {
      var here := MatchHere(re, text[k..]);
      HereMeans(re, text[k..]);
      if here {
        return true;
      }
      if k == |text| {
        return false;
      }
      k := k + 1;
    }
  }
}
