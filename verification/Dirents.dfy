/** Directories as byte strings (src/fs.c:517-582): 32-byte entries, an inode number and a name each. */
module Dirents {
  import opened Blocks
  import opened FsLayout

  const DESIZE: nat := 32

  // Names

  /** The first NUL at or after i, or the end of the field. */
  function Len(a: seq<Byte>, i: nat): (n: nat)
    requires i <= |a|
    ensures i <= n <= |a| && (n < |a| ==> a[n] == 0) && forall j :: i <= j < n ==> a[j] != 0
    decreases |a| - i
  {
    if i < |a| && a[i] != 0 then Len(a, i + 1) else i
  }

  /** The string in a name field. */
  function Str(a: seq<Byte>): (s: seq<Byte>)
    ensures |s| <= |a| && forall j :: 0 <= j < |s| ==> s[j] != 0
  {
    a[..Len(a, 0)]
  }

  /** namecmp's loop: it answers 0 exactly for equal strings. */
  method Namecmp(a: seq<Byte>, b: seq<Byte>) returns (same: bool)
    requires |a| == |b| == DIRSIZ
    ensures same <==> Str(a) == Str(b)
  {
    var i := 0;
    while i < DIRSIZ && a[i] != 0 && a[i] == b[i]
      invariant 0 <= i <= DIRSIZ && a[..i] == b[..i] && Len(a, 0) == Len(a, i) && Len(b, 0) == Len(b, i)
    {
      i := i + 1;
    }
    same := i == DIRSIZ || a[i] == b[i];
  }

  /** strncpy: the string, then NULs. */
  function Padded(a: seq<Byte>): (r: seq<Byte>)
    requires |a| == DIRSIZ
    ensures |r| == DIRSIZ && Str(r) == Str(a)
  {
    var s := Str(a);
    var r := s + seq(DIRSIZ - |s|, _ => 0);
    LenOf(s, r);
    r
  }

  lemma LenOf(s: seq<Byte>, r: seq<Byte>)
    requires |s| <= |r| && r[..|s|] == s && (forall j :: 0 <= j < |s| ==> s[j] != 0) && (|s| < |r| ==> r[|s|] == 0)
    ensures Str(r) == s
  {
    assert forall j :: 0 <= j < |s| ==> r[..|s|][j] == s[j];
  }

  // Entries

  function Inum(b: seq<Byte>, k: nat): (r: Half)
    requires DESIZE * (k + 1) <= |b|
  {
    (b[DESIZE * k] as int) + 0x100 * (b[DESIZE * k + 1] as int)
  }

  function Name(b: seq<Byte>, k: nat): (r: seq<Byte>)
    requires DESIZE * (k + 1) <= |b|
    ensures |r| == DIRSIZ
  {
    b[DESIZE * k + 2..DESIZE * (k + 1)]
  }

  function Entries(b: seq<Byte>): (n: nat)
    ensures DESIZE * n <= |b|
  {
    |b| / DESIZE
  }

  /** Entry k is in use under this name. */
  predicate Matches(b: seq<Byte>, k: nat, s: seq<Byte>)
    requires k < Entries(b)
  {
    Inum(b, k) != 0 && Str(Name(b, k)) == s
  }

  /** A lookup's answer: the first entry in use under the name. */
  ghost predicate IsFirst(b: seq<Byte>, k: nat, s: seq<Byte>) {
    k < Entries(b) && Matches(b, k, s) && forall j: nat :: j < k ==> !Matches(b, j, s)
  }

  ghost predicate Absent(b: seq<Byte>, s: seq<Byte>) {
    forall j: nat :: j < Entries(b) ==> !Matches(b, j, s)
  }

  /** The directory entry for a name: the inode number, low byte first, and the name. */
  function Dirent(inum: Half, name: seq<Byte>): (r: seq<Byte>)
    requires |name| == DIRSIZ
    ensures |r| == DESIZE
    ensures (r[0] as int) + 0x100 * (r[1] as int) == inum && r[2..] == name
  {
    [inum % 0x100, inum / 0x100] + name
  }

  /** b with entry k replaced, or added at the end. */
  function WithEntry(b: seq<Byte>, k: nat, e: seq<Byte>): (r: seq<Byte>)
    requires |e| == DESIZE && |b| % DESIZE == 0 && k <= Entries(b)
    ensures |r| == if k < Entries(b) then |b| else |b| + DESIZE
  {
    if k < Entries(b) then b[..DESIZE * k] + e + b[DESIZE * (k + 1)..] else b + e
  }

  lemma WithEntryReads(b: seq<Byte>, k: nat, inum: Half, name: seq<Byte>, j: nat)
    requires |name| == DIRSIZ && |b| % DESIZE == 0 && k <= Entries(b) && j < Entries(WithEntry(b, k, Dirent(inum, name)))
    ensures var r := WithEntry(b, k, Dirent(inum, name));
            if j == k then Inum(r, j) == inum && Name(r, j) == name
            else j < Entries(b) && Inum(r, j) == Inum(b, j) && Name(r, j) == Name(b, j)
  {
    var e := Dirent(inum, name);
    var r := WithEntry(b, k, e);
    if j == k {
      assert r[DESIZE * k..DESIZE * (k + 1)] == e;
      assert Name(r, j) == e[2..];
    } else {
      assert j < Entries(b);
      assert r[DESIZE * j..DESIZE * (j + 1)] == b[DESIZE * j..DESIZE * (j + 1)];
      assert Name(r, j) == r[DESIZE * j..DESIZE * (j + 1)][2..] == Name(b, j);
    }
  }

  /**
   dirlink, then dirlookup: a name that was absent is found under the inode given, and every other
   name is found, or not, as before.
   */
  lemma LinkThenLookup(b: seq<Byte>, k: nat, inum: Half, name: seq<Byte>, s: seq<Byte>)
    requires |name| == DIRSIZ && |b| % DESIZE == 0 && k <= Entries(b) && inum != 0
    requires Absent(b, Str(name)) && (k < Entries(b) ==> Inum(b, k) == 0)
    ensures var r := WithEntry(b, k, Dirent(inum, Padded(name)));
            && IsFirst(r, k, Str(name)) && Inum(r, k) == inum
            && (s != Str(name) ==> (Absent(r, s) <==> Absent(b, s)))
            && (s != Str(name) ==> forall j: nat :: IsFirst(b, j, s) ==> IsFirst(r, j, s) && Inum(r, j) == Inum(b, j))
  {
    hide Inum, Name, Str, WithEntry, Dirent;
    var r := WithEntry(b, k, Dirent(inum, Padded(name)));
    forall j: nat | j < Entries(r)
      ensures if j == k then Matches(r, j, Str(name)) && Inum(r, j) == inum && (s != Str(name) ==> !Matches(r, j, s))
              else j < Entries(b) && Inum(r, j) == Inum(b, j) && forall q :: Matches(r, j, q) <==> Matches(b, j, q)
    {
      WithEntryReads(b, k, inum, Padded(name), j);
    }
    assert Entries(b) <= Entries(r) && k < Entries(r);
    if s != Str(name) {
      forall j: nat | j < Entries(b) ensures Matches(b, j, s) <==> Matches(r, j, s) {
      }
    }
  }
}
