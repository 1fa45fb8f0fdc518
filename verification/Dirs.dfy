/** dirlookup and dirlink (src/fs.c:529-582) over the files of a mounted file system. */
module Dirs {
  import opened Blocks
  import opened FileTree
  import opened FileBytes
  import opened FsLayout
  import opened FsState
  import opened FsContent
  import opened Fs
  import opened Dirents

  datatype Lookup = Found(inum: Half, k: nat) | Missing | Panicked

  /** The directory's bytes. */
  ghost function Listing(fs: FileSystem, f: nat): (b: seq<Byte>)
    requires f < |fs.inodes| && fs.inodes[f].size <= MAXBYTES
    reads fs
    ensures |b| == fs.inodes[f].size
  {
    Content(fs.V(), f, fs.inodes[f].size)
  }

  /** The first entry under the name is number k, and every block up to it is there. */
  ghost predicate InSight(fs: FileSystem, f: nat, s: seq<Byte>, k: nat)
    requires f < |fs.inodes|
    reads fs
  {
    fs.inodes[f].size <= MAXBYTES && IsFirst(Listing(fs, f), k, s) && Covers(fs.V(), f, 0, DESIZE * (k + 1))
  }

  lemma SameListing(s: State, s': State, sb: Super, f: nat, off: nat, n: nat)
    requires Wrote(s, s', sb, f, off, []) && n <= MAXBYTES
    ensures |s'.inodes| == |s.inodes| && Content(Vol(s', sb), f, n) == Content(Vol(s, sb), f, n)
  {
    hide Ok, ByteAt, Content;
    forall o | 0 <= o < n ensures Content(Vol(s', sb), f, n)[o] == Content(Vol(s, sb), f, n)[o] {
      WroteFacts(s, s', sb, f, off, [], f, o);
    }
  }

  /** One entry read by readi. */
  lemma EntryRead(v: Volume, f: nat, size: nat, k: nat, de: seq<Byte>)
    requires f < |v.files| && size <= MAXBYTES && DESIZE * (k + 1) <= size && |de| == DESIZE
    requires forall i :: 0 <= i < DESIZE ==> DESIZE * k + i < MAXBYTES && de[i] == ByteAt(v, f, DESIZE * k + i)
    ensures var b := Content(v, f, size); Inum(b, k) == Inum(de, 0) && Name(b, k) == de[2..]
  {
    hide ByteAt, Content;
    var b := Content(v, f, size);
    assert b[DESIZE * k..DESIZE * (k + 1)] == de;
    assert Name(b, k) == b[DESIZE * k..DESIZE * (k + 1)][2..];
  }

  /** Reads of file f have changed nothing it shows. */
  ghost predicate Looking(s: State, s': State, sb: Super, f: nat) {
    && Ok(s, sb) && Wrote(s, s', sb, f, 0, []) && s.inodes[f].size <= MAXBYTES
    && s'.inodes[f].size == s.inodes[f].size && s'.inodes[f].kind == s.inodes[f].kind
    && Content(Vol(s', sb), f, s.inodes[f].size) == Content(Vol(s, sb), f, s.inodes[f].size)
  }

  lemma LookStart(s: State, sb: Super, f: nat)
    requires Ok(s, sb) && f < |s.inodes|
    ensures Looking(s, s, sb, f)
  {
    hide Ok, Content;
    ReadStart(s, sb, f, 0);
  }

  lemma LookFacts(s: State, s': State, sb: Super, f: nat)
    requires Looking(s, s', sb, f)
    ensures Ok(s', sb) && f < |s.inodes| == |s'.inodes| && s'.inodes[f].size == s.inodes[f].size <= MAXBYTES && s'.inodes[f].kind == s.inodes[f].kind
    ensures Wrote(s, s', sb, f, 0, [])
    ensures Content(Vol(s', sb), f, s.inodes[f].size) == Content(Vol(s, sb), f, s.inodes[f].size)
  {
    hide Content, Ok;
  }

  /** One more entry read. */
  lemma LookOn(s: State, s1: State, s2: State, sb: Super, f: nat, k: nat, de: seq<Byte>)
    requires Looking(s, s1, sb, f) && Wrote(s1, s2, sb, f, DESIZE * k, []) && |de| == DESIZE && DESIZE * (k + 1) <= s.inodes[f].size
    requires forall i :: 0 <= i < DESIZE ==> DESIZE * k + i < MAXBYTES && de[i] == ByteAt(Vol(s1, sb), f, DESIZE * k + i)
    ensures Looking(s, s2, sb, f)
    ensures var b := Content(Vol(s, sb), f, s.inodes[f].size); k < Entries(b) && Inum(b, k) == Inum(de, 0) && Name(b, k) == de[2..]
  {
    hide Ok, Content, ByteAt, Inum, Name;
    EntryRead(Vol(s1, sb), f, s.inodes[f].size, k, de);
    ReadOn(s, s1, s2, sb, f, 0, DESIZE * k, DESIZE);
    SameListing(s1, s2, sb, f, DESIZE * k, s.inodes[f].size);
    WroteKind(s1, s2, sb, f, DESIZE * k);
  }

  lemma WroteKind(s: State, s': State, sb: Super, f: nat, off: nat)
    requires Wrote(s, s', sb, f, off, [])
    ensures s'.inodes[f].kind == s.inodes[f].kind
  {
    hide Ok;
  }

  /** readi of entry number off / DESIZE; short reads panic. */
  method ReadEntry(fs: FileSystem, f: nat, off: nat, ghost s: State) returns (ok: bool, de: seq<Byte>)
    requires Looking(s, fs.St(), fs.sb, f) && f < |fs.inodes| && off < fs.inodes[f].size && off % DESIZE == 0 && fs.inodes[f].kind == T_DIR
    modifies fs
    ensures ok ==> |de| == DESIZE && f < |fs.inodes| == |s.inodes| && Looking(s, fs.St(), fs.sb, f)
    ensures ok ==> fs.inodes[f].size == s.inodes[f].size <= MAXBYTES && fs.inodes[f].kind == T_DIR
    ensures ok ==> var b := Content(Vol(s, fs.sb), f, s.inodes[f].size);
                   off / DESIZE < Entries(b) && Inum(b, off / DESIZE) == Inum(de, 0) && Name(b, off / DESIZE) == de[2..]
    ensures !ok ==> s.inodes[f].size % DESIZE != 0 || AllUsed(fs.disk, fs.sb)
    ensures old(Covers(fs.V(), f, off, off + DESIZE)) && old(fs.inodes[f].size) % DESIZE == 0 ==> ok && fs.St() == old(fs.St())
    ensures old(Covers(fs.V(), f, off, off + DESIZE)) && off + DESIZE <= old(fs.inodes[f].size) ==> ok && fs.St() == old(fs.St())
  {
    hide Ok, Wrote, AllUsed, Vol, ByteAt, Covers, Content, Inum, Name, Looking;
    ghost var s1, k := fs.St(), off / DESIZE;
    LookFacts(s, s1, fs.sb, f);
    var io;
    io, de := fs.Readi(f, off, DESIZE);
    ok := io == Count(DESIZE);
    if ok {
      assert off == DESIZE * k;
      LookOn(s, s1, fs.St(), fs.sb, f, k, de);
      LookFacts(s, fs.St(), fs.sb, f);
    }
  }

  /**
   dirlookup: the first entry in use under the name.  Looking changes nothing a file shows, and nothing at all
   if the directory's blocks are there up to the entry found, number `at`.
   */
  method Dirlookup(fs: FileSystem, f: nat, name: seq<Byte>, ghost at: nat) returns (r: Lookup)
    requires Ok(fs.St(), fs.sb) && f < |fs.inodes| && |name| == DIRSIZ
    modifies fs
    ensures r.Panicked? ==> old(fs.inodes[f].kind) != T_DIR || old(fs.inodes[f].size) % DESIZE != 0 || AllUsed(fs.disk, fs.sb)
    ensures !r.Panicked? ==> old(fs.inodes[f].kind) == T_DIR && Looking(old(fs.St()), fs.St(), fs.sb, f)
    ensures r.Found? ==> old(fs.inodes[f].size) <= MAXBYTES && IsFirst(old(Listing(fs, f)), r.k, Str(name)) && r.inum == Inum(old(Listing(fs, f)), r.k)
    ensures r.Missing? ==> old(fs.inodes[f].size) <= MAXBYTES && old(fs.inodes[f].size) % DESIZE == 0 && Absent(old(Listing(fs, f)), Str(name))
    ensures old(fs.inodes[f].kind == T_DIR && InSight(fs, f, Str(name), at)) ==> r.Found? && r.k == at && fs.St() == old(fs.St())
  {
    hide Ok, AllUsed, Vol, ByteAt, Covers, Content, Looking, Str, Inum, Name;
    if fs.inodes[f].kind != T_DIR {
      return Panicked;
    }
    ghost var s := fs.St();
    LookStart(s, fs.sb, f);
    LookFacts(s, s, fs.sb, f);
    ghost var b := Content(Vol(s, fs.sb), f, s.inodes[f].size);
    ghost var easy := InSight(fs, f, Str(name), at);
    var off: nat := 0;
    while off < fs.inodes[f].size
      invariant off % DESIZE == 0 && Looking(s, fs.St(), fs.sb, f) && f < |fs.inodes| && |fs.inodes| == |s.inodes|
      invariant fs.inodes[f].size == s.inodes[f].size <= MAXBYTES && fs.inodes[f].kind == T_DIR
      invariant off <= s.inodes[f].size
      invariant forall j: nat :: j < off / DESIZE && j < Entries(b) ==> !Matches(b, j, Str(name))
      invariant easy ==> fs.St() == s && off / DESIZE <= at
      decreases s.inodes[f].size - off
    {
      if easy {
        CoversPart(Vol(s, fs.sb), f, 0, DESIZE * (at + 1), off, off + DESIZE);
      }
      var ok, de := ReadEntry(fs, f, off, s);
      if !ok {
        return Panicked;
      }
      EntryIs(de);
      if (de[0] as int) + 0x100 * (de[1] as int) != 0 {
        var same := Namecmp(name, de[2..]);
        if same {
          return Found((de[0] as int) + 0x100 * (de[1] as int), off / DESIZE);
        }
      }
      off := off + DESIZE;
    }
    return Missing;
  }

  datatype Link = Linked(k: nat) | Exists | LinkPanicked

  /** Every entry before k is in use. */
  ghost predicate AllInUse(b: seq<Byte>, k: nat) {
    forall j: nat :: j < k && j < Entries(b) ==> Inum(b, j) != 0
  }

  /** Every other file has its inode and its bytes. */
  ghost predicate OthersKept(s: State, s': State, sb: Super, f: nat) {
    && |s'.inodes| == |s.inodes|
    && forall g :: 0 <= g < |s.inodes| && g != f ==>
         s'.inodes[g] == s.inodes[g] && forall n :: 0 <= n <= MAXBYTES ==> Content(Vol(s', sb), g, n) == Content(Vol(s, sb), g, n)
  }

  /**
   dirlink: the name goes into the first entry not in use, or to the end; a name that is there already is
   refused.  No byte of any other file changes.
   */
  method Dirlink(fs: FileSystem, f: nat, name: seq<Byte>, inum: Half) returns (r: Link)
    requires Ok(fs.St(), fs.sb) && f < |fs.inodes| && |name| == DIRSIZ
    modifies fs
    ensures r.Exists? ==> old(fs.inodes[f].size) <= MAXBYTES && !Absent(old(Listing(fs, f)), Str(name)) && Looking(old(fs.St()), fs.St(), fs.sb, f)
    ensures r.Linked? ==> old(fs.inodes[f].size) <= MAXBYTES && old(fs.inodes[f].size) % DESIZE == 0 && old(fs.inodes[f].kind) == T_DIR
    ensures r.Linked? ==> var b := old(Listing(fs, f));
                          && Absent(b, Str(name)) && AllInUse(b, r.k) && r.k <= Entries(b) && (r.k < Entries(b) ==> Inum(b, r.k) == 0)
                          && |fs.inodes| == old(|fs.inodes|) && fs.inodes[f].size <= MAXBYTES && fs.inodes[f].kind == T_DIR
                          && Listing(fs, f) == WithEntry(b, r.k, Dirent(inum, Padded(name))) && Ok(fs.St(), fs.sb)
    ensures r.Linked? ==> OthersKept(old(fs.St()), fs.St(), fs.sb, f)
    ensures r.LinkPanicked? ==> old(fs.inodes[f].kind) != T_DIR || old(fs.inodes[f].size) % DESIZE != 0
                                || AllUsed(fs.disk, fs.sb) || old(fs.inodes[f].size) + DESIZE > MAXBYTES
  {
    hide Ok, AllUsed, Vol, ByteAt, Covers, Content, Looking, Str, Inum, Name, Written, Matches, WithEntry, Dirent, Padded, OthersKept;
    ghost var s := fs.St();
    LookStart(s, fs.sb, f);
    LookFacts(s, s, fs.sb, f);
    ghost var b := Content(Vol(s, fs.sb), f, s.inodes[f].size);
    var found := Dirlookup(fs, f, name, 0);
    if found.Panicked? {
      return LinkPanicked;
    }
    if found.Found? {
      return Exists;
    }
    LookFacts(s, fs.St(), fs.sb, f);
    var off: nat := 0;
    while off < fs.inodes[f].size
      invariant off % DESIZE == 0 && Looking(s, fs.St(), fs.sb, f) && f < |fs.inodes| && |fs.inodes| == |s.inodes|
      invariant fs.inodes[f].size == s.inodes[f].size <= MAXBYTES && fs.inodes[f].kind == T_DIR && AllInUse(b, off / DESIZE)
      invariant off <= fs.inodes[f].size
      decreases s.inodes[f].size - off
    {
      var ok, de := ReadEntry(fs, f, off, s);
      if !ok {
        return LinkPanicked;
      }
      EntryIs(de);
      if (de[0] as int) + 0x100 * (de[1] as int) == 0 {
        break;
      }
      off := off + DESIZE;
    }
    ghost var s1 := fs.St();
    LookFacts(s, s1, fs.sb, f);
    var io := fs.Writei(f, Dirent(inum, Padded(name)), off);
    if io != Count(DESIZE) {
      return LinkPanicked;
    }
    assert off == DESIZE * (off / DESIZE);
    LinkWritten(s, s1, fs.St(), fs.sb, f, off / DESIZE, Dirent(inum, Padded(name)));
    return Linked(off / DESIZE);
  }

  /** What the write makes of the listing, and of every other file. */
  lemma LinkWritten(s: State, s1: State, s2: State, sb: Super, f: nat, k: nat, e: seq<Byte>)
    requires Looking(s, s1, sb, f) && f < |s.inodes| && Written(s1, s2, sb, f, DESIZE * k, e) && |e| == DESIZE
    requires s.inodes[f].size % DESIZE == 0 && DESIZE * k <= s.inodes[f].size && DESIZE * (k + 1) <= MAXBYTES
    ensures var b := Content(Vol(s, sb), f, s.inodes[f].size);
            && k <= Entries(b) && |s2.inodes| == |s.inodes| && s2.inodes[f].size <= MAXBYTES && s2.inodes[f].kind == s.inodes[f].kind
            && Content(Vol(s2, sb), f, s2.inodes[f].size) == WithEntry(b, k, e) && Ok(s2, sb)
    ensures OthersKept(s, s2, sb, f)
  {
    hide Ok, Content, Edited, Covers, HasRoots, Synced;
    LookFacts(s, s1, sb, f);
    EditedContent(Vol(s1, sb), Vol(s2, sb), f, DESIZE * k, e, s.inodes[f].size);
    assert OthersKept(s1, s2, sb, f);
    LookOthers(s, s1, sb, f);
    OthersTwice(s, s1, s2, sb, f);
    hide OthersKept;
    var b := Content(Vol(s, sb), f, s.inodes[f].size);
    assert Entries(b) * DESIZE == |b|;
    if k == Entries(b) {
      assert b[..DESIZE * k] == b;
    }
  }

  lemma OthersTwice(s: State, s1: State, s2: State, sb: Super, f: nat)
    requires OthersKept(s, s1, sb, f) && OthersKept(s1, s2, sb, f)
    ensures OthersKept(s, s2, sb, f)
  {
    hide Content, Vol;
  }

  lemma LookOthers(s: State, s1: State, sb: Super, f: nat)
    requires Looking(s, s1, sb, f) && f < |s.inodes|
    ensures |s1.inodes| == |s.inodes|
    ensures OthersKept(s, s1, sb, f)
  {
    hide Ok, Content, Vol;
    EditedContent(Vol(s, sb), Vol(s1, sb), f, 0, [], 0);
  }

  /** A name linked is found, under its inode. */
  method LinkThenFind(fs: FileSystem, f: nat, name: seq<Byte>, inum: Half) returns (l: Link, r: Lookup)
    requires Ok(fs.St(), fs.sb) && f < |fs.inodes| && |name| == DIRSIZ && inum != 0
    modifies fs
    ensures l.Linked? ==> (r.Found? && r.inum == inum && r.k == l.k) || AllUsed(fs.disk, fs.sb)
  {
    hide Ok, AllUsed, Looking, Content, Str, WithEntry, Dirent, Padded, Inum;
    ghost var b := if fs.inodes[f].size <= MAXBYTES then Listing(fs, f) else [];
    r := Missing;
    l := Dirlink(fs, f, name, inum);
    if !l.Linked? {
      return;
    }
    LinkThenLookup(b, l.k, inum, name, Str(name));
    ghost var c := Listing(fs, f);
    r := Dirlookup(fs, f, name, l.k);
    if r.Found? {
      OneFirst(c, l.k, r.k, Str(name));
    }
  }

  lemma OneFirst(b: seq<Byte>, j: nat, k: nat, s: seq<Byte>)
    requires IsFirst(b, j, s) && IsFirst(b, k, s)
    ensures j == k
  {
  }

  lemma EntryIs(de: seq<Byte>)
    requires |de| == DESIZE
    ensures Inum(de, 0) == (de[0] as int) + 0x100 * (de[1] as int)
  {
  }

  lemma CoversPart(v: Volume, f: nat, a: nat, b: nat, c: nat, d: nat)
    requires f < |v.files| && Covers(v, f, a, b) && a <= c && d <= b
    ensures Covers(v, f, c, d)
  {
    hide HasBlock;
  }
}
