/** src/mkfs.c: building an image, and what the kernel then finds on it. */
module Mkfs {
  import opened Blocks
  import opened FileTree
  import opened FileBytes
  import opened FsLayout
  import opened Dirents
  import opened FsState
  import opened MkfsState
  import opened MkfsFiles

  function SuperBlock(size: Word, nblocks: Word, ninodes: Word, nlog: Word): (r: Block)
    ensures GetWord(r, 0) == size && GetWord(r, 1) == nblocks && GetWord(r, 2) == ninodes && GetWord(r, 3) == nlog
  {
    PutWords(ZeroBlock(), 0, [size, nblocks, ninodes, nlog])
  }

  /** One block of the bitmap, its first n bits set. */
  method BitmapBlock(n: nat) returns (buf: Block)
    requires n <= BPB
    ensures forall i: nat :: i < BPB ==> (GetBit(buf, i) <==> i < n)
  {
    hide GetBit, PutBit;
    buf := ZeroBlock();
    ZeroBlockBits();
    var i := 0;
    while i < n
      invariant 0 <= i <= n
      invariant forall k: nat :: k < BPB ==> (GetBit(buf, k) <==> k < i)
    {
      buf := PutBit(buf, i, true);
      i := i + 1;
    }
  }

  ghost predicate BlockBits(blk: Block, from: nat, used: nat) {
    forall i: nat :: i < BPB ==> (GetBit(blk, i) <==> from + i < used)
  }

  /** Bitmap block j is done when it has the bits of the first `used` blocks. */
  ghost predicate BlockDone(d: Disk, sb: Super, used: nat, j: nat) {
    BitStart(sb.ninodes) + j < |d| && BlockBits(d[BitStart(sb.ninodes) + j], j * BPB, used)
  }

  lemma BlocksDone(d: Disk, sb: Super, used: nat)
    requires forall j: nat :: j <= sb.size / BPB ==> BlockDone(d, sb, used, j)
    ensures forall b: nat :: b < sb.size ==> (Bit(d, sb.ninodes, b) <==> b < used)
  {
    hide GetBit;
    forall b: nat | b < sb.size ensures Bit(d, sb.ninodes, b) <==> b < used {
      assert BlockDone(d, sb, used, b / BPB);
      assert b / BPB * BPB + b % BPB == b;
    }
  }

  /** A program to install: its name, padded, and what successive reads of it return. */
  datatype Prog = Prog(name: seq<Byte>, chunks: seq<seq<Byte>>)

  function Flat(chunks: seq<seq<Byte>>): (r: seq<Byte>) {
    if chunks == [] then [] else Flat(chunks[..|chunks| - 1]) + chunks[|chunks| - 1]
  }

  predicate Named(progs: seq<Prog>) {
    forall i :: 0 <= i < |progs| ==> |progs[i].name| == DIRSIZ
  }

  function Dots(n: nat): (r: seq<Byte>)
    requires n <= DIRSIZ
    ensures |r| == DIRSIZ
  {
    seq(n, _ => 46) + seq(DIRSIZ - n, _ => 0)
  }

  /** The root directory: itself, itself again as its parent, then one entry per program in order. */
  function RootEntries(progs: seq<Prog>): (r: seq<Byte>)
    requires Named(progs) && |progs| < 0xFFFE
    ensures |r| == 32 * (|progs| + 2)
  {
    if progs == [] then Dirent(ROOTINO, Dots(1)) + Dirent(ROOTINO, Dots(2))
    else RootEntries(progs[..|progs| - 1]) + Dirent(|progs| + 1, progs[|progs| - 1].name)
  }

  /** The files of the image, by inode number. */
  function Installed(progs: seq<Prog>): (r: seq<seq<Byte>>)
    requires Named(progs) && |progs| < 0xFFFE
    ensures |r| == |progs| + 2
    ensures r[ROOTINO] == RootEntries(progs)
    ensures forall i :: 0 <= i < |progs| ==> r[i + 2] == Flat(progs[i].chunks)
  {
    if progs == [] then [[], RootEntries([])]
    else Installed(progs[..|progs| - 1])[ROOTINO := RootEntries(progs)] + [Flat(progs[|progs| - 1].chunks)]
  }

  /** The first block of file i is block a. */
  ghost predicate FirstAt(d: Disk, i: nat, a: int) {
    IBlock(i) < |d| && DiskInode(d, i).addrs.at[0] == a
  }

  class Image {
    var d: Disk
    var freeinode: nat
    var freeblock: nat
    var usedblocks: nat
    ghost var files: seq<seq<Byte>>
    ghost var kinds: seq<Half>
    ghost const sb: Super

    ghost predicate Valid()
      reads this
    {
      && Holds(d, freeblock, files, sb) && usedblocks == freeblock && freeinode == |files| && 0 < freeinode
      && |kinds| == |files| && KindsAre(d, kinds)
    }

    /** The image between rinode and winode: din is the in-memory copy of inode inum. */
    ghost function Held(inum: nat, din: Dinode, inos: seq<Inode>): (m: Mk)
      requires inum < |inos|
      reads this
    {
      Mk(d, inos[inum := din.addrs], freeblock)
    }

    /** Slot i of the in-memory inode, filled with the next block if it is 0. */
    method RootSlot(inum: nat, din: Dinode, i: nat, ghost p: Pos, ghost inos: seq<Inode>) returns (ok: bool, din': Dinode, x: Word)
      requires inum < |inos| && Core(Held(inum, din, inos), sb) && usedblocks == freeblock && OkPos(p) && IsRoot(p) && Slot(p) == i
      modifies `freeblock, `usedblocks
      ensures usedblocks == freeblock && din' == din.(addrs := din'.addrs)
      ensures ok ==> Walked(old(Held(inum, din, inos)), Held(inum, din', inos), sb, inum, {p}, p, x)
      ensures !ok ==> freeblock > sb.size
      ensures freeblock == old(freeblock) + (if din.addrs.at[i] == 0 then 1 else 0)
      ensures ok <==> din.addrs.at[i] != 0 || old(freeblock) < sb.size
      ensures ok && din.addrs.at[i] == 0 ==> din'.addrs.at[i] == old(freeblock)
    {
      hide Core, Walked;
      ghost var m := Held(inum, din, inos);
      CoreFacts(m, sb);
      din' := din;
      if din.addrs.at[i] != 0 {
        StayWalked(m, sb, inum, p);
        return true, din, din.addrs.at[i];
      }
      ok := freeblock < |d|;
      if ok {
        PlantWalked(m, sb, inum, p);
        PlantedDisk(m, sb, inum, p);
        x := freeblock;
        din' := din.(addrs := Addrs(din.addrs.at[i := x]));
        assert Planted(m, inum, p).inos == inos[inum := din'.addrs];
      } else {
        x := 0;
      }
      freeblock, usedblocks := freeblock + 1, usedblocks + 1;
    }

    /** Entry j of indirect block a, filled with the next block if it is 0. */
    method ChildSlot(inum: nat, din: Dinode, a: Word, j: nat, ghost p: Pos, ghost inos: seq<Inode>) returns (ok: bool, x: Word)
      requires inum < |inos| && Core(Held(inum, din, inos), sb) && usedblocks == freeblock && OkPos(p) && !IsRoot(p) && Slot(p) == j
      requires a == Node(d, din.addrs, Parent(p)) && 0 < a < |d|
      modifies `d, `freeblock, `usedblocks
      ensures usedblocks == freeblock
      ensures ok ==> Walked(old(Held(inum, din, inos)), Held(inum, din, inos), sb, inum, {p}, p, x)
      ensures !ok ==> freeblock > sb.size
    {
      hide Core, Walked, GetWord, SetWord;
      ghost var m := Held(inum, din, inos);
      CoreFacts(m, sb);
      var indirect := d[a];
      if GetWord(indirect, j) != 0 {
        StayWalked(m, sb, inum, p);
        return true, GetWord(indirect, j);
      }
      ok := freeblock < |d|;
      if ok {
        PlantWalked(m, sb, inum, p);
        PlantedDisk(m, sb, inum, p);
        x := freeblock;
        d := d[a := SetWord(indirect, j, x)];
        assert Planted(m, inum, p).inos == m.inos;
      } else {
        x := 0;
      }
      freeblock, usedblocks := freeblock + 1, usedblocks + 1;
    }

    /** The address of block fbn of the in-memory inode, allocating what is missing on the way. */
    method Walk(inum: nat, din: Dinode, fbn: nat, ghost inos: seq<Inode>) returns (ok: bool, din': Dinode, x: Word)
      requires inum < |inos| && Core(Held(inum, din, inos), sb) && usedblocks == freeblock && fbn < MAXFILE
      modifies `d, `freeblock, `usedblocks
      ensures usedblocks == freeblock && din' == din.(addrs := din'.addrs)
      ensures ok ==> Walked(old(Held(inum, din, inos)), Held(inum, din', inos), sb, inum, PathTo(LeafOf(fbn)), LeafOf(fbn), x)
      ensures !ok ==> freeblock > sb.size
      ensures fbn < NDIRECT ==> freeblock == old(freeblock) + (if din.addrs.at[fbn] == 0 then 1 else 0)
                                && (ok <==> din.addrs.at[fbn] != 0 || old(freeblock) < sb.size)
                                && (ok && din.addrs.at[fbn] == 0 ==> din'.addrs.at[fbn] == old(freeblock))
    {
      hide Core, Walked, Node;
      ghost var m := Held(inum, din, inos);
      if fbn < NDIRECT {
        ok, din', x := RootSlot(inum, din, fbn, Direct(fbn), inos);
        return;
      }
      if fbn < NDIRECT + NINDIRECT {
        var j := fbn - NDIRECT;
        ok, din', x := RootSlot(inum, din, NDIRECT, IndRoot, inos);
        if !ok { return; }
        ghost var m1, a := Held(inum, din', inos), x;
        WalkedFacts(m, m1, sb, inum, {IndRoot}, IndRoot, x);
        ok, x := ChildSlot(inum, din', x, j, IndLeaf(j), inos);
        if !ok { return; }
        WalkedThen(m, m1, Held(inum, din', inos), sb, inum, {IndRoot}, IndRoot, a, IndLeaf(j), x);
        return;
      }
      var k := fbn - NDIRECT - NINDIRECT;
      assert LeafOf(fbn) == DblLeaf(k / NINDIRECT, k % NINDIRECT);
      ok, din', x := DoubleWalk(inum, din, k, inos);
    }

    method DoubleWalk(inum: nat, din: Dinode, k: nat, ghost inos: seq<Inode>) returns (ok: bool, din': Dinode, x: Word)
      requires inum < |inos| && Core(Held(inum, din, inos), sb) && usedblocks == freeblock && k < NINDIRECT * NINDIRECT
      modifies `d, `freeblock, `usedblocks
      ensures usedblocks == freeblock && din' == din.(addrs := din'.addrs)
      ensures ok ==> var p := DblLeaf(k / NINDIRECT, k % NINDIRECT);
                     Walked(old(Held(inum, din, inos)), Held(inum, din', inos), sb, inum, PathTo(p), p, x)
      ensures !ok ==> freeblock > sb.size
    {
      hide Core, Walked, Node;
      ghost var m, mid, leaf := Held(inum, din, inos), DblMid(k / NINDIRECT), DblLeaf(k / NINDIRECT, k % NINDIRECT);
      ok, din', x := RootSlot(inum, din, NDIRECT + 1, DblRoot, inos);
      if !ok { return; }
      ghost var m1, a := Held(inum, din', inos), x;
      WalkedFacts(m, m1, sb, inum, {DblRoot}, DblRoot, x);
      ok, x := ChildSlot(inum, din', x, k / NINDIRECT, mid, inos);
      if !ok { return; }
      ghost var m2, b := Held(inum, din', inos), x;
      WalkedThen(m, m1, m2, sb, inum, {DblRoot}, DblRoot, a, mid, x);
      WalkedFacts(m, m2, sb, inum, {DblRoot} + {mid}, mid, x);
      ok, x := ChildSlot(inum, din', x, k % NINDIRECT, leaf, inos);
      if !ok { return; }
      WalkedThen(m, m2, Held(inum, din', inos), sb, inum, {DblRoot} + {mid}, mid, b, leaf, x);
    }

    /** iappend: xs at the end of file inum; it gives up when the file or the image is full. */
    method Iappend(inum: nat, xs: seq<Byte>) returns (ok: bool)
      requires Valid() && inum < |files|
      modifies this
      ensures ok ==> Valid() && files == old(files)[inum := old(files[inum]) + xs]
      ensures !ok ==> |old(files[inum])| + |xs| > MAXBYTES || freeblock > sb.size
      ensures 0 < |xs| <= BSIZE - |old(files[inum])| ==>
                && freeblock == old(freeblock) + (if |old(files[inum])| == 0 then 1 else 0)
                && (ok <==> |old(files[inum])| > 0 || old(freeblock) < sb.size)
                && (ok && |old(files[inum])| == 0 ==> FirstAt(d, inum, old(freeblock)))
      ensures freeinode == old(freeinode) && kinds == old(kinds)
    {
      hide Core, Holds, KindsAre, Walked, Turned, Appending, DiskInode, Load, Maps;
      ghost var d0, free0, bytes := d, freeblock, files[inum];
      HoldsFacts(d, freeblock, files, sb, inum);
      ghost var inos := Cur(d, freeblock, sb).inos;
      var din := DiskInode(d, inum);
      ghost var new1 := if |bytes| == 0 then 1 else 0;
      FirstBlock(d, freeblock, files, sb, inum);
      var off, n := din.size, 0;
      assert inos[inum := din.addrs] == inos && xs[..0] == [];
      AppendStart(Cur(d, freeblock, sb), sb, inum, off);
      while n < |xs|
        invariant 0 <= n <= |xs| && off == |bytes| + n <= MAXBYTES && usedblocks == freeblock
        invariant files == old(files) && freeinode == old(freeinode) && kinds == old(kinds)
        invariant din.kind == DiskInode(d0, inum).kind && din.nlink == DiskInode(d0, inum).nlink
        invariant |xs| <= BSIZE - |bytes| ==>
                    if n == 0 then freeblock == free0 && (din.addrs.at[0] == 0 <==> |bytes| == 0)
                    else n == |xs| && freeblock == free0 + new1 && (|bytes| > 0 || (free0 < sb.size && din.addrs.at[0] == free0))
        invariant Appending(Cur(d0, free0, sb), Held(inum, din, inos), sb, inum, |bytes|, xs[..n])
      {
        var fbn := off / BSIZE;
        if fbn >= MAXFILE {
          return false;
        }
        ghost var m := Held(inum, din, inos);
        AppendingFacts(Cur(d0, free0, sb), m, sb, inum, |bytes|, xs[..n]);
        var x;
        ok, din, x := Walk(inum, din, fbn, inos);
        if !ok { return; }
        var n1 := if |xs| - n < (fbn + 1) * BSIZE - off then |xs| - n else (fbn + 1) * BSIZE - off;
        WalkThenPatch(m, Held(inum, din, inos), sb, inum, PathTo(LeafOf(fbn)), off, x, xs[n..n + n1]);
        d := d[x := Patch(d[x], off - fbn * BSIZE, xs[n..n + n1])];
        AppendOn(Cur(d0, free0, sb), m, Held(inum, din, inos), sb, inum, |bytes|, xs[..n], xs[n..n + n1]);
        assert xs[..n] + xs[n..n + n1] == xs[..n + n1];
        n, off := n + n1, off + n1;
      }
      assert xs[..n] == xs;
      din := din.(size := off);
      AppendDone(d0, free0, files, Held(inum, din, inos), sb, inum, xs, din);
      d := StoreInode(d, inum, din);
      KindsKept(d0, d, kinds, sb, inum, din);
      files := files[inum := files[inum] + xs];
      return true;
    }

    /** main's start: a zeroed image with its super block, no file but the unused inode 0. */
    constructor (size: Word, nblocks: Word, ninodes: Word, nlog: Word)
      requires Geometry(size, ninodes) && 0 < ninodes
      ensures Valid() && sb == Super(size, nblocks, ninodes, nlog) && files == [[]] && freeinode == 1 && freeblock == DataStart(size, ninodes) && kinds == [0]
    {
      hide Holds, SuperBlock, GetWord, KindsAre;
      var buf := SuperBlock(size, nblocks, ninodes, nlog);
      var bitblocks := size / BPB + 1;
      d := seq(size, _ => ZeroBlock())[1 := buf];
      freeinode := 1;
      freeblock, usedblocks := ninodes / IPB + 3 + bitblocks, ninodes / IPB + 3 + bitblocks;
      files, kinds := [[]], [0];
      sb := Super(size, nblocks, ninodes, nlog);
      new;
      StartHolds(d, sb, buf);
    }

    /** ialloc: the next inode, with one link and no bytes. */
    method Ialloc(kind: Half) returns (inum: nat)
      requires Valid() && freeinode < sb.ninodes
      modifies this
      ensures Valid() && inum == old(freeinode) && files == old(files) + [[]] && freeinode == inum + 1
      ensures freeblock == old(freeblock) && kinds == old(kinds) + [kind]
    {
      hide Holds, DiskInode, StoreInode;
      inum := freeinode;
      freeinode := freeinode + 1;
      var din := Dinode(kind, 0, 0, 1, 0, NoAddrs());
      AllocDone(d, freeblock, files, sb, din);
      d := StoreInode(d, inum, din);
      files, kinds := files + [[]], kinds + [kind];
    }

    /** balloc: the bitmap, block by block, with the first `used` bits set and no other. */
    method WriteBitmap(used: nat, ninodes: nat)
      requires |d| == sb.size && ninodes == sb.ninodes && Geometry(sb.size, sb.ninodes) && used <= sb.size
      requires forall x :: BitStart(sb.ninodes) <= x < DataStart(sb.size, sb.ninodes) ==> d[x] == ZeroBlock()
      modifies `d
      ensures SameButBitmap(old(d), d, sb)
      ensures forall b: nat :: b < sb.size ==> (Bit(d, sb.ninodes, b) <==> b < used)
    {
      hide Bit, GetBit, BlockBits;
      var left, j := used, 0;
      while left > 0
        invariant 0 <= j <= sb.size / BPB + 1 && left == used - j * BPB && left > -BPB
        invariant SameButBitmap(old(d), d, sb)
        invariant forall k: nat :: k < j ==> BlockDone(d, sb, used, k)
        invariant forall x :: BitStart(sb.ninodes) + j <= x < DataStart(sb.size, sb.ninodes) ==> d[x] == ZeroBlock()
        decreases left
      {
        var temp := if left > 4096 then 4096 else left;
        var buf := BitmapBlock(temp);
        BlockFilled(buf, j, temp, used);
        left := left - 4096;
        ghost var d1 := d;
        d := d[ninodes / IPB + 3 + j := buf];
        forall k: nat | k < j + 1 ensures BlockDone(d, sb, used, k) {
          assert k < j ==> BlockDone(d1, sb, used, k);
        }
        j := j + 1;
      }
      forall k: nat | k <= sb.size / BPB ensures BlockDone(d, sb, used, k) {
        if k >= j {
          BlankBits(k, used);
        }
      }
      BlocksDone(d, sb, used);
    }

    /** main's end: the root directory's size rounded up, and the bitmap. */
    method Finish(ninodes: nat)
      requires Valid() && ROOTINO < |files| && Rounded(|files[ROOTINO]|) <= MAXBYTES && ninodes == sb.ninodes
      modifies this
      ensures files == old(files) && freeblock == old(freeblock) && Mounts(d, freeblock, files, sb)
      ensures kinds == old(kinds) && KindsAre(d, kinds)
      ensures forall i: nat :: i < sb.ninodes && i != ROOTINO ==>
                IBlock(i) < |d| == |old(d)| && DiskInode(d, i) == DiskInode(old(d), i)
    {
      hide Core, KindsAre, DiskInode, StoreInode, Bit, FileIs, SameButBitmap, Mounts, Blank;
      HoldsFacts(d, freeblock, files, sb, ROOTINO);
      ghost var d0 := d;
      var din := DiskInode(d, ROOTINO);
      var off := (din.size / BSIZE + 1) * BSIZE;
      SizeDone(d, freeblock, files, sb, ROOTINO, off);
      d := StoreInode(d, ROOTINO, din.(size := off));
      KindsKept(d0, d, kinds, sb, ROOTINO, din.(size := off));
      BlankFacts(Cur(d, freeblock, sb), sb);
      ghost var d1 := d;
      WriteBitmap(usedblocks, ninodes);
      KindsSame(d1, d, kinds, sb);
      FinishMounts(d0, freeblock, files, sb, off, d);
      InodesSame(d1, d, sb);
    }

    /** The copying loop of main: each chunk read, appended. */
    method AppendAll(inum: nat, chunks: seq<seq<Byte>>) returns (ok: bool)
      requires Valid() && inum < |files| && files[inum] == []
      modifies this
      ensures ok ==> Valid() && files == old(files)[inum := Flat(chunks)] && kinds == old(kinds)
      ensures !ok ==> freeblock > sb.size || |Flat(chunks)| > MAXBYTES
      ensures |chunks| == 1 && 0 < |chunks[0]| <= BSIZE ==>
                && freeblock == old(freeblock) + 1 && (ok <==> old(freeblock) < sb.size) && (ok ==> FirstAt(d, inum, old(freeblock)))
    {
      hide Holds, KindsAre, FirstAt;
      var c := 0;
      ok := true;
      while c < |chunks|
        invariant 0 <= c <= |chunks| && Valid() && ok && files == old(files)[inum := Flat(chunks[..c])] && kinds == old(kinds)
        invariant |chunks| == 1 && 0 < |chunks[0]| <= BSIZE ==>
                    if c == 0 then freeblock == old(freeblock)
                    else freeblock == old(freeblock) + 1 && old(freeblock) < sb.size && FirstAt(d, inum, old(freeblock))
      {
        assert chunks[..c + 1][..c] == chunks[..c];
        FlatPrefix(chunks, c + 1);
        ok := Iappend(inum, chunks[c]);
        if !ok { return; }
        c := c + 1;
      }
      assert chunks[..c] == chunks;
    }

    /** main's loop body: one program, its directory entry and its bytes. */
    method Install(prog: Prog, ghost done: seq<Prog>) returns (ok: bool)
      requires Valid() && Named(done) && |done| < 0xFFFD && files == Installed(done) && freeinode < sb.ninodes && |prog.name| == DIRSIZ
      modifies this
      ensures ok ==> Valid() && Named(done + [prog]) && files == Installed(done + [prog]) && kinds == old(kinds) + [T_FILE]
      ensures !ok ==> freeblock > sb.size || |RootEntries(done)| + 32 > MAXBYTES || |Flat(prog.chunks)| > MAXBYTES
      ensures |RootEntries(done)| + 32 <= BSIZE && |prog.chunks| == 1 && 0 < |prog.chunks[0]| <= BSIZE ==>
                && freeblock == old(freeblock) + 1 && (ok <==> old(freeblock) < sb.size)
                && (ok ==> FirstAt(d, |done| + 2, old(freeblock)))
    {
      hide Holds, KindsAre, Installed, RootEntries, Dirent, Flat, FirstAt;
      InstalledNext(done, prog);
      var inum := Ialloc(T_FILE);
      ok := Iappend(ROOTINO, Dirent(inum, prog.name));
      if !ok { return; }
      ok := AppendAll(inum, prog.chunks);
    }

    /** The root directory with its two entries for itself. */
    method MakeRoot() returns (ok: bool)
      requires Valid() && files == [[]] && kinds == [0] && 1 < sb.ninodes
      modifies this
      ensures ok ==> Valid() && files == Installed([]) && kinds == KindList(2)
      ensures !ok ==> freeblock > sb.size
      ensures freeblock == old(freeblock) + 1 && (ok <==> old(freeblock) < sb.size)
    {
      hide Holds, KindsAre;
      var rootino := Ialloc(T_DIR);
      ok := Iappend(rootino, Dirent(rootino, Dots(1)));
      if !ok { return; }
      ok := Iappend(rootino, Dirent(rootino, Dots(2)));
      if !ok { return; }
      assert [] + Dirent(rootino, Dots(1)) == Dirent(rootino, Dots(1));
      assert files == [[], RootEntries([])];
    }

    method InstallAll(progs: seq<Prog>) returns (ok: bool)
      requires Valid() && Named(progs) && |progs| < 0xFFFE && |progs| + 2 <= sb.ninodes && files == Installed([]) && kinds == KindList(2)
      modifies this
      ensures ok ==> Valid() && files == Installed(progs) && kinds == KindList(|progs| + 2)
      ensures ok ==> ROOTINO < |files| && Rounded(|files[ROOTINO]|) <= MAXBYTES
      ensures !ok ==> freeblock > sb.size || exists i :: 0 <= i < |progs| && |Flat(progs[i].chunks)| > MAXBYTES
      ensures progs == [] ==> ok && freeblock == old(freeblock)
    {
      hide Holds, KindsAre, Installed, RootEntries;
      assert progs[..0] == [];
      var i := 0;
      ok := true;
      while i < |progs|
        invariant 0 <= i <= |progs| && Valid() && files == Installed(progs[..i]) && kinds == KindList(i + 2) && ok
        invariant i == 0 ==> freeblock == old(freeblock)
      {
        assert progs[..i] + [progs[i]] == progs[..i + 1];
        ok := Install(progs[i], progs[..i]);
        if !ok { return; }
        i := i + 1;
      }
      assert progs[..i] == progs;
    }
  }

  lemma {:induction false} EntriesNext(done: seq<Prog>, prog: Prog)
    requires Named(done) && |done| < 0xFFFD && |prog.name| == DIRSIZ
    ensures Named(done + [prog]) && RootEntries(done + [prog]) == RootEntries(done) + Dirent(|done| + 2, prog.name)
  {
    hide Dirent, Dots;
    assert (done + [prog])[..|done|] == done;
  }

  lemma {:induction false} InstalledNext(done: seq<Prog>, prog: Prog)
    requires Named(done) && |done| < 0xFFFD && |prog.name| == DIRSIZ
    ensures Named(done + [prog])
    ensures Installed(done + [prog])
              == (Installed(done) + [[]])[ROOTINO := RootEntries(done) + Dirent(|done| + 2, prog.name)][|done| + 2 := Flat(prog.chunks)]
  {
    hide Flat, Dirent, RootEntries;
    EntriesNext(done, prog);
    var all := done + [prog];
    assert all[..|all| - 1] == done;
    assert Installed(all) == Installed(done)[ROOTINO := RootEntries(all)] + [Flat(prog.chunks)];
  }

  function KindList(n: nat): (r: seq<Half>)
    ensures |r| == n
    ensures forall i :: 0 <= i < n ==> r[i] == if i == 0 then 0 else if i == ROOTINO then T_DIR else T_FILE
  {
    if n == 0 then [] else KindList(n - 1) + [if n == 1 then 0 else if n - 1 == ROOTINO then T_DIR else T_FILE]
  }

  lemma {:induction false} FlatPrefix(chunks: seq<seq<Byte>>, n: nat)
    requires n <= |chunks|
    ensures |Flat(chunks[..n])| <= |Flat(chunks)|
    decreases |chunks| - n
  {
    if n < |chunks| {
      FlatPrefix(chunks, n + 1);
      assert chunks[..n + 1][..n] == chunks[..n];
    } else {
      assert chunks[..n] == chunks;
    }
  }

  /** main: the whole image. Every program reads back as the bytes given, under the entry that names it. */
  method Build(size: Word, nblocks: Word, ninodes: Word, nlog: Word, progs: seq<Prog>) returns (ok: bool, img: Image)
    requires Geometry(size, ninodes) && |progs| + 2 <= ninodes && |progs| < 0xFFFE && Named(progs)
    ensures ok ==> img.sb == Super(size, nblocks, ninodes, nlog) && img.files == Installed(progs) && Mounts(img.d, img.freeblock, img.files, img.sb)
    ensures ok ==> KindsAre(img.d, KindList(|progs| + 2))
    ensures !ok ==> img.freeblock > size || exists i :: 0 <= i < |progs| && |Flat(progs[i].chunks)| > MAXBYTES
    ensures progs == [] ==> img.freeblock == DataStart(size, ninodes) + 1 && (ok <==> DataStart(size, ninodes) < size)
  {
    hide Image.Valid, Mounts, KindsAre, Installed, RootEntries, KindList;
    img := new Image(size, nblocks, ninodes, nlog);
    ok := img.MakeRoot();
    if !ok { return; }
    ok := img.InstallAll(progs);
    if !ok { return; }
    img.Finish(ninodes);
  }

  lemma BlankFacts(m: Mk, sb: Super)
    requires Core(m, sb)
    ensures |m.d| == sb.size && Geometry(sb.size, sb.ninodes) && m.free <= sb.size
    ensures forall x :: BitStart(sb.ninodes) <= x < DataStart(sb.size, sb.ninodes) ==> m.d[x] == ZeroBlock()
  {
  }

  lemma BlockFilled(buf: Block, j: nat, n: nat, used: nat)
    requires forall i: nat :: i < BPB ==> (GetBit(buf, i) <==> i < n)
    requires n == if used - j * BPB > BPB then BPB else used - j * BPB
    ensures BlockBits(buf, j * BPB, used)
  {
    hide GetBit;
  }

  lemma BlankBits(j: nat, used: nat)
    requires used <= j * BPB
    ensures BlockBits(ZeroBlock(), j * BPB, used)
  {
    hide GetBit;
    ZeroBlockBits();
  }

  lemma StartHolds(d: Disk, sb: Super, buf: Block)
    requires Geometry(sb.size, sb.ninodes) && |d| == sb.size && 0 < sb.ninodes
    requires d[1] == buf && GetWord(buf, 0) == sb.size && GetWord(buf, 1) == sb.nblocks
    requires GetWord(buf, 2) == sb.ninodes && GetWord(buf, 3) == sb.nlog
    requires forall x :: 0 <= x < |d| && x != 1 ==> d[x] == ZeroBlock()
    ensures Holds(d, DataStart(sb.size, sb.ninodes), [[]], sb) && KindsAre(d, [0])
  {
    hide GetWord, GetDinode, FileIs;
    var m := Cur(d, DataStart(sb.size, sb.ninodes), sb);
    var v := MkVol(m, sb);
    forall i: nat | i < sb.ninodes ensures DiskInode(d, i) == BlankInode() {
      BlankBlock(i % IPB);
    }
    forall i | 0 <= i < |v.files| ensures FileIs(v, i, []) {
      NoAddrsEmpty(v, i);
    }
    forall f, p | 0 <= f < |v.files| && OkPos(p) ensures NodeOf(v, f, p) == 0 {
      NoAddrsNode(v, f, p);
    }
  }

  lemma BlankBlock(k: nat)
    requires k < IPB
    ensures GetDinode(ZeroBlock(), k) == BlankInode()
  {
    ZeroBlockWords();
    var ws := GetWords(ZeroBlock(), 16 * k, 16);
    hide GetWord, GetWords;
    assert ws[3..] == NoAddrs().at;
  }

  ghost predicate KindsAre(d: Disk, kinds: seq<Half>) {
    forall i :: 0 <= i < |kinds| ==> HasKind(d, i, kinds[i])
  }

  /** An inode of this kind, linked once if it is in use. */
  predicate HasKind(d: Disk, i: nat, kind: Half) {
    IBlock(i) < |d| && DiskInode(d, i).kind == kind && DiskInode(d, i).nlink == if i == 0 then 0 else 1
  }

  lemma KindsKept(d0: Disk, d: Disk, kinds: seq<Half>, sb: Super, f: nat, di: Dinode)
    requires KindsAre(d0, kinds) && |kinds| <= sb.ninodes && f < |kinds| && BitStart(sb.ninodes) <= |d0| == |d|
    requires forall g: nat :: g < sb.ninodes ==> IBlock(g) < BitStart(sb.ninodes)
    requires di.kind == DiskInode(d0, f).kind && di.nlink == DiskInode(d0, f).nlink
    requires forall g: nat :: g < sb.ninodes ==> DiskInode(d, g) == if g == f then di else DiskInode(d0, g)
    ensures KindsAre(d, kinds)
  {
    hide DiskInode, IBlock;
  }

  lemma InodesSame(d0: Disk, d: Disk, sb: Super)
    requires SameButBitmap(d0, d, sb) && BitStart(sb.ninodes) <= |d0|
    ensures |d| == |d0| && forall i: nat :: i < sb.ninodes ==> IBlock(i) < |d| && DiskInode(d, i) == DiskInode(d0, i)
  {
    hide GetDinode;
  }

  lemma KindsSame(d0: Disk, d: Disk, kinds: seq<Half>, sb: Super)
    requires KindsAre(d0, kinds) && |kinds| <= sb.ninodes && SameButBitmap(d0, d, sb)
    ensures KindsAre(d, kinds)
  {
    hide GetDinode;
    forall i | 0 <= i < |kinds| ensures HasKind(d, i, kinds[i]) {
      assert HasKind(d0, i, kinds[i]);
      assert IBlock(i) < BitStart(sb.ninodes);
      assert DiskInode(d, i) == DiskInode(d0, i);
    }
  }

  lemma WalkedFacts(m: Mk, m': Mk, sb: Super, f: nat, P: set<Pos>, p: Pos, x: Word)
    requires Walked(m, m', sb, f, P, p, x)
    ensures Core(m', sb) && f < |m'.inos| && OkPos(p) && x == Node(m'.d, m'.inos[f], p) && 0 < x < |m'.d|
  {
  }

  lemma HoldsFacts(d: Disk, free: nat, files: seq<seq<Byte>>, sb: Super, f: nat)
    requires Holds(d, free, files, sb) && f < |files|
    ensures BitStart(sb.ninodes) <= |d| && IBlock(f) < |d| && Core(Cur(d, free, sb), sb)
    ensures DiskInode(d, f).size == |files[f]| <= MAXBYTES && Cur(d, free, sb).inos[f] == DiskInode(d, f).addrs
    ensures |files| <= sb.ninodes
  {
    hide Core, DiskInode;
    assert FileIs(MkVol(Cur(d, free, sb), sb), f, files[f]);
  }

  /** A file has its first block as soon as it has a byte. */
  lemma FirstBlock(d: Disk, free: nat, files: seq<seq<Byte>>, sb: Super, f: nat)
    requires Holds(d, free, files, sb) && f < |files|
    ensures IBlock(f) < |d| && (DiskInode(d, f).addrs.at[0] == 0 <==> |files[f]| == 0)
  {
    hide Core, DiskInode, ByteAt;
    HoldsFacts(d, free, files, sb, f);
    var v := MkVol(Cur(d, free, sb), sb);
    assert FileIs(v, f, files[f]) && LeafOf(0) == Direct(0);
    assert HasBlock(v, f, 0) <==> |files[f]| > 0;
  }

  lemma AppendingFacts(m: Mk, m': Mk, sb: Super, f: nat, off: nat, done: seq<Byte>)
    requires Appending(m, m', sb, f, off, done)
    ensures Core(m', sb)
  {
  }
}
