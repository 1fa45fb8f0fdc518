/** Files as byte strings, on an image under construction and on the finished one. */
module MkfsFiles {
  import opened Blocks
  import opened FileTree
  import opened FileBytes
  import opened FsLayout
  import opened FsState
  import opened MkfsState

  const ROOTINO: nat := 1

  /** Every inode as rinode reads it. */
  ghost function Load(d: Disk, n: nat): (r: seq<Dinode>)
    requires BitStart(n) <= |d|
    ensures |r| == n
    ensures forall i :: 0 <= i < n ==> r[i] == DiskInode(d, i)
  {
    LoadTo(d, n, n)
  }

  ghost function LoadTo(d: Disk, n: nat, k: nat): (r: seq<Dinode>)
    requires BitStart(n) <= |d| && k <= n
    ensures |r| == k
    ensures forall i :: 0 <= i < k ==> r[i] == DiskInode(d, i)
  {
    if k == 0 then [] else LoadTo(d, n, k - 1) + [DiskInode(d, k - 1)]
  }

  ghost function Cur(d: Disk, free: nat, sb: Super): (m: Mk)
    requires BitStart(sb.ninodes) <= |d|
    ensures |m.inos| == sb.ninodes
  {
    Mk(d, Maps(Load(d, sb.ninodes)), free)
  }

  /** File i is exactly these bytes: nothing after them, every block of them there, and no block more. */
  ghost predicate FileIs(v: Volume, i: nat, bytes: seq<Byte>)
    requires i < |v.files|
  {
    && |bytes| <= MAXBYTES && Covers(v, i, 0, |bytes|)
    && (forall o :: 0 <= o < MAXBYTES ==> ByteAt(v, i, o) == if o < |bytes| then bytes[o] else 0)
    && (forall o :: 0 <= o < MAXBYTES && HasBlock(v, i, o) ==> o / BSIZE * BSIZE < |bytes|)
  }

  /** The image stores these files, by inode number; later inodes are blank. */
  ghost predicate Stores(d: Disk, free: nat, files: seq<seq<Byte>>, sb: Super) {
    && BitStart(sb.ninodes) <= |d| && Core(Cur(d, free, sb), sb) && |files| <= sb.ninodes
    && (forall i :: 0 <= i < |files| ==> FileIs(MkVol(Cur(d, free, sb), sb), i, files[i]))
    && (forall i :: |files| <= i < sb.ninodes ==> DiskInode(d, i) == BlankInode())
  }

  /** It also records their sizes. */
  ghost predicate Holds(d: Disk, free: nat, files: seq<seq<Byte>>, sb: Super) {
    && Stores(d, free, files, sb)
    && forall i :: 0 <= i < |files| ==> DiskInode(d, i).size == |files[i]|
  }

  lemma NoAddrsEmpty(v: Volume, i: nat)
    requires i < |v.files| && v.files[i] == NoAddrs()
    ensures FileIs(v, i, [])
  {
    forall o | 0 <= o < MAXBYTES ensures !HasBlock(v, i, o) && ByteAt(v, i, o) == 0 {
      NoAddrsNode(v, i, LeafOf(o / BSIZE));
    }
  }

  /** Blocks present in v' were present in v or are within the first n bytes of file f. */
  ghost predicate NoMoreBlocks(v: Volume, v': Volume, f: nat, n: nat) {
    && |v'.files| == |v.files|
    && forall g, o :: 0 <= g < |v.files| && 0 <= o < MAXBYTES && HasBlock(v', g, o) ==>
         HasBlock(v, g, o) || (g == f && o / BSIZE * BSIZE < n)
  }

  lemma AppendedFile(v: Volume, v': Volume, f: nat, bytes: seq<Byte>, xs: seq<Byte>)
    requires f < |v.files| && FileIs(v, f, bytes) && |bytes| + |xs| <= MAXBYTES
    requires Edited(v, v', f, |bytes|, xs) && Covers(v', f, |bytes|, |bytes| + |xs|)
    requires NoMoreBlocks(v, v', f, |bytes| + |xs|)
    ensures FileIs(v', f, bytes + xs)
  {
    hide ByteAt, HasBlock;
    forall o | 0 <= o < MAXBYTES
      ensures ByteAt(v', f, o) == if o < |bytes + xs| then (bytes + xs)[o] else 0
      ensures o < |bytes + xs| ==> HasBlock(v', f, o)
    {
      assert ByteAfter(v, v', f, |bytes|, xs, f, o);
    }
  }

  lemma OtherFile(v: Volume, v': Volume, f: nat, off: nat, xs: seq<Byte>, n: nat, g: nat, bytes: seq<Byte>)
    requires f < |v.files| && g < |v.files| && FileIs(v, g, bytes) && Edited(v, v', f, off, xs) && NoMoreBlocks(v, v', f, n)
    requires g != f || (xs == [] && n == 0)
    ensures FileIs(v', g, bytes)
  {
    hide ByteAt, HasBlock;
    forall o | 0 <= o < MAXBYTES
      ensures ByteAt(v', g, o) == if o < |bytes| then bytes[o] else 0
      ensures o < |bytes| ==> HasBlock(v', g, o)
    {
      assert ByteAfter(v, v', f, off, xs, g, o);
    }
  }

  // winode

  /** The inodes rinode reads after winode. */
  lemma StoreReads(d0: Disk, d: Disk, sb: Super, f: nat, di: Dinode)
    requires SameHead(d0, d, sb.ninodes) && BitStart(sb.ninodes) <= |d0| && f < sb.ninodes
    ensures forall g: nat :: g < sb.ninodes ==> IBlock(g) < BitStart(sb.ninodes)
    ensures forall g: nat :: g < sb.ninodes ==> DiskInode(StoreInode(d, f, di), g) == if g == f then di else DiskInode(d0, g)
  {
    hide PutDinode, GetDinode;
    forall g: nat | g < sb.ninodes
      ensures IBlock(g) < BitStart(sb.ninodes) && DiskInode(StoreInode(d, f, di), g) == if g == f then di else DiskInode(d0, g)
    {
      StoreInodeReads(d, f, di, g);
      assert d[IBlock(g)] == d0[IBlock(g)];
    }
  }

  lemma MetaCore(m: Mk, sb: Super, d2: Disk)
    requires Core(m, sb) && |d2| == |m.d| && d2[1] == m.d[1]
    requires forall x :: BitStart(sb.ninodes) <= x < |m.d| ==> d2[x] == m.d[x]
    ensures Core(m.(d := d2), sb)
  {
    hide GetWord, Sound;
    MetaKeeps(MkVol(m, sb), d2);
    assert MkVol(m.(d := d2), sb) == MkVol(m, sb).(d := d2);
  }

  /** Writing inode f to the image: the volume is the one with those addresses. */
  lemma StoreCore(m: Mk, sb: Super, f: nat, di: Dinode, d0: Disk)
    requires Core(m, sb) && f < |m.inos| && SameHead(d0, m.d, sb.ninodes) && BitStart(sb.ninodes) <= |d0|
    requires m.inos == Maps(Load(d0, sb.ninodes))[f := di.addrs]
    ensures forall g: nat :: g < sb.ninodes ==> IBlock(g) < BitStart(sb.ninodes)
    ensures IBlock(f) < |m.d|
    ensures var d2 := StoreInode(m.d, f, di);
            Cur(d2, m.free, sb) == m.(d := d2) && Core(m.(d := d2), sb)
            && forall g: nat :: g < sb.ninodes ==> DiskInode(d2, g) == if g == f then di else DiskInode(d0, g)
  {
    hide Core, DiskInode, StoreInode, Maps, Load;
    CoreFacts(m, sb);
    StoreReads(d0, m.d, sb, f, di);
    var d2 := StoreInode(m.d, f, di);
    MetaCore(m, sb, d2);
    assert Maps(Load(d2, sb.ninodes)) == m.inos;
  }

  /** Writing an inode block changes no byte of any file. */
  lemma StoreBytes(m: Mk, sb: Super, f: nat, di: Dinode)
    requires Core(m, sb) && f < |m.inos| && IBlock(f) < |m.d|
    ensures forall off :: Edited(MkVol(m, sb), MkVol(m.(d := StoreInode(m.d, f, di)), sb), f, off, [])
    ensures forall n :: NoMoreBlocks(MkVol(m, sb), MkVol(m.(d := StoreInode(m.d, f, di)), sb), f, n)
  {
    hide Node, Extends, Sound, StoreInode, GetWord, Edited;
    CoreFacts(m, sb);
    Regions(sb.size, sb.ninodes, f, 0);
    var v, d2 := MkVol(m, sb), StoreInode(m.d, f, di);
    var v2 := v.(d := d2);
    assert MkVol(m.(d := d2), sb) == v2;
    MetaKeeps(v, d2);
    forall off ensures Edited(v, v2, f, off, []) {
      ExtendsEdited(v, v2, f, {}, off);
    }
  }

  lemma AppendDone(d: Disk, free: nat, files: seq<seq<Byte>>, m: Mk, sb: Super, f: nat, xs: seq<Byte>, di: Dinode)
    requires Holds(d, free, files, sb) && f < |files| && |files[f]| + |xs| <= MAXBYTES
    requires Appending(Cur(d, free, sb), m, sb, f, |files[f]|, xs) && m.inos[f] == di.addrs && di.size == |files[f]| + |xs|
    ensures IBlock(f) < |m.d| == |d| && Holds(StoreInode(m.d, f, di), m.free, files[f := files[f] + xs], sb)
    ensures forall g: nat :: g < sb.ninodes ==> IBlock(g) < BitStart(sb.ninodes)
    ensures forall g: nat :: g < sb.ninodes ==> DiskInode(StoreInode(m.d, f, di), g) == if g == f then di else DiskInode(d, g)
  {
    hide Core, Edited, FileIs, Covers, HasBlock, DiskInode, StoreInode, Maps, Load, BlankInode;
    var m0 := Cur(d, free, sb);
    CoreFacts(m, sb);
    StoreCore(m, sb, f, di, d);
    StoreBytes(m, sb, f, di);
    var d2 := StoreInode(m.d, f, di);
    var v0, v1, v2 := MkVol(m0, sb), MkVol(m, sb), MkVol(m.(d := d2), sb);
    EditedThen(v0, v1, v2, f, |files[f]|, xs, []);
    assert xs + [] == xs;
    assert NoMoreBlocks(v1, v2, f, 0);
    assert NoMoreBlocks(v0, v2, f, |files[f]| + |xs|);
    KeepCovers(v1, v2, f, |files[f]| + |xs|, |files[f]|, |files[f]| + |xs|);
    AppendedFile(v0, v2, f, files[f], xs);
    forall g | 0 <= g < |files| && g != f ensures FileIs(v2, g, files[g]) {
      OtherFile(v0, v2, f, |files[f]|, xs, |files[f]| + |xs|, g, files[g]);
    }
  }

  lemma KeepCovers(v: Volume, v': Volume, f: nat, off: nat, a: nat, b: nat)
    requires f < |v.files| && Edited(v, v', f, off, []) && Covers(v, f, a, b)
    ensures Covers(v', f, a, b)
  {
    hide ByteAt, HasBlock;
    forall o | a <= o < b && o < MAXBYTES ensures HasBlock(v', f, o) {
      assert ByteAfter(v, v', f, off, [], f, o);
    }
  }

  /** ialloc: one more file, empty. */
  lemma AllocDone(d: Disk, free: nat, files: seq<seq<Byte>>, sb: Super, di: Dinode)
    requires Holds(d, free, files, sb) && |files| < sb.ninodes && di.size == 0 && di.addrs == NoAddrs()
    ensures IBlock(|files|) < |d| && Holds(StoreInode(d, |files|, di), free, files + [[]], sb)
    ensures forall g: nat :: g < sb.ninodes ==> IBlock(g) < BitStart(sb.ninodes)
    ensures forall g: nat :: g < sb.ninodes ==> DiskInode(StoreInode(d, |files|, di), g) == if g == |files| then di else DiskInode(d, g)
  {
    hide Core, Edited, FileIs, DiskInode, StoreInode, NoAddrs, Load, Maps, HasBlock;
    var m, f := Cur(d, free, sb), |files|;
    CoreFacts(m, sb);
    assert m.inos == m.inos[f := di.addrs];
    StoreCore(m, sb, f, di, d);
    StoreBytes(m, sb, f, di);
    var v, v2 := MkVol(m, sb), MkVol(m.(d := StoreInode(d, f, di)), sb);
    assert Edited(v, v2, f, 0, []) && NoMoreBlocks(v, v2, f, 0);
    NoAddrsEmpty(v2, f);
    forall g | 0 <= g < |files| ensures FileIs(v2, g, files[g]) {
      OtherFile(v, v2, f, 0, [], 0, g, files[g]);
    }
  }

  // Finishing

  /** main's last write of the root inode: its size rounded up past the next block boundary. */
  function Rounded(n: nat): (r: nat)
    ensures n < r <= n + BSIZE && r % BSIZE == 0
  {
    (n / BSIZE + 1) * BSIZE
  }

  lemma SizeDone(d: Disk, free: nat, files: seq<seq<Byte>>, sb: Super, f: nat, n: Word)
    requires Holds(d, free, files, sb) && f < |files|
    ensures IBlock(f) < |d| && Stores(StoreInode(d, f, DiskInode(d, f).(size := n)), free, files, sb)
    ensures forall g: nat :: g < sb.ninodes ==> IBlock(g) < BitStart(sb.ninodes)
    ensures forall g: nat :: g < sb.ninodes ==>
              DiskInode(StoreInode(d, f, DiskInode(d, f).(size := n)), g) == if g == f then DiskInode(d, g).(size := n) else DiskInode(d, g)
  {
    hide Core, Edited, FileIs, DiskInode, StoreInode, BlankInode;
    var m := Cur(d, free, sb);
    CoreFacts(m, sb);
    Regions(sb.size, sb.ninodes, f, 0);
    var di := DiskInode(d, f).(size := n);
    assert m.inos == m.inos[f := di.addrs];
    StoreCore(m, sb, f, di, d);
    StoreBytes(m, sb, f, di);
    var v, v2 := MkVol(m, sb), MkVol(m.(d := StoreInode(d, f, di)), sb);
    assert Edited(v, v2, f, 0, []) && NoMoreBlocks(v, v2, f, 0);
    forall g | 0 <= g < |files| ensures FileIs(v2, g, files[g]) {
      OtherFile(v, v2, f, 0, [], 0, g, files[g]);
    }
  }

  /** The two images differ only in the bitmap. */
  ghost predicate SameButBitmap(d: Disk, d': Disk, sb: Super) {
    && |d'| == |d|
    && forall x :: 0 <= x < |d| && !(BitStart(sb.ninodes) <= x < DataStart(sb.size, sb.ninodes)) ==> d'[x] == d[x]
  }

  lemma LoadSame(d: Disk, d': Disk, sb: Super)
    requires SameButBitmap(d, d', sb) && BitStart(sb.ninodes) <= |d|
    ensures Load(d', sb.ninodes) == Load(d, sb.ninodes)
  {
    hide GetDinode;
    forall i: nat | i < sb.ninodes ensures IBlock(i) < |d| && DiskInode(d', i) == DiskInode(d, i) {
      assert IBlock(i) < BitStart(sb.ninodes);
    }
  }

  /** With the bitmap written, the kernel's view of the image is the one mkfs built. */
  lemma MountVolume(d: Disk, free: nat, files: seq<seq<Byte>>, sb: Super, d': Disk)
    requires Stores(d, free, files, sb) && SameButBitmap(d, d', sb)
    requires forall b: nat :: b < sb.size ==> (Bit(d', sb.ninodes, b) <==> b < free)
    ensures Vol(State(d', Load(d', sb.ninodes)), sb) == MkVol(Cur(d, free, sb), sb).(d := d')
  {
    hide Core, FileIs, DiskInode, Bit, Maps, Load;
    CoreFacts(Cur(d, free, sb), sb);
    LoadSame(d, d', sb);
    assert Used(d', sb.size, sb.ninodes) == Upto(free);
  }

  lemma MountOk(d: Disk, free: nat, files: seq<seq<Byte>>, sb: Super, d': Disk)
    requires Stores(d, free, files, sb) && SameButBitmap(d, d', sb)
    requires forall b: nat :: b < sb.size ==> (Bit(d', sb.ninodes, b) <==> b < free)
    requires forall i: nat :: i < sb.ninodes ==> Load(d, sb.ninodes)[i].size <= MAXBYTES
    ensures var s := State(d', Load(d', sb.ninodes));
            Ok(s, sb) && forall i :: 0 <= i < |files| ==> FileIs(Vol(s, sb), i, files[i])
  {
    hide Edited, FileIs, DiskInode, Bit, Maps, Load, Sound, Extends, GetWord;
    var m := Cur(d, free, sb);
    CoreFacts(m, sb);
    LoadSame(d, d', sb);
    MountVolume(d, free, files, sb, d');
    var v, s := MkVol(m, sb), State(d', Load(d', sb.ninodes));
    MetaKeeps(v, d');
    forall i | 0 <= i < |files| ensures FileIs(Vol(s, sb), i, files[i]) {
      ExtendsEdited(v, v.(d := d'), i, {}, 0);
      assert NoMoreBlocks(v, v.(d := d'), i, 0);
      OtherFile(v, v.(d := d'), i, 0, [], 0, i, files[i]);
    }
  }

  /** The root directory reads as its entries and then zeros; its last block is there unless the entries fill whole blocks. */
  lemma RootTail(v: Volume, i: nat, bytes: seq<Byte>)
    requires i < |v.files| && FileIs(v, i, bytes) && Rounded(|bytes|) <= MAXBYTES
    ensures Content(v, i, Rounded(|bytes|)) == bytes + seq(Rounded(|bytes|) - |bytes|, _ => 0)
    ensures Covers(v, i, 0, Rounded(|bytes|)) <==> |bytes| % BSIZE != 0
  {
    hide ByteAt, NodeOf, LeafOf;
    var k := |bytes|;
    if k % BSIZE != 0 {
      forall o | k <= o < Rounded(k) ensures HasBlock(v, i, o) {
        assert HasBlock(v, i, k - 1);
        assert o / BSIZE == (k - 1) / BSIZE;
      }
    } else {
      assert !HasBlock(v, i, k);
    }
  }

  /** What the kernel finds when it mounts the finished image. */
  ghost predicate Mounts(d: Disk, free: nat, files: seq<seq<Byte>>, sb: Super) {
    && BitStart(sb.ninodes) <= |d| && ROOTINO < |files| <= sb.ninodes
    && |d| == sb.size && DataStart(sb.size, sb.ninodes) <= free <= sb.size
    && (forall x :: free <= x < |d| ==> d[x] == ZeroBlock())
    && var s := State(d, Load(d, sb.ninodes));
       Ok(s, sb) && (forall b: nat :: b < sb.size ==> (b in Vol(s, sb).used <==> b < free))
       && (forall i :: 0 <= i < |files| ==> FileIs(Vol(s, sb), i, files[i]))
       && (forall i :: 0 <= i < |files| ==> s.inodes[i].size == if i == ROOTINO then Rounded(|files[i]|) else |files[i]|)
       && (forall i :: |files| <= i < sb.ninodes ==> s.inodes[i] == BlankInode())
  }

  lemma FinishMounts(d: Disk, free: nat, files: seq<seq<Byte>>, sb: Super, n: Word, d': Disk)
    requires Holds(d, free, files, sb) && ROOTINO < |files| && n == Rounded(|files[ROOTINO]|) <= MAXBYTES
    requires IBlock(ROOTINO) < |d|
    requires SameButBitmap(StoreInode(d, ROOTINO, DiskInode(d, ROOTINO).(size := n)), d', sb)
    requires forall b: nat :: b < sb.size ==> (Bit(d', sb.ninodes, b) <==> b < free)
    ensures Mounts(d', free, files, sb)
  {
    hide Core, FileIs, DiskInode, StoreInode, BlankInode, Load, Bit, Sound, Maps, Laid;
    var d1 := StoreInode(d, ROOTINO, DiskInode(d, ROOTINO).(size := n));
    SizeDone(d, free, files, sb, ROOTINO, n);
    StoresBlank(d1, free, files, sb);
    LoadSame(d1, d', sb);
    forall i: nat | i < |files| ensures |files[i]| <= MAXBYTES {
      assert FileIs(MkVol(Cur(d, free, sb), sb), i, files[i]);
      FileFits(MkVol(Cur(d, free, sb), sb), i, files[i]);
    }
    forall i: nat | i < sb.ninodes
      ensures Load(d1, sb.ninodes)[i].size == if i >= |files| then 0 else if i == ROOTINO then n else |files[i]|
    {
      assert Load(d1, sb.ninodes)[i] == DiskInode(d1, i);
      BlankSize();
    }
    MountOk(d1, free, files, sb, d');
  }

  lemma StoresBlank(d: Disk, free: nat, files: seq<seq<Byte>>, sb: Super)
    requires Stores(d, free, files, sb)
    ensures |d| == sb.size && DataStart(sb.size, sb.ninodes) <= free <= sb.size
    ensures forall x :: free <= x < |d| ==> d[x] == ZeroBlock()
  {
    hide FileIs, DiskInode, Sound;
  }

  lemma FileFits(v: Volume, i: nat, bytes: seq<Byte>)
    requires i < |v.files| && FileIs(v, i, bytes)
    ensures |bytes| <= MAXBYTES
  {
  }

  lemma BlankSize()
    ensures BlankInode().size == 0
  {
  }
}
