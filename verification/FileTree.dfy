/**
 The three-level block map of a file (src/fs.c, src/mkfs.c): eleven direct blocks, one
 indirect block and one double-indirect block.  A file's blocks are the nodes of a tree whose
 positions are named by Pos; an address of 0 means the node is absent.
 */
module FileTree {
  import opened Blocks

  const NDIRECT: nat := 11
  const NINDIRECT: nat := 128
  const MAXFILE: nat := NDIRECT + NINDIRECT + NINDIRECT * NINDIRECT

  datatype Pos =
    | Direct(i: nat)
    | IndRoot
    | IndLeaf(j: nat)
    | DblRoot
    | DblMid(i: nat)
    | DblLeaf(i: nat, j: nat)

  predicate OkPos(p: Pos) {
    match p
    case Direct(i) => i < NDIRECT
    case IndRoot => true
    case IndLeaf(j) => j < NINDIRECT
    case DblRoot => true
    case DblMid(i) => i < NINDIRECT
    case DblLeaf(i, j) => i < NINDIRECT && j < NINDIRECT
  }

  /** Positions held in the inode itself. */
  predicate IsRoot(p: Pos) {
    p.Direct? || p.IndRoot? || p.DblRoot?
  }

  /** Positions that hold file data. */
  predicate IsLeaf(p: Pos) {
    p.Direct? || p.IndLeaf? || p.DblLeaf?
  }

  function Parent(p: Pos): (r: Pos)
    requires OkPos(p) && !IsRoot(p)
    ensures OkPos(r) && !IsLeaf(r) && Depth(r) < Depth(p)
  {
    if p.IndLeaf? then IndRoot else if p.DblMid? then DblRoot else DblMid(p.i)
  }

  function Depth(p: Pos): (r: nat) {
    if IsRoot(p) then 0 else if p.DblLeaf? then 2 else 1
  }

  /** The index of a position's address: in addrs[] for a root, in the parent's block otherwise. */
  function Slot(p: Pos): (r: nat)
    requires OkPos(p)
    ensures if IsRoot(p) then r < NDIRECT + 2 else r < NINDIRECT
  {
    match p
    case Direct(i) => i
    case IndRoot => NDIRECT
    case IndLeaf(j) => j
    case DblRoot => NDIRECT + 1
    case DblMid(i) => i
    case DblLeaf(_, j) => j
  }

  /** Positions are told apart by their parent and slot. */
  lemma SlotsTellApart(p: Pos, q: Pos)
    requires OkPos(p) && OkPos(q) && Slot(p) == Slot(q) && IsRoot(p) == IsRoot(q) && (!IsRoot(p) ==> Parent(p) == Parent(q))
    ensures p == q
  {
  }

  /** The position and those above it. */
  function PathTo(p: Pos): (r: set<Pos>) {
    match p
    case IndLeaf(_) => {IndRoot} + {p}
    case DblMid(_) => {DblRoot} + {p}
    case DblLeaf(i, _) => {DblRoot} + {DblMid(i)} + {p}
    case _ => {p}
  }

  type Disk = seq<Block>

  datatype Addrs = Addrs(at: seq<Word>)
  type Inode = a: Addrs | |a.at| == NDIRECT + 2 witness Addrs(seq(NDIRECT + 2, _ => 0))

  /** Entry j of the indirect block at address a. */
  function Child(d: Disk, a: nat, j: nat): (r: Word)
    requires j < NINDIRECT
  {
    if 0 < a < |d| then GetWord(d[a], j) else 0
  }

  /** The address of the node at a position, 0 if it is absent. */
  function Node(d: Disk, ino: Inode, p: Pos): (r: Word)
    requires OkPos(p)
    decreases Depth(p)
  {
    if IsRoot(p) then ino.at[Slot(p)] else Child(d, Node(d, ino, Parent(p)), Slot(p))
  }

  /** Where bmap looks for block number bn. */
  function LeafOf(bn: nat): (p: Pos)
    requires bn < MAXFILE
    ensures OkPos(p) && IsLeaf(p)
  {
    if bn < NDIRECT then Direct(bn)
    else if bn < NDIRECT + NINDIRECT then IndLeaf(bn - NDIRECT)
    else
      var k := bn - NDIRECT - NINDIRECT;
      DblLeaf(k / NINDIRECT, k % NINDIRECT)
  }

  lemma LeafOfInjective(a: nat, b: nat)
    requires a < MAXFILE && b < MAXFILE && LeafOf(a) == LeafOf(b)
    ensures a == b
  {
  }

  /** Where the address of block bn stands on the disk. */
  lemma BlockFormat(d: Disk, ino: Inode, bn: nat)
    requires bn < 11 + 128 + 128 * 128
    ensures bn < MAXFILE
    ensures Node(d, ino, LeafOf(bn)) ==
              if bn < 11 then ino.at[bn]
              else if bn < 139 then Child(d, ino.at[11], bn - 11)
              else Child(d, Child(d, ino.at[12], (bn - 139) / 128), (bn - 139) % 128)
  {
    hide GetWord;
    assert Node(d, ino, IndRoot) == ino.at[11] && Node(d, ino, DblRoot) == ino.at[12];
    if bn >= 139 {
      assert Node(d, ino, DblMid((bn - 139) / 128)) == Child(d, ino.at[12], (bn - 139) / 128);
    }
  }

  // A set of files on a disk

  /** The disk, every inode's addresses, and the blocks marked as used; data blocks start at lo. */
  datatype Volume = Volume(d: Disk, files: seq<Inode>, used: set<nat>, lo: nat)

  ghost function NodeOf(v: Volume, f: nat, p: Pos): (r: Word)
    requires f < |v.files| && OkPos(p)
  {
    Node(v.d, v.files[f], p)
  }

  /** A present node lies in the data area and is marked as used. */
  ghost predicate InUse(v: Volume, f: nat, p: Pos)
    requires f < |v.files| && OkPos(p)
  {
    NodeOf(v, f, p) != 0 ==> v.lo <= NodeOf(v, f, p) < |v.d| && NodeOf(v, f, p) in v.used
  }

  /** No block is two nodes. */
  ghost predicate Apart(v: Volume, f: nat, p: Pos, g: nat, q: Pos)
    requires f < |v.files| && g < |v.files| && OkPos(p) && OkPos(q)
  {
    NodeOf(v, f, p) != 0 && NodeOf(v, f, p) == NodeOf(v, g, q) ==> f == g && p == q
  }

  /** Block b is a node of some file. */
  ghost predicate Owned(v: Volume, b: nat) {
    exists g, q :: 0 <= g < |v.files| && OkPos(q) && NodeOf(v, g, q) == b
  }

  /** Every file is a tree of used data blocks, no block belongs to two places, and no data block is used without belonging to a file. */
  ghost predicate Sound(v: Volume) {
    && 0 < v.lo
    && (forall b: nat :: b in v.used && v.lo <= b ==> Owned(v, b))
    && (forall f, p :: 0 <= f < |v.files| && OkPos(p) ==> InUse(v, f, p))
    && (forall f, p, g, q :: 0 <= f < |v.files| && 0 <= g < |v.files| && OkPos(p) && OkPos(q) ==> Apart(v, f, p, g, q))
  }

  /** The bitmap is exact: a data block is marked if and only if it is a node of some file. */
  lemma UsedIffOwned(v: Volume, b: nat)
    requires Sound(v) && v.lo <= b
    ensures b in v.used <==> Owned(v, b)
  {
    if Owned(v, b) {
      var g, q :| 0 <= g < |v.files| && OkPos(q) && NodeOf(v, g, q) == b;
      assert InUse(v, g, q);
    }
  }

  function NoAddrs(): (r: Inode) {
    Addrs(seq(NDIRECT + 2, _ => 0))
  }

  /** A file without addresses has no blocks. */
  lemma {:induction false} NoAddrsNode(v: Volume, i: nat, p: Pos)
    requires i < |v.files| && v.files[i] == NoAddrs() && OkPos(p)
    ensures NodeOf(v, i, p) == 0
    decreases Depth(p)
  {
    if !IsRoot(p) {
      NoAddrsNode(v, i, Parent(p));
    }
  }

  /** Distinct block numbers of a file have distinct addresses, and no other file has any of them. */
  lemma BlocksDiffer(v: Volume, f: nat, a: nat, g: nat, b: nat)
    requires Sound(v) && f < |v.files| && g < |v.files| && a < MAXFILE && b < MAXFILE && (f != g || a != b)
    ensures NodeOf(v, f, LeafOf(a)) != 0 ==> NodeOf(v, f, LeafOf(a)) != NodeOf(v, g, LeafOf(b))
  {
    assert Apart(v, f, LeafOf(a), g, LeafOf(b));
    if LeafOf(a) == LeafOf(b) {
      LeafOfInjective(a, b);
    }
  }

  // Filling an empty position with a fresh block

  /** The disk with entry j of the indirect block at address a replaced. */
  function StoreEntry(d: Disk, a: nat, j: nat, w: Word): (r: Disk)
    requires a < |d| && j < NINDIRECT
    ensures |r| == |d|
  {
    d[a := SetWord(d[a], j, w)]
  }

  /** The disk after block b, zeroed, became the node at p. */
  function PlantDisk(d: Disk, ino: Inode, p: Pos, b: Word): (r: Disk)
    requires OkPos(p) && b < |d|
    ensures |r| == |d|
  {
    if IsRoot(p) || Node(d, ino, Parent(p)) >= |d| then d[b := ZeroBlock()]
    else StoreEntry(d[b := ZeroBlock()], Node(d, ino, Parent(p)), Slot(p), b)
  }

  function PlantInode(ino: Inode, p: Pos, b: Word): (r: Inode)
    requires OkPos(p)
  {
    if IsRoot(p) then Addrs(ino.at[Slot(p) := b]) else ino
  }

  /** Block b becomes the node at p of file f. */
  function Plant(v: Volume, f: nat, p: Pos, b: Word): (r: Volume)
    requires f < |v.files| && OkPos(p) && b < |v.d|
    ensures |r.d| == |v.d| && |r.files| == |v.files| && r.lo == v.lo && r.used == v.used + {b}
    ensures forall g :: 0 <= g < |v.files| && g != f ==> r.files[g] == v.files[g]
  {
    Volume(PlantDisk(v.d, v.files[f], p, b), v.files[f := PlantInode(v.files[f], p, b)], v.used + {b}, v.lo)
  }

  /** Block b is free, the position is empty, and its parent is there to hold the address. */
  ghost predicate CanPlant(v: Volume, f: nat, p: Pos, b: Word) {
    && Sound(v) && f < |v.files| && OkPos(p)
    && NodeOf(v, f, p) == 0 && (!IsRoot(p) ==> NodeOf(v, f, Parent(p)) != 0)
    && v.lo <= b < |v.d| && b !in v.used
  }

  /** What planting does to the entries of interior blocks. */
  lemma PlantChild(v: Volume, f: nat, p: Pos, b: Word, a: Word, j: nat)
    requires CanPlant(v, f, p, b) && j < NINDIRECT && (a == 0 || a in v.used)
    ensures Child(Plant(v, f, p, b).d, a, j)
              == if !IsRoot(p) && a == NodeOf(v, f, Parent(p)) && j == Slot(p) then b else Child(v.d, a, j)
    ensures Child(Plant(v, f, p, b).d, b, j) == 0
  {
    ZeroBlockWords();
    if !IsRoot(p) {
      assert InUse(v, f, Parent(p));
    }
    hide GetWord, SetWord, Sound;
  }

  /** The heart of bmap: planting changes the node at p of file f, and no other node of any file. */
  lemma {:induction false} PlantNode(v: Volume, f: nat, p: Pos, b: Word, g: nat, q: Pos)
    requires CanPlant(v, f, p, b) && g < |v.files| && OkPos(q)
    ensures NodeOf(Plant(v, f, p, b), g, q) == if g == f && q == p then b else NodeOf(v, g, q)
    decreases Depth(q)
  {
    if IsRoot(q) {
      if g == f && IsRoot(p) && Slot(p) == Slot(q) {
        SlotsTellApart(p, q);
      }
    } else {
      var a := NodeOf(v, g, Parent(q));
      PlantNode(v, f, p, b, g, Parent(q));
      assert InUse(v, g, Parent(q));
      PlantChild(v, f, p, b, a, Slot(q));
      if !IsRoot(p) && a != 0 && a == NodeOf(v, f, Parent(p)) {
        assert Apart(v, g, Parent(q), f, Parent(p));
        if Slot(p) == Slot(q) {
          SlotsTellApart(p, q);
        }
      }
      hide PlantDisk, Sound, Child;
    }
  }

  /** The planted block belongs to f, and every other block to whom it did. */
  lemma PlantOwned(v: Volume, f: nat, p: Pos, b: Word, x: nat)
    requires CanPlant(v, f, p, b) && v.lo <= x && (x == b || x in v.used)
    ensures Owned(Plant(v, f, p, b), x)
  {
    hide NodeOf, Plant;
    if x == b {
      PlantNode(v, f, p, b, f, p);
    } else {
      assert Owned(v, x);
      var g, q :| 0 <= g < |v.files| && OkPos(q) && NodeOf(v, g, q) == x;
      PlantNode(v, f, p, b, g, q);
    }
  }

  /** The files stay trees of pairwise distinct, used blocks, and the used blocks theirs. */
  lemma PlantSound(v: Volume, f: nat, p: Pos, b: Word)
    requires CanPlant(v, f, p, b)
    ensures Sound(Plant(v, f, p, b))
  {
    var v' := Plant(v, f, p, b);
    forall g, q | 0 <= g < |v.files| && OkPos(q) ensures InUse(v', g, q) {
      PlantNode(v, f, p, b, g, q);
      assert InUse(v, g, q);
    }
    forall x: nat | x in v'.used && v.lo <= x ensures Owned(v', x) {
      PlantOwned(v, f, p, b, x);
    }
    forall g, q, h, r | 0 <= g < |v.files| && 0 <= h < |v.files| && OkPos(q) && OkPos(r) ensures Apart(v', g, q, h, r) {
      PlantNode(v, f, p, b, g, q);
      PlantNode(v, f, p, b, h, r);
      assert InUse(v, g, q) && InUse(v, h, r) && Apart(v, g, q, h, r);
      hide Plant, NodeOf;
    }
  }

  /** Planting touches the new block, which it zeroes, and the parent's block; no data block changes. */
  lemma PlantBlocks(v: Volume, f: nat, p: Pos, b: Word)
    requires CanPlant(v, f, p, b)
    ensures Plant(v, f, p, b).d[b] == ZeroBlock()
    ensures forall x :: 0 <= x < |v.d| && x != b && (x < v.lo || x !in v.used) ==> Plant(v, f, p, b).d[x] == v.d[x]
    ensures forall g, q :: 0 <= g < |v.files| && OkPos(q) && IsLeaf(q) && NodeOf(v, g, q) != 0 ==>
              NodeOf(v, g, q) < |v.d| && Plant(v, f, p, b).d[NodeOf(v, g, q)] == v.d[NodeOf(v, g, q)]
  {
    if !IsRoot(p) {
      assert InUse(v, f, Parent(p));
    }
    forall g, q | 0 <= g < |v.files| && OkPos(q) && IsLeaf(q) && NodeOf(v, g, q) != 0
      ensures NodeOf(v, g, q) < |v.d| && Plant(v, f, p, b).d[NodeOf(v, g, q)] == v.d[NodeOf(v, g, q)]
    {
      assert InUse(v, g, q);
      assert !IsRoot(p) ==> Apart(v, f, Parent(p), g, q);
    }
  }

  // What a call of bmap may do

  /** The node at q is as it was, or was absent, at P, and is now a fresh block, of zeros if it is data. */
  ghost predicate KeptAt(v: Volume, v': Volume, f: nat, P: set<Pos>, g: nat, q: Pos)
    requires g < |v.files| && g < |v'.files| && OkPos(q)
  {
    var a, a' := NodeOf(v, g, q), NodeOf(v', g, q);
    && (a' == a || (g == f && q in P && a == 0 && a' !in v.used))
    && (IsLeaf(q) && a != 0 && a < |v.d| && a < |v'.d| ==> v'.d[a] == v.d[a])
    && (IsLeaf(q) && a == 0 && a' != 0 && a' < |v'.d| ==> v'.d[a'] == ZeroBlock())
  }

  /** Absent nodes at positions P of file f may have been filled; nothing else a file can see has changed. */
  ghost predicate Extends(v: Volume, v': Volume, f: nat, P: set<Pos>) {
    && |v'.d| == |v.d| && |v'.files| == |v.files| && v'.lo == v.lo && v.used <= v'.used
    && (forall g :: 0 <= g < |v.files| && g != f ==> v'.files[g] == v.files[g])
    && (forall g, q :: 0 <= g < |v.files| && OkPos(q) ==> KeptAt(v, v', f, P, g, q))
  }

  lemma PlantExtends(v: Volume, f: nat, p: Pos, b: Word)
    requires CanPlant(v, f, p, b)
    ensures Extends(v, Plant(v, f, p, b), f, {p})
  {
    var v' := Plant(v, f, p, b);
    PlantBlocks(v, f, p, b);
    forall g, q | 0 <= g < |v.files| && OkPos(q) ensures KeptAt(v, v', f, {p}, g, q) {
      PlantNode(v, f, p, b, g, q);
    }
  }

  lemma KeptThen(v: Volume, v1: Volume, v2: Volume, f: nat, P: set<Pos>, Q: set<Pos>, g: nat, q: Pos)
    requires OkPos(q) && g < |v.files| == |v1.files| == |v2.files| && |v.d| == |v1.d| == |v2.d| && v.used <= v1.used
    requires KeptAt(v, v1, f, P, g, q) && KeptAt(v1, v2, f, Q, g, q) && InUse(v, g, q) && InUse(v1, g, q)
    ensures KeptAt(v, v2, f, P + Q, g, q)
  {
    hide NodeOf;
  }

  lemma ExtendsThen(v: Volume, v1: Volume, v2: Volume, f: nat, P: set<Pos>, Q: set<Pos>)
    requires Extends(v, v1, f, P) && Extends(v1, v2, f, Q) && Sound(v) && Sound(v1)
    ensures Extends(v, v2, f, P + Q)
  {
    hide KeptAt, InUse, Apart, NodeOf;
    forall g, q | 0 <= g < |v.files| && OkPos(q) ensures KeptAt(v, v2, f, P + Q, g, q) {
      KeptThen(v, v1, v2, f, P, Q, g, q);
    }
  }

  // Changes that move no node

  /** Every indirect block of every file reads as before. */
  ghost predicate InteriorsKept(v: Volume, d': Disk) {
    && |d'| == |v.d|
    && forall g, q :: 0 <= g < |v.files| && OkPos(q) && !IsLeaf(q) && 0 < NodeOf(v, g, q) < |v.d| ==>
         d'[NodeOf(v, g, q)] == v.d[NodeOf(v, g, q)]
  }

  lemma {:induction false} InteriorsKeepNode(v: Volume, d': Disk, g: nat, q: Pos)
    requires InteriorsKept(v, d') && g < |v.files| && OkPos(q)
    ensures Node(d', v.files[g], q) == NodeOf(v, g, q)
    decreases Depth(q)
  {
    if !IsRoot(q) {
      InteriorsKeepNode(v, d', g, Parent(q));
    }
  }

  lemma InteriorsKeepSound(v: Volume, d': Disk)
    requires Sound(v) && InteriorsKept(v, d')
    ensures Sound(v.(d := d'))
    ensures forall g, q :: 0 <= g < |v.files| && OkPos(q) ==> NodeOf(v.(d := d'), g, q) == NodeOf(v, g, q)
  {
    var v' := v.(d := d');
    forall g, q | 0 <= g < |v.files| && OkPos(q) ensures NodeOf(v', g, q) == NodeOf(v, g, q) && InUse(v', g, q) {
      InteriorsKeepNode(v, d', g, q);
      assert InUse(v, g, q);
    }
    hide NodeOf;
    forall x: nat | x in v.used && v.lo <= x ensures Owned(v', x) {
      assert Owned(v, x);
      var g, q :| 0 <= g < |v.files| && OkPos(q) && NodeOf(v, g, q) == x;
      assert NodeOf(v', g, q) == x;
    }
    forall g, q, h, r | 0 <= g < |v.files| && 0 <= h < |v.files| && OkPos(q) && OkPos(r) ensures Apart(v', g, q, h, r) {
      assert Apart(v, g, q, h, r);
    }
  }

  /** The two disks differ only below the data area. */
  ghost predicate SameData(d: Disk, d': Disk, lo: nat) {
    |d'| == |d| && forall x :: lo <= x < |d| ==> d'[x] == d[x]
  }

  /** Writing bitmap and inode blocks moves no node. */
  lemma MetaKeeps(v: Volume, d': Disk)
    requires Sound(v) && SameData(v.d, d', v.lo)
    ensures InteriorsKept(v, d') && Sound(v.(d := d'))
    ensures forall g, q :: 0 <= g < |v.files| && OkPos(q) ==> NodeOf(v.(d := d'), g, q) == NodeOf(v, g, q)
    ensures forall f :: Extends(v, v.(d := d'), f, {})
  {
    hide NodeOf, Apart;
    forall g, q | 0 <= g < |v.files| && OkPos(q) && 0 < NodeOf(v, g, q) < |v.d|
      ensures d'[NodeOf(v, g, q)] == v.d[NodeOf(v, g, q)]
    {
      assert InUse(v, g, q);
    }
    InteriorsKeepSound(v, d');
  }

  /** Taking a free block: bit set, block zeroed, address stored where bmap looks for it. */
  lemma GrowKeeps(v: Volume, d': Disk, f: nat, p: Pos, b: Word)
    requires CanPlant(v, f, p, b) && SameData(v.d, d', v.lo)
    ensures var v' := Plant(v.(d := d'), f, p, b);
            Sound(v') && Extends(v, v', f, {p}) && NodeOf(v', f, p) == b
            && forall q :: OkPos(q) && q != p ==> NodeOf(v', f, q) == NodeOf(v, f, q)
  {
    MetaKeeps(v, d');
    var v1 := v.(d := d');
    PlantSound(v1, f, p, b);
    PlantExtends(v1, f, p, b);
    ExtendsThen(v, v1, Plant(v1, f, p, b), f, {}, {p});
    assert {} + {p} == {p};
    forall q | OkPos(q) ensures NodeOf(Plant(v1, f, p, b), f, q) == if q == p then b else NodeOf(v, f, q) {
      PlantNode(v1, f, p, b, f, q);
    }
  }

  // What a file holds

  const MAXBYTES: nat := MAXFILE * BSIZE

  /** Byte o of file f: what its block holds, 0 where there is no block. */
  ghost function ByteAt(v: Volume, f: nat, o: nat): (r: Byte)
    requires f < |v.files| && o < MAXBYTES
  {
    var a := NodeOf(v, f, LeafOf(o / BSIZE));
    if 0 < a < |v.d| then v.d[a].at[o % BSIZE] else 0
  }

  /** Allocation is invisible: no byte of any file changes. */
  lemma ExtendsKeepsBytes(v: Volume, v': Volume, f: nat, P: set<Pos>, g: nat, o: nat)
    requires Extends(v, v', f, P) && Sound(v) && Sound(v') && g < |v.files| && o < MAXBYTES
    ensures ByteAt(v', g, o) == ByteAt(v, g, o)
  {
    var q := LeafOf(o / BSIZE);
    assert KeptAt(v, v', f, P, g, q);
    assert InUse(v, g, q) && InUse(v', g, q);
    hide NodeOf, Extends, Sound, LeafOf;
  }

  /** Writing a data block moves no node. */
  lemma LeafWriteKeeps(v: Volume, f: nat, bn: nat, blk: Block)
    requires Sound(v) && f < |v.files| && bn < MAXFILE && NodeOf(v, f, LeafOf(bn)) != 0
    ensures NodeOf(v, f, LeafOf(bn)) < |v.d|
    ensures var v' := v.(d := v.d[NodeOf(v, f, LeafOf(bn)) := blk]);
            Sound(v') && forall g, q :: 0 <= g < |v.files| && OkPos(q) ==> NodeOf(v', g, q) == NodeOf(v, g, q)
  {
    var p := LeafOf(bn);
    assert InUse(v, f, p);
    var d' := v.d[NodeOf(v, f, p) := blk];
    forall g, q | 0 <= g < |v.files| && OkPos(q) && !IsLeaf(q) && 0 < NodeOf(v, g, q) < |v.d|
      ensures d'[NodeOf(v, g, q)] == v.d[NodeOf(v, g, q)]
    {
      assert Apart(v, f, p, g, q);
    }
    InteriorsKeepSound(v, d');
  }

  /** Writing a data block changes that block of that file and no other byte of any file. */
  lemma LeafWriteBytes(v: Volume, f: nat, bn: nat, blk: Block, g: nat, o: nat)
    requires Sound(v) && f < |v.files| && bn < MAXFILE && NodeOf(v, f, LeafOf(bn)) != 0 && g < |v.files| && o < MAXBYTES
    ensures NodeOf(v, f, LeafOf(bn)) < |v.d|
    ensures ByteAt(v.(d := v.d[NodeOf(v, f, LeafOf(bn)) := blk]), g, o)
              == if g == f && o / BSIZE == bn then blk.at[o % BSIZE] else ByteAt(v, g, o)
  {
    LeafWriteKeeps(v, f, bn, blk);
    var q := LeafOf(o / BSIZE);
    assert Apart(v, f, LeafOf(bn), g, q);
    if LeafOf(bn) == q {
      LeafOfInjective(bn, o / BSIZE);
    }
    hide NodeOf, LeafOf, Sound;
  }

  // Freeing

  /** The positions itrunc visits, in the order it frees them: direct, indirect leaves, the indirect block. */
  const NTRUNC: nat := NDIRECT + NINDIRECT + 1

  function TruncPos(k: nat): (p: Pos)
    requires k < NTRUNC
    ensures OkPos(p)
  {
    if k < NDIRECT then Direct(k) else if k < NDIRECT + NINDIRECT then IndLeaf(k - NDIRECT) else IndRoot
  }

  predicate Truncated(p: Pos) {
    p.Direct? || p.IndLeaf? || p.IndRoot?
  }

  lemma TruncPosCovers(p: Pos) returns (k: nat)
    requires OkPos(p) && Truncated(p)
    ensures k < NTRUNC && TruncPos(k) == p
  {
    k := if p.Direct? then p.i else if p.IndLeaf? then NDIRECT + p.j else NTRUNC - 1;
  }

  ghost predicate FreedAt(v: Volume, f: nat, n: nat, b: nat)
    requires f < |v.files| && n <= NTRUNC
  {
    b != 0 && exists k: nat :: k < n && NodeOf(v, f, TruncPos(k)) == b
  }

  /** The blocks released by the first n visits. */
  ghost function Freed(v: Volume, f: nat, n: nat): (r: set<nat>)
    requires f < |v.files| && n <= NTRUNC
    ensures r <= v.used
    ensures forall b :: b in r <==> b in v.used && FreedAt(v, f, n, b)
  {
    set b | b in v.used && FreedAt(v, f, n, b)
  }

  lemma FreedNext(v: Volume, f: nat, n: nat)
    requires Sound(v) && f < |v.files| && n < NTRUNC
    ensures var a := NodeOf(v, f, TruncPos(n));
            if a == 0 then Freed(v, f, n + 1) == Freed(v, f, n)
            else a in v.used - Freed(v, f, n) && v.lo <= a < |v.d| && Freed(v, f, n + 1) == Freed(v, f, n) + {a as nat}
  {
    var a := NodeOf(v, f, TruncPos(n));
    assert InUse(v, f, TruncPos(n));
    hide NodeOf, InUse;
    forall b: nat ensures FreedAt(v, f, n + 1, b) <==> FreedAt(v, f, n, b) || (b != 0 && b == a) {
      if b != 0 && b == a {
        assert NodeOf(v, f, TruncPos(n)) == b;
      }
      if FreedAt(v, f, n, b) {
        var k: nat :| k < n && NodeOf(v, f, TruncPos(k)) == b;
        assert k < n + 1;
      }
    }
    forall k: nat | k < n && a != 0 ensures NodeOf(v, f, TruncPos(k)) != a {
      assert Apart(v, f, TruncPos(n), f, TruncPos(k));
    }
  }

  /** The volume after itrunc: the first NDIRECT + 1 addresses cleared and their blocks free. */
  ghost function Trunc(v: Volume, f: nat, d': Disk): (r: Volume)
    requires f < |v.files|
  {
    Volume(d', v.files[f := Addrs(seq(NDIRECT + 1, _ => 0) + v.files[f].at[NDIRECT + 1..])], v.used - Freed(v, f, NTRUNC), v.lo)
  }

  lemma {:induction false} TruncNode(v: Volume, f: nat, d': Disk, g: nat, q: Pos)
    requires Sound(v) && SameData(v.d, d', v.lo) && f < |v.files| && g < |v.files| && OkPos(q)
    ensures NodeOf(Trunc(v, f, d'), g, q) == if g == f && Truncated(q) then 0 else NodeOf(v, g, q)
    decreases Depth(q)
  {
    if !IsRoot(q) {
      TruncNode(v, f, d', g, Parent(q));
      assert InUse(v, g, Parent(q));
    }
  }

  /** Truncation keeps every file, the truncated one included, a tree of distinct used blocks. */
  lemma TruncSound(v: Volume, f: nat, d': Disk)
    requires Sound(v) && SameData(v.d, d', v.lo) && f < |v.files|
    ensures Sound(Trunc(v, f, d'))
    ensures forall g, q :: 0 <= g < |v.files| && OkPos(q) ==>
              NodeOf(Trunc(v, f, d'), g, q) == if g == f && Truncated(q) then 0 else NodeOf(v, g, q)
  {
    var v' := Trunc(v, f, d');
    forall g, q | 0 <= g < |v.files| && OkPos(q)
      ensures NodeOf(v', g, q) == if g == f && Truncated(q) then 0 else NodeOf(v, g, q)
    {
      TruncNode(v, f, d', g, q);
    }
    hide NodeOf;
    forall g, q | 0 <= g < |v.files| && OkPos(q) ensures InUse(v', g, q) {
      assert InUse(v, g, q);
      var a: nat := NodeOf(v, g, q);
      if a != 0 && FreedAt(v, f, NTRUNC, a) {
        var k: nat :| k < NTRUNC && NodeOf(v, f, TruncPos(k)) == a;
        assert Apart(v, f, TruncPos(k), g, q);
      }
    }
    forall x: nat | x in v'.used && v.lo <= x ensures Owned(v', x) {
      assert Owned(v, x);
      var g, q :| 0 <= g < |v.files| && OkPos(q) && NodeOf(v, g, q) == x;
      if g == f && Truncated(q) {
        var k := TruncPosCovers(q);
      }
      assert NodeOf(v', g, q) == x;
    }
    forall g, q, h, r | 0 <= g < |v.files| && 0 <= h < |v.files| && OkPos(q) && OkPos(r) ensures Apart(v', g, q, h, r) {
      assert Apart(v, g, q, h, r);
    }
  }

  // Forgetting a file's addresses

  /** File f loses its addresses, as when its inode is cleared: the volume stays sound exactly if it had none. */
  lemma ForgetSoundIff(v: Volume, f: nat, d': Disk)
    requires Sound(v) && SameData(v.d, d', v.lo) && f < |v.files|
    ensures Sound(v.(d := d', files := v.files[f := NoAddrs()])) <==> v.files[f] == NoAddrs()
  {
    MetaKeeps(v, d');
    var v1, v' := v.(d := d'), v.(d := d', files := v.files[f := NoAddrs()]);
    if v.files[f] == NoAddrs() {
      assert v' == v1;
    } else {
      assert v.files[f].at != NoAddrs().at;
      var k: nat :| k < NDIRECT + 2 && v.files[f].at[k] != 0;
      ForgottenBlock(v1, f, k);
    }
  }

  /** A root block of the file is marked and belongs to nobody. */
  lemma ForgottenBlock(v: Volume, f: nat, k: nat)
    requires Sound(v) && f < |v.files| && k < NDIRECT + 2 && v.files[f].at[k] != 0
    ensures var v' := v.(files := v.files[f := NoAddrs()]);
            v.files[f].at[k] in v'.used && v.lo <= v.files[f].at[k] && !Owned(v', v.files[f].at[k]) && !Sound(v')
  {
    var v' := v.(files := v.files[f := NoAddrs()]);
    var a, r := v.files[f].at[k], if k < NDIRECT then Direct(k) else if k == NDIRECT then IndRoot else DblRoot;
    assert NodeOf(v, f, r) == a && InUse(v, f, r);
    forall g, q | 0 <= g < |v.files| && OkPos(q) ensures NodeOf(v', g, q) != a {
      if g == f {
        NoAddrsNode(v', f, q);
      } else {
        assert NodeOf(v', g, q) == NodeOf(v, g, q) && Apart(v, f, r, g, q);
      }
    }
  }

  /** A file's blocks. */
  ghost predicate Owns(v: Volume, f: nat, b: nat)
    requires f < |v.files|
  {
    b != 0 && exists p :: OkPos(p) && NodeOf(v, f, p) == b
  }

  lemma DoubleNeedsRoot(v: Volume, f: nat, p: Pos)
    requires f < |v.files| && OkPos(p) && NodeOf(v, f, p) != 0
    ensures Truncated(p) || NodeOf(v, f, DblRoot) != 0
  {
    if p.DblLeaf? {
      assert NodeOf(v, f, DblMid(p.i)) != 0;
    }
  }

  /** itrunc gives back every block of the file exactly when the file has no double-indirect block. */
  lemma TruncReleasesAllIff(v: Volume, f: nat, d': Disk)
    requires Sound(v) && SameData(v.d, d', v.lo) && f < |v.files|
    ensures (forall b :: Owns(v, f, b) ==> b !in Trunc(v, f, d').used) <==> NodeOf(v, f, DblRoot) == 0
  {
    var v' := Trunc(v, f, d');
    if NodeOf(v, f, DblRoot) == 0 {
      forall b | Owns(v, f, b) ensures b !in v'.used {
        var p :| OkPos(p) && NodeOf(v, f, p) == b;
        DoubleNeedsRoot(v, f, p);
        var k := TruncPosCovers(p);
        assert InUse(v, f, p);
      }
    } else {
      TruncSound(v, f, d');
      assert InUse(v', f, DblRoot);
      assert Owns(v, f, NodeOf(v, f, DblRoot));
    }
  }
}
