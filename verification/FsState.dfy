/**
 Blocks, inodes and file contents as the kernel keeps them (src/fs.c).  The disk is what bread
 shows: home locations seen through the buffer cache and the log.
 */
module FsState {
  import opened Blocks
  import opened FileTree
  import opened FsLayout

  /** struct superblock. */
  datatype Super = Super(size: nat, nblocks: nat, ninodes: nat, nlog: nat)

  /** What the kernel works on: the disk, and the in-memory copy of every inode. */
  datatype State = State(d: Disk, inodes: seq<Dinode>)

  ghost function Maps(inodes: seq<Dinode>): (r: seq<Inode>)
    ensures |r| == |inodes|
    ensures forall i :: 0 <= i < |inodes| ==> r[i] == inodes[i].addrs
  {
    if inodes == [] then [] else Maps(inodes[..|inodes| - 1]) + [inodes[|inodes| - 1].addrs]
  }

  ghost function Vol(s: State, sb: Super): (r: Volume)
    ensures |r.files| == |s.inodes| && r.d == s.d
  {
    Volume(s.d, Maps(s.inodes), Used(s.d, sb.size, sb.ninodes), DataStart(sb.size, sb.ninodes))
  }

  /** The super block describes a disk that holds the whole file system. */
  ghost predicate Laid(d: Disk, sb: Super) {
    && Geometry(sb.size, sb.ninodes) && sb.size <= |d|
    && GetWord(d[1], 0) == sb.size && GetWord(d[1], 1) == sb.nblocks
    && GetWord(d[1], 2) == sb.ninodes && GetWord(d[1], 3) == sb.nlog
  }

  /** The invariant of a mounted file system. */
  ghost predicate Ok(s: State, sb: Super) {
    && Laid(s.d, sb) && |s.inodes| == sb.ninodes
    && (forall b: nat :: b < DataStart(sb.size, sb.ninodes) ==> b in Used(s.d, sb.size, sb.ninodes))
    && (forall i :: 0 <= i < |s.inodes| ==> s.inodes[i].size <= MAXBYTES)
    && Sound(Vol(s, sb))
  }

  /** Super block and inode blocks are the same. */
  ghost predicate SameHead(d: Disk, d': Disk, ninodes: nat) {
    |d'| == |d| && forall x :: 0 <= x < BitStart(ninodes) && x < |d| ==> d'[x] == d[x]
  }

  ghost predicate AllUsed(d: Disk, sb: Super) {
    forall b: nat :: b < sb.size ==> Bit(d, sb.ninodes, b)
  }

  /** The on-disk copy of inode f is its in-memory copy. */
  ghost predicate Synced(s: State, f: nat) {
    f < |s.inodes| && IBlock(f) < |s.d| && DiskInode(s.d, f) == s.inodes[f]
  }

  // Allocation

  /** balloc of block b: bit set, block zeroed. */
  function Claim(d: Disk, ninodes: nat, b: nat): (r: Disk)
    requires BBlock(b, ninodes) < |d| && b < |d|
    ensures |r| == |d|
  {
    PutBitAt(d, ninodes, b, true)[b := ZeroBlock()]
  }

  /** The state after a fresh block b became the node at p of file f. */
  ghost function Grown(s: State, sb: Super, f: nat, p: Pos, b: Word): (r: State)
    requires Ok(s, sb) && CanPlant(Vol(s, sb), f, p, b) && b < sb.size
  {
    Regions(sb.size, sb.ninodes, f, b);
    var v := Vol(s, sb).(d := PutBitAt(s.d, sb.ninodes, b, true));
    State(Plant(v, f, p, b).d, s.inodes[f := s.inodes[f].(addrs := PlantInode(s.inodes[f].addrs, p, b))])
  }

  lemma GrownVolume(s: State, sb: Super, f: nat, p: Pos, b: Word)
    requires Ok(s, sb) && CanPlant(Vol(s, sb), f, p, b) && b < sb.size
    ensures BBlock(b, sb.ninodes) < |s.d|
    ensures SameData(s.d, PutBitAt(s.d, sb.ninodes, b, true), DataStart(sb.size, sb.ninodes))
    ensures Vol(Grown(s, sb, f, p, b), sb) == Plant(Vol(s, sb).(d := PutBitAt(s.d, sb.ninodes, b, true)), f, p, b)
    ensures SameHead(s.d, Grown(s, sb, f, p, b).d, sb.ninodes)
  {
    Regions(sb.size, sb.ninodes, f, b);
    var v, s' := Vol(s, sb), Grown(s, sb, f, p, b);
    var d1 := PutBitAt(s.d, sb.ninodes, b, true);
    var v1 := v.(d := d1);
    hide PutBitAt, Bit, Used, Sound, Node;
    MetaKeeps(v, d1);
    PlantLow(v1, f, p, b);
    UsedDependsOnBitmap(d1, s'.d, sb.size, sb.ninodes);
    assert Used(d1, sb.size, sb.ninodes) == v.used + {b as nat};
    assert Maps(s'.inodes) == Plant(v1, f, p, b).files;
  }

  /** Planting writes no block below the data area. */
  lemma PlantLow(v: Volume, f: nat, p: Pos, b: Word)
    requires CanPlant(v, f, p, b)
    ensures forall x :: 0 <= x < v.lo && x < |v.d| ==> Plant(v, f, p, b).d[x] == v.d[x]
  {
    PlantBlocks(v, f, p, b);
  }

  lemma GrownOk(s: State, sb: Super, f: nat, p: Pos, b: Word)
    requires Ok(s, sb) && CanPlant(Vol(s, sb), f, p, b) && b < sb.size
    ensures var s' := Grown(s, sb, f, p, b);
            Ok(s', sb) && Extends(Vol(s, sb), Vol(s', sb), f, {p}) && NodeOf(Vol(s', sb), f, p) == b
  {
    GrownVolume(s, sb, f, p, b);
    GrowKeeps(Vol(s, sb), PutBitAt(s.d, sb.ninodes, b, true), f, p, b);
    hide PutBitAt, Bit, Sound, Extends, NodeOf, CanPlant, PlantDisk, PlantInode;
    var s' := Grown(s, sb, f, p, b);
    assert s'.d[1] == s.d[1];
  }

  /** One level of bmap: the node at p is there, filled if it was absent; every file is as it was. */
  ghost predicate Stepped(s: State, s': State, sb: Super, f: nat, P: set<Pos>, p: Pos, addr: Word) {
    && Ok(s', sb) && |s'.inodes| == |s.inodes| && f < |s.inodes| && OkPos(p)
    && Extends(Vol(s, sb), Vol(s', sb), f, P) && SameHead(s.d, s'.d, sb.ninodes)
    && s'.inodes == s.inodes[f := s.inodes[f].(addrs := s'.inodes[f].addrs)]
    && addr == NodeOf(Vol(s', sb), f, p) && 0 < addr < |s'.d|
    && (NodeOf(Vol(s, sb), f, p) != 0 ==> s' == s)
  }

  lemma StayStepped(s: State, sb: Super, f: nat, P: set<Pos>, p: Pos)
    requires Ok(s, sb) && f < |s.inodes| && OkPos(p) && NodeOf(Vol(s, sb), f, p) != 0
    ensures Stepped(s, s, sb, f, P, p, NodeOf(Vol(s, sb), f, p))
  {
    assert InUse(Vol(s, sb), f, p);
  }

  lemma GrowStepped(s: State, sb: Super, f: nat, p: Pos, b: Word)
    requires Ok(s, sb) && CanPlant(Vol(s, sb), f, p, b) && b < sb.size
    ensures Stepped(s, Grown(s, sb, f, p, b), sb, f, {p}, p, b)
  {
    GrownVolume(s, sb, f, p, b);
    GrownOk(s, sb, f, p, b);
    hide Ok, Extends, PutBitAt, Sound, NodeOf, PlantDisk, PlantInode;
  }

  lemma SteppedThen(s: State, s1: State, s2: State, sb: Super, f: nat, P: set<Pos>, p: Pos, a: Word, Q: set<Pos>, q: Pos, b: Word)
    requires Ok(s, sb) && Stepped(s, s1, sb, f, P, p, a) && Stepped(s1, s2, sb, f, Q, q, b) && !IsRoot(q) && Parent(q) == p
    ensures Stepped(s, s2, sb, f, P + Q, q, b)
  {
    ExtendsThen(Vol(s, sb), Vol(s1, sb), Vol(s2, sb), f, P, Q);
    hide Extends, Ok, Vol;
  }
}
