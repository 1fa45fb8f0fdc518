/** The image mkfs builds (src/mkfs.c), block by block, as a volume the kernel will understand. */
module MkfsState {
  import opened Blocks
  import opened FileTree
  import opened FileBytes
  import opened FsLayout
  import opened FsState

  /** The image, the addresses of every inode (one of them held in memory), and freeblock. */
  datatype Mk = Mk(d: Disk, inos: seq<Inode>, free: nat)

  /** The blocks handed out so far. */
  ghost function Upto(free: nat): (r: set<nat>)
    ensures forall b: nat :: b in r <==> b < free
  {
    if free == 0 then {} else Upto(free - 1) + {free - 1}
  }

  ghost function MkVol(m: Mk, sb: Super): (r: Volume)
    ensures |r.files| == |m.inos|
  {
    Volume(m.d, m.inos, Upto(m.free), DataStart(sb.size, sb.ninodes))
  }

  /** Blocks not handed out, and the bitmap, are still as wsect(zeroes) left them. */
  ghost predicate Blank(m: Mk, sb: Super) {
    && (forall x :: m.free <= x < |m.d| ==> m.d[x] == ZeroBlock())
    && (forall x :: BitStart(sb.ninodes) <= x < DataStart(sb.size, sb.ninodes) && x < |m.d| ==> m.d[x] == ZeroBlock())
  }

  ghost predicate Core(m: Mk, sb: Super) {
    && Laid(m.d, sb) && |m.d| == sb.size && |m.inos| == sb.ninodes
    && DataStart(sb.size, sb.ninodes) <= m.free <= sb.size && Blank(m, sb)
    && Sound(MkVol(m, sb))
  }

  lemma CoreFacts(m: Mk, sb: Super)
    requires Core(m, sb)
    ensures |m.d| == sb.size < 0x8000_0000 && |m.inos| == sb.ninodes && Laid(m.d, sb) && Sound(MkVol(m, sb))
    ensures 1 < BitStart(sb.ninodes) <= DataStart(sb.size, sb.ninodes) <= m.free <= sb.size
  {
  }

  /** freeblock++ and its address stored in the inode or in an indirect block. */
  ghost function Planted(m: Mk, f: nat, p: Pos): (r: Mk)
    requires f < |m.inos| && OkPos(p) && m.free < |m.d| < 0x8000_0000
  {
    Mk(PlantDisk(m.d, m.inos[f], p, m.free), m.inos[f := PlantInode(m.inos[f], p, m.free)], m.free + 1)
  }

  lemma PlantedCore(m: Mk, sb: Super, f: nat, p: Pos)
    requires Core(m, sb) && m.free < sb.size && f < |m.inos| && OkPos(p)
    requires Node(m.d, m.inos[f], p) == 0 && (!IsRoot(p) ==> Node(m.d, m.inos[f], Parent(p)) != 0)
    ensures var m' := Planted(m, f, p);
            Core(m', sb) && Extends(MkVol(m, sb), MkVol(m', sb), f, {p})
            && NodeOf(MkVol(m', sb), f, p) == m.free && SameHead(m.d, m'.d, sb.ninodes)
  {
    hide Node, GetWord, SetWord, PlantDisk, PlantInode, Owned, InUse, Apart;
    var v, b := MkVol(m, sb), m.free;
    assert CanPlant(v, f, p, b);
    PlantedVolume(v, f, p, b, sb);
    assert Upto(b + 1) == Upto(b) + {b};
    assert MkVol(Planted(m, f, p), sb) == Plant(v, f, p, b);
  }

  lemma PlantedVolume(v: Volume, f: nat, p: Pos, b: Word, sb: Super)
    requires CanPlant(v, f, p, b) && v.lo == DataStart(sb.size, sb.ninodes)
    ensures var v' := Plant(v, f, p, b);
            Sound(v') && Extends(v, v', f, {p}) && NodeOf(v', f, p) == b && SameHead(v.d, v'.d, sb.ninodes)
            && forall x :: 0 <= x < |v.d| && x != b && (x < v.lo || x !in v.used) ==> v'.d[x] == v.d[x]
  {
    PlantSound(v, f, p, b);
    PlantExtends(v, f, p, b);
    PlantNode(v, f, p, b, f, p);
    PlantBlocks(v, f, p, b);
    hide Sound, Extends, NodeOf, Plant, InUse;
  }

  /** A block fresh from the zeroed image need not be cleared. */
  lemma PlantedDisk(m: Mk, sb: Super, f: nat, p: Pos)
    requires Core(m, sb) && m.free < sb.size && f < |m.inos| && OkPos(p)
    ensures IsRoot(p) ==> Planted(m, f, p).d == m.d
    ensures !IsRoot(p) && Node(m.d, m.inos[f], Parent(p)) < |m.d| ==>
              Planted(m, f, p).d == StoreEntry(m.d, Node(m.d, m.inos[f], Parent(p)), Slot(p), m.free)
  {
    hide Node, GetWord, SetWord, Sound;
    assert m.d[m.free := ZeroBlock()] == m.d;
  }

  /** The walk to one block: what it has allocated, and the address it found. */
  ghost predicate Walked(m: Mk, m': Mk, sb: Super, f: nat, P: set<Pos>, p: Pos, x: Word) {
    && Core(m', sb) && f < |m.inos| == |m'.inos| && OkPos(p) && m'.inos == m.inos[f := m'.inos[f]]
    && SameHead(m.d, m'.d, sb.ninodes) && Extends(MkVol(m, sb), MkVol(m', sb), f, P)
    && x == Node(m'.d, m'.inos[f], p) && 0 < x < |m'.d|
    && forall q :: q in P && IsLeaf(q) ==> q == p
  }

  lemma StayWalked(m: Mk, sb: Super, f: nat, p: Pos)
    requires Core(m, sb) && f < |m.inos| && OkPos(p) && Node(m.d, m.inos[f], p) != 0
    ensures Walked(m, m, sb, f, {p}, p, Node(m.d, m.inos[f], p))
  {
    hide Owned, Apart, Blank, Laid;
    assert InUse(MkVol(m, sb), f, p);
  }

  lemma PlantWalked(m: Mk, sb: Super, f: nat, p: Pos)
    requires Core(m, sb) && m.free < sb.size && f < |m.inos| && OkPos(p)
    requires Node(m.d, m.inos[f], p) == 0 && (!IsRoot(p) ==> Node(m.d, m.inos[f], Parent(p)) != 0)
    ensures Walked(m, Planted(m, f, p), sb, f, {p}, p, m.free)
  {
    hide Core, Extends, Node, PlantDisk, PlantInode, SameHead;
    PlantedCore(m, sb, f, p);
    CoreFacts(m, sb);
  }

  lemma WalkedThen(m: Mk, m1: Mk, m2: Mk, sb: Super, f: nat, P: set<Pos>, p: Pos, x: Word, q: Pos, y: Word)
    requires Core(m, sb) && Walked(m, m1, sb, f, P, p, x) && Walked(m1, m2, sb, f, {q}, q, y) && !IsRoot(q) && Parent(q) == p
    ensures Walked(m, m2, sb, f, P + {q}, q, y)
  {
    hide Core, Extends, Node, MkVol;
    CoreFacts(m, sb);
    CoreFacts(m1, sb);
    ExtendsThen(MkVol(m, sb), MkVol(m1, sb), MkVol(m2, sb), f, P, {q});
  }

  // Appending

  /** Blocks present in v' were present in v or hold byte `at` of file f. */
  ghost predicate OnlyBlock(v: Volume, v': Volume, f: nat, at: nat) {
    && |v'.files| == |v.files|
    && forall g, o :: 0 <= g < |v.files| && 0 <= o < MAXBYTES && HasBlock(v', g, o) ==>
         HasBlock(v, g, o) || (g == f && o / BSIZE == at / BSIZE)
  }

  lemma WalkedMeans(m: Mk, m': Mk, sb: Super, f: nat, P: set<Pos>, at: nat, x: Word)
    requires Core(m, sb) && at < MAXBYTES && Walked(m, m', sb, f, P, LeafOf(at / BSIZE), x)
    ensures Edited(MkVol(m, sb), MkVol(m', sb), f, at, []) && HasBlock(MkVol(m', sb), f, at)
    ensures OnlyBlock(MkVol(m, sb), MkVol(m', sb), f, at)
  {
    hide Core, Sound, Edited, LeafOf, Node;
    CoreFacts(m, sb);
    CoreFacts(m', sb);
    var v, v' := MkVol(m, sb), MkVol(m', sb);
    ExtendsEdited(v, v', f, P, at);
    forall g, o | 0 <= g < |v.files| && 0 <= o < MAXBYTES && HasBlock(v', g, o)
      ensures HasBlock(v, g, o) || (g == f && o / BSIZE == at / BSIZE)
    {
      assert KeptAt(v, v', f, P, g, LeafOf(o / BSIZE));
      if LeafOf(o / BSIZE) == LeafOf(at / BSIZE) {
        LeafOfInjective(o / BSIZE, at / BSIZE);
      }
    }
  }

  /** One turn of iappend's loop: the walk to the block, then its bytes. */
  ghost predicate Turned(m: Mk, m': Mk, sb: Super, f: nat, at: nat, part: seq<Byte>) {
    && Core(m', sb) && f < |m.inos| == |m'.inos| && m'.inos == m.inos[f := m'.inos[f]] && SameHead(m.d, m'.d, sb.ninodes)
    && at < MAXBYTES && at % BSIZE + |part| <= BSIZE
    && Edited(MkVol(m, sb), MkVol(m', sb), f, at, part) && HasBlock(MkVol(m', sb), f, at)
    && OnlyBlock(MkVol(m, sb), MkVol(m', sb), f, at)
  }

  /** bcopy into the block and wsect. */
  lemma PatchTurned(m: Mk, sb: Super, f: nat, at: nat, src: seq<Byte>)
    requires Core(m, sb) && f < |m.inos| && at < MAXBYTES && at % BSIZE + |src| <= BSIZE && HasBlock(MkVol(m, sb), f, at)
    ensures var a := Node(m.d, m.inos[f], LeafOf(at / BSIZE));
            a < |m.d| && Turned(m, m.(d := m.d[a := Patch(m.d[a], at % BSIZE, src)]), sb, f, at, src)
  {
    hide Edited, Sound, Patch, Node, LeafOf, GetWord;
    var v := MkVol(m, sb);
    PatchEdited(v, f, at, src);
    var a := Node(m.d, m.inos[f], LeafOf(at / BSIZE));
    assert a == NodeOf(v, f, LeafOf(at / BSIZE));
    var m' := m.(d := m.d[a := Patch(m.d[a], at % BSIZE, src)]);
    assert MkVol(m', sb) == v.(d := m'.d);
    assert OnlyBlock(v, v.(d := m'.d), f, at);
  }

  lemma WalkThenPatch(m: Mk, m1: Mk, sb: Super, f: nat, P: set<Pos>, at: nat, x: Word, part: seq<Byte>)
    requires Core(m, sb) && at < MAXBYTES && at % BSIZE + |part| <= BSIZE && Walked(m, m1, sb, f, P, LeafOf(at / BSIZE), x)
    ensures 0 < x < |m1.d| && Turned(m, m1.(d := m1.d[x := Patch(m1.d[x], at % BSIZE, part)]), sb, f, at, part)
  {
    hide Core, Extends, Edited, HasBlock, MkVol, Patch, Node, LeafOf;
    WalkedMeans(m, m1, sb, f, P, at, x);
    PatchTurned(m1, sb, f, at, part);
    var m2 := m1.(d := m1.d[x := Patch(m1.d[x], at % BSIZE, part)]);
    EditedThen(MkVol(m, sb), MkVol(m1, sb), MkVol(m2, sb), f, at, [], part);
    assert [] + part == part;
  }

  lemma EditedAt(v: Volume, v': Volume, f: nat, off: nat, src: seq<Byte>, g: nat, o: nat)
    requires Edited(v, v', f, off, src) && g < |v.files| && o < MAXBYTES
    ensures ByteAfter(v, v', f, off, src, g, o)
  {
    hide ByteAfter;
  }

  /** iappend's loop after `done` bytes: they are in place, in blocks that are there, and no block is wasted. */
  ghost predicate Appending(m: Mk, m': Mk, sb: Super, f: nat, off: nat, done: seq<Byte>) {
    && Core(m', sb) && f < |m.inos| == |m'.inos| && m'.inos == m.inos[f := m'.inos[f]] && SameHead(m.d, m'.d, sb.ninodes)
    && Edited(MkVol(m, sb), MkVol(m', sb), f, off, done)
    && Covers(MkVol(m', sb), f, off, off + |done|)
    && forall g, o :: 0 <= g < |m.inos| && 0 <= o < MAXBYTES && HasBlock(MkVol(m', sb), g, o) ==>
         HasBlock(MkVol(m, sb), g, o) || (g == f && o / BSIZE * BSIZE < off + |done|)
  }

  lemma AppendStart(m: Mk, sb: Super, f: nat, off: nat)
    requires Core(m, sb) && f < |m.inos|
    ensures Appending(m, m, sb, f, off, [])
  {
    hide Core, MkVol, ByteAt, HasBlock;
  }

  lemma AppendOn(m: Mk, m1: Mk, m2: Mk, sb: Super, f: nat, off: nat, done: seq<Byte>, part: seq<Byte>)
    requires Appending(m, m1, sb, f, off, done) && |part| > 0 && Turned(m1, m2, sb, f, off + |done|, part)
    ensures Appending(m, m2, sb, f, off, done + part)
  {
    hide Core, MkVol, ByteAt, NodeOf, LeafOf, Edited;
    var v, v1, v2, at := MkVol(m, sb), MkVol(m1, sb), MkVol(m2, sb), off + |done|;
    EditedThen(v, v1, v2, f, off, done, part);
    forall o | off <= o < at + |part| && o < MAXBYTES ensures HasBlock(v2, f, o) {
      EditedAt(v1, v2, f, at, part, f, o);
      if o >= at {
        assert o / BSIZE == at / BSIZE;
      }
    }
  }
}
