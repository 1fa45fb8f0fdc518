/**
 The on-disk format shared by the kernel and mkfs (src/fs.h): the super block, inode blocks,
 bitmap blocks and data blocks, and how a block number or an inode number finds its place.
 */
module FsLayout {
  import opened Blocks
  import opened FileTree

  const IPB: nat := 8
  const T_DEV := 3

  type Half = x: int | 0 <= x < 0x1_0000

  const T_DIR: Half := 1
  const T_FILE: Half := 2
  const DIRSIZ: nat := 30

  /** An inode, in memory or on disk. */
  datatype Dinode = Dinode(kind: Half, major: Half, minor: Half, nlink: Half, size: Word, addrs: Inode)

  function IBlock(i: nat): (r: nat) {
    i / IPB + 2
  }

  function BBlock(b: nat, ninodes: nat): (r: nat) {
    b / BPB + ninodes / IPB + 3
  }

  /** The first bitmap block: everything below it is the boot block, the super block and inodes. */
  function BitStart(ninodes: nat): (r: nat) {
    ninodes / IPB + 3
  }

  /** The first data block. */
  function DataStart(size: nat, ninodes: nat): (r: nat) {
    BitStart(ninodes) + size / BPB + 1
  }

  predicate Geometry(size: nat, ninodes: nat) {
    DataStart(size, ninodes) <= size < 0x8000_0000
  }

  /** Inode blocks lie below the bitmap, bitmap blocks between it and the data. */
  lemma Regions(size: nat, ninodes: nat, i: nat, b: nat)
    requires i < ninodes && b < size
    ensures 1 < IBlock(i) < BitStart(ninodes) <= BBlock(b, ninodes) < DataStart(size, ninodes)
  {
  }

  // The free bitmap

  predicate Bit(d: Disk, ninodes: nat, b: nat) {
    BBlock(b, ninodes) < |d| && GetBit(d[BBlock(b, ninodes)], b % BPB)
  }

  function PutBitAt(d: Disk, ninodes: nat, b: nat, on: bool): (r: Disk)
    requires BBlock(b, ninodes) < |d|
    ensures |r| == |d|
    ensures forall c: nat :: Bit(r, ninodes, c) == if c == b then on else Bit(d, ninodes, c)
    ensures forall x: nat :: x < |d| && x != BBlock(b, ninodes) ==> r[x] == d[x]
  {
    var s := BBlock(b, ninodes);
    var r := d[s := PutBit(d[s], b % BPB, on)];
    assert forall c: nat :: BBlock(c, ninodes) == s && c % BPB == b % BPB ==> c == b by { hide GetBit, PutBit; }
    assert forall c: nat :: Bit(r, ninodes, c) == if c == b then on else Bit(d, ninodes, c) by { hide GetBit, PutBit; }
    r
  }

  function Used(d: Disk, size: nat, ninodes: nat): (r: set<nat>)
    ensures forall b: nat :: b in r <==> b < size && Bit(d, ninodes, b)
  {
    set b: nat | b < size && Bit(d, ninodes, b)
  }

  /** Only the bitmap blocks decide which blocks are used. */
  lemma UsedDependsOnBitmap(d: Disk, d': Disk, size: nat, ninodes: nat)
    requires |d| == |d'| && forall x: nat :: BitStart(ninodes) <= x < DataStart(size, ninodes) && x < |d| ==> d'[x] == d[x]
    ensures Used(d', size, ninodes) == Used(d, size, ninodes)
  {
    forall b: nat | b < size ensures Bit(d', ninodes, b) == Bit(d, ninodes, b) {
      assert BitStart(ninodes) <= BBlock(b, ninodes) < DataStart(size, ninodes);
    }
  }

  // Inodes

  function DinodeWords(di: Dinode): (r: seq<Word>)
    ensures |r| == 16
  {
    [di.kind + 0x1_0000 * di.major, di.minor + 0x1_0000 * di.nlink, di.size] + di.addrs.at
  }

  function FromWords(ws: seq<Word>): (r: Dinode)
    requires |ws| == 16
  {
    Dinode(ws[0] % 0x1_0000, ws[0] / 0x1_0000, ws[1] % 0x1_0000, ws[1] / 0x1_0000, ws[2], Addrs(ws[3..]))
  }

  function GetDinode(b: Block, k: nat): (r: Dinode)
    requires k < IPB
  {
    FromWords(GetWords(b, 16 * k, 16))
  }

  function PutDinode(b: Block, k: nat, di: Dinode): (r: Block)
    requires k < IPB
  {
    PutWords(b, 16 * k, DinodeWords(di))
  }

  /** An inode written to its slot reads back, and the other seven inodes of the block are untouched. */
  lemma DinodeRoundTrip(b: Block, k: nat, di: Dinode, j: nat)
    requires k < IPB && j < IPB
    ensures GetDinode(PutDinode(b, k, di), j) == if j == k then di else GetDinode(b, j)
  {
    assert FromWords(DinodeWords(di)) == di by {
      assert DinodeWords(di)[3..] == di.addrs.at;
    }
    hide GetWords, PutWords, FromWords, DinodeWords;
    PutWordsReads(b, 16 * k, DinodeWords(di), 16 * j);
  }

  function BlankInode(): (r: Dinode) {
    Dinode(0, 0, 0, 0, 0, NoAddrs())
  }

  function DiskInode(d: Disk, i: nat): (r: Dinode)
    requires IBlock(i) < |d|
  {
    GetDinode(d[IBlock(i)], i % IPB)
  }

  /** iupdate and winode: inode i stored in its slot of its block. */
  function StoreInode(d: Disk, i: nat, di: Dinode): (r: Disk)
    requires IBlock(i) < |d|
    ensures |r| == |d|
    ensures forall x: nat :: x < |d| && x != IBlock(i) ==> r[x] == d[x]
  {
    d[IBlock(i) := PutDinode(d[IBlock(i)], i % IPB, di)]
  }

  lemma StoreInodeReads(d: Disk, i: nat, di: Dinode, j: nat)
    requires IBlock(i) < |d| && IBlock(j) < |d|
    ensures DiskInode(StoreInode(d, i, di), j) == if j == i then di else DiskInode(d, j)
  {
    DinodeRoundTrip(d[IBlock(i)], i % IPB, di, j % IPB);
    hide GetDinode, PutDinode;
  }

  // The format, byte by byte

  /** The 16-bit number at byte k, low byte first. */
  function GetHalf(b: Block, k: nat): (r: Half)
    requires k + 1 < BSIZE
  {
    (b.at[k] as int) + 0x100 * (b.at[k + 1] as int)
  }

  lemma Halves(b: Block, i: nat)
    requires i < NWORDS
    ensures GetWord(b, i) % 0x1_0000 == GetHalf(b, 4 * i) && GetWord(b, i) / 0x1_0000 == GetHalf(b, 4 * i + 2)
  {
    assert GetWord(b, i) == GetHalf(b, 4 * i) + 0x1_0000 * GetHalf(b, 4 * i + 2);
  }

  /** struct dinode: inode i is the i % 8-th 64 bytes of sector i / 8 + 2, four shorts, the size, then the addresses. */
  lemma InodeFormat(d: Disk, i: nat)
    requires i / 8 + 2 < |d|
    ensures IBlock(i) < |d|
    ensures var di, b, o := DiskInode(d, i), d[i / 8 + 2], 64 * (i % 8);
            && di.kind == GetHalf(b, o) && di.major == GetHalf(b, o + 2) && di.minor == GetHalf(b, o + 4) && di.nlink == GetHalf(b, o + 6)
            && di.size == GetWord(b, o / 4 + 2)
            && (forall k: nat :: k < 13 ==> di.addrs.at[k] == GetWord(b, o / 4 + 3 + k))
  {
    var b, k := d[i / 8 + 2], i % 8;
    Halves(b, 16 * k);
    Halves(b, 16 * k + 1);
    hide GetWord, GetHalf;
    var ws := GetWords(b, 16 * k, 16);
    assert forall a: nat :: a < 13 ==> ws[3..][a] == ws[3 + a];
  }

  const MASKS: seq<nat> := [1, 2, 4, 8, 16, 32, 64, 128]

  lemma {:induction false} BitValue(x: nat, k: nat)
    requires k < 8
    ensures NatBit(x, k) <==> x / MASKS[k] % 2 == 1
    decreases k
  {
    if k > 0 {
      BitValue(x / 2, k - 1);
    }
  }

  /** The bitmap: block b's bit is bit b % 8 of byte b % 4096 / 8 of sector b / 4096 + ninodes / 8 + 3. */
  lemma BitFormat(d: Disk, ninodes: nat, b: nat)
    requires b / 4096 + ninodes / 8 + 3 < |d|
    ensures Bit(d, ninodes, b) <==> d[b / 4096 + ninodes / 8 + 3].at[b % 4096 / 8] / MASKS[b % 8] % 2 == 1
  {
    var s := b / 4096 + ninodes / 8 + 3;
    BitValue(d[s].at[b % 4096 / 8], b % 8);
    assert b % 4096 % 8 == b % 8 && BBlock(b, ninodes) == s;
    hide NatBit;
    assert GetBit(d[s], b % BPB) == NatBit(d[s].at[b % 4096 / 8], b % 8);
  }
}
