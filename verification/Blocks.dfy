/**
 The 512-byte disk block and the three ways the kernel looks into one: as bytes,
 as 128 little-endian 32-bit words, and as 4096 bits (the free bitmap).
 */
module Blocks {

  const BSIZE := 512
  const NWORDS := 128
  const BPB := 4096

  type Byte = x: int | 0 <= x < 256
  type Word = x: int | 0 <= x < 0x1_0000_0000
  datatype Bytes = Bytes(at: seq<Byte>)
  type Block = b: Bytes | |b.at| == BSIZE witness Bytes(seq(BSIZE, _ => 0))

  function ZeroBlock(): (b: Block) {
    Bytes(seq(BSIZE, _ => 0))
  }

  /** The 32-bit word at index i, low byte first. */
  function GetWord(b: Block, i: nat): (w: Word)
    requires i < NWORDS
  {
    (b.at[4 * i] as int) + 0x100 * (b.at[4 * i + 1] as int)
    + 0x1_0000 * (b.at[4 * i + 2] as int) + 0x100_0000 * (b.at[4 * i + 3] as int)
  }

  /** The four bytes xint and the x86 store for a word. */
  function WordBytes(w: Word): (r: seq<Byte>)
    ensures |r| == 4
    ensures (r[0] as int) + 0x100 * (r[1] as int) + 0x1_0000 * (r[2] as int) + 0x100_0000 * (r[3] as int) == w
  {
    [w % 0x100, w / 0x100 % 0x100, w / 0x1_0000 % 0x100, w / 0x100_0000]
  }

  function SetWord(b: Block, i: nat, w: Word): (r: Block)
    requires i < NWORDS
    ensures GetWord(r, i) == w
    ensures forall j: nat :: j < NWORDS && j != i ==> GetWord(r, j) == GetWord(b, j)
  {
    Bytes(b.at[..4 * i] + WordBytes(w) + b.at[4 * i + 4..])
  }

  /** Consecutive words stored from index i on: a memmove of a structure made of words. */
  function PutWords(b: Block, i: nat, ws: seq<Word>): (r: Block)
    requires i + |ws| <= NWORDS
    ensures forall j: nat :: j < NWORDS ==> GetWord(r, j) == if i <= j < i + |ws| then ws[j - i] else GetWord(b, j)
    decreases |ws|
  {
    if ws == [] then b else PutWords(SetWord(b, i, ws[0]), i + 1, ws[1..])
  }

  /** The n words from index i on. */
  function GetWords(b: Block, i: nat, n: nat): (ws: seq<Word>)
    requires i + n <= NWORDS
    ensures |ws| == n
    ensures forall j: nat :: j < n ==> ws[j] == GetWord(b, i + j)
  {
    if n == 0 then [] else GetWords(b, i, n - 1) + [GetWord(b, i + n - 1)]
  }

  /** Stored words read back, and words elsewhere are untouched. */
  lemma PutWordsReads(b: Block, i: nat, ws: seq<Word>, j: nat)
    requires i + |ws| <= NWORDS && j + |ws| <= NWORDS && (j == i || j + |ws| <= i || i + |ws| <= j)
    ensures GetWords(PutWords(b, i, ws), j, |ws|) == if j == i then ws else GetWords(b, j, |ws|)
  {
    hide GetWord, PutWords, GetWords;
  }

  lemma ZeroBlockWords()
    ensures forall j: nat :: j < NWORDS ==> GetWord(ZeroBlock(), j) == 0
  {
  }

  function Pow2(e: nat): (r: nat)
    ensures r > 0
  {
    if e == 0 then 1 else 2 * Pow2(e - 1)
  }

  /** x & (1 << k) != 0 */
  predicate NatBit(x: nat, k: nat) {
    if k == 0 then x % 2 == 1 else NatBit(x / 2, k - 1)
  }

  /** x | (1 << k) when `on`, x & ~(1 << k) otherwise, on an e-bit number. */
  function PutNatBit(x: nat, k: nat, on: bool, e: nat): (r: nat)
    requires k < e && x < Pow2(e)
    ensures r < Pow2(e)
    ensures NatBit(r, k) == on
    ensures forall j: nat :: j != k ==> NatBit(r, j) == NatBit(x, j)
  {
    if k == 0 then
      x / 2 * 2 + (if on then 1 else 0)
    else
      x % 2 + 2 * PutNatBit(x / 2, k - 1, on, e - 1)
  }

  predicate GetBit(b: Block, i: nat)
    requires i < BPB
  {
    NatBit(b.at[i / 8], i % 8)
  }

  function PutBit(b: Block, i: nat, on: bool): (r: Block)
    requires i < BPB
    ensures GetBit(r, i) == on
    ensures forall j: nat :: j < BPB && j != i ==> GetBit(r, j) == GetBit(b, j)
  {
    assert Pow2(8) == 256;
    Bytes(b.at[i / 8 := PutNatBit(b.at[i / 8], i % 8, on, 8)])
  }

  lemma ZeroBlockBits()
    ensures forall i: nat :: i < BPB ==> !GetBit(ZeroBlock(), i)
  {
    forall i: nat | i < BPB ensures !GetBit(ZeroBlock(), i) {
      ZeroBits(i % 8);
    }
  }

  lemma ZeroBits(k: nat)
    ensures !NatBit(0, k)
  {
  }
}
