/** The header sector of src/log.c: the count n in word 0, then n sector numbers. */
module LogHeader {
  import opened Blocks
  import opened Wal

  function HeadCount(b: Block): (n: Word) {
    GetWord(b, 0)
  }

  /** The header block b after write_head stored n and the first k sector numbers over it. */
  function StoreSectors(b: Block, sectors: seq<Word>, k: nat): (r: Block)
    requires k <= |sectors| <= LOGSIZE
    ensures HeadCount(r) == |sectors|
    ensures forall i: nat :: i < k ==> GetWord(r, i + 1) == sectors[i]
  {
    if k == 0 then SetWord(b, 0, |sectors|) else SetWord(StoreSectors(b, sectors, k - 1), k, sectors[k - 1])
  }

  /** What write_head makes of header block b; a longer list is never written. */
  function EncodeHead(b: Block, sectors: seq<Word>): (r: Block) {
    if |sectors| <= LOGSIZE then StoreSectors(b, sectors, |sectors|) else b
  }

  /** What read_head finds in header block b; a count beyond LOGSIZE reads as an overlong list. */
  function DecodeHead(b: Block): (r: seq<Word>) {
    if HeadCount(b) <= LOGSIZE then seq(HeadCount(b), i requires 0 <= i < LOGSIZE => GetWord(b, i + 1))
    else seq(LOGSIZE + 1, _ => 0)
  }

  function At(start: nat, size: nat): (L: Layout<Block>) {
    Layout(start, size, DecodeHead, EncodeHead)
  }

  /** read_head reads back what write_head wrote, whatever the block held before. */
  lemma HeaderRoundTrip(b: Block, sectors: seq<Word>)
    requires |sectors| <= LOGSIZE
    ensures DecodeHead(EncodeHead(b, sectors)) == sectors
    ensures GetWord(EncodeHead(b, sectors), 0) == |sectors|
    ensures forall i: nat :: i < |sectors| ==> GetWord(EncodeHead(b, sectors), i + 1) == sectors[i]
  {
    var r := StoreSectors(b, sectors, |sectors|);
    assert |DecodeHead(r)| == |sectors|;
  }

  /** The loop of write_head. */
  method FillHead(b: Block, sectors: seq<Word>) returns (r: Block)
    requires |sectors| <= LOGSIZE
    ensures r == EncodeHead(b, sectors)
  {
    hide SetWord, GetWord;
    r := SetWord(b, 0, |sectors|);
    var i := 0;
    while i < |sectors|
      invariant 0 <= i <= |sectors|
      invariant r == StoreSectors(b, sectors, i)
    {
      r := SetWord(r, i + 1, sectors[i]);
      i := i + 1;
    }
  }

  /** The loop of read_head. */
  method ScanHead(b: Block) returns (sectors: seq<Word>)
    requires |DecodeHead(b)| <= LOGSIZE
    ensures sectors == DecodeHead(b)
  {
    var n := HeadCount(b);
    sectors := [];
    var i := 0;
    while i < n
      invariant 0 <= i <= n <= LOGSIZE
      invariant |sectors| == i && forall j :: 0 <= j < i ==> sectors[j] == DecodeHead(b)[j]
    {
      sectors := sectors + [GetWord(b, i + 1)];
      i := i + 1;
    }
  }

  lemma HeaderIsLawful(start: nat, size: nat)
    ensures At(start, size).Lawful()
  {
    forall b: Block, sectors: seq<Word> | |sectors| <= LOGSIZE ensures DecodeHead(EncodeHead(b, sectors)) == sectors {
      HeaderRoundTrip(b, sectors);
    }
  }
}
