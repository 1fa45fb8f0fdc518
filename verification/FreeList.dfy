/**
 The storage allocator of src/umalloc.c: a circular, address-ordered, coalescing
 free list.  Addresses and sizes count Header units.  The first half is the list
 as a value; the class below keeps it in the ptr and size fields of headers.
 */
module FreeList {
  datatype Block = Block(addr: nat, size: nat) {
    function End(): nat {
      addr + size
    }
  }

  ghost predicate Apart(a: Block, b: Block) {
    a.End() <= b.addr || b.End() <= a.addr
  }

  /** Block i ends before the next one starts, with a gap between them. */
  ghost predicate GapAt(s: seq<Block>, i: int) {
    0 <= i < |s| - 1 ==> s[i].End() < s[i + 1].addr
  }

  /** Sorted by address, disjoint, and no two neighbours touching: fully coalesced. */
  ghost predicate Spaced(free: seq<Block>) {
    forall i :: GapAt(free, i)
  }

  /** The free list: `base`, which is empty and lies below everything, then the free blocks. */
  ghost predicate IsList(free: seq<Block>) {
    && |free| > 0 && free[0].size == 0 && Spaced(free)
    && forall i :: 0 < i < |free| ==> free[i].size > 0
  }

  lemma {:induction false} FarApart(free: seq<Block>, i: nat, j: nat)
    requires IsList(free) && i < j < |free|
    ensures free[i].End() < free[j].addr
    decreases j
  {
    assert GapAt(free, j - 1);
    if i < j - 1 {
      FarApart(free, i, j - 1);
    }
  }

  ghost predicate Covers(b: Block, u: int) {
    b.addr <= u < b.End()
  }

  /** Unit u belongs to one of the blocks. */
  ghost predicate IsFree(free: seq<Block>, u: int) {
    exists i :: 0 <= i < |free| && Covers(free[i], u)
  }

  /** No unit belongs to two of the blocks. */
  ghost predicate AllApart(live: seq<Block>) {
    forall i, j, u :: 0 <= i < j < |live| && Covers(live[i], u) ==> !Covers(live[j], u)
  }

  /** No unit is both allocated and free. */
  ghost predicate Separate(free: seq<Block>, live: seq<Block>) {
    forall k, u :: 0 <= k < |live| && Covers(live[k], u) ==> !IsFree(free, u)
  }

  function Total(blocks: seq<Block>): (r: nat) {
    if |blocks| == 0 then 0 else Total(blocks[..|blocks| - 1]) + blocks[|blocks| - 1].size
  }

  /** How many of the blocks start below this address. */
  function Below(free: seq<Block>, addr: nat): (r: nat)
    ensures r <= |free|
  {
    if |free| == 0 then 0
    else if free[|free| - 1].addr < addr then |free| else Below(free[..|free| - 1], addr)
  }

  function InsertAt(s: seq<Block>, i: nat, b: Block): (r: seq<Block>)
    requires i <= |s|
  {
    s[..i] + [b] + s[i..]
  }

  /** Merge block i with the next one if the two touch. */
  function MergeAt(s: seq<Block>, i: nat): (r: seq<Block>) {
    if i + 1 < |s| && s[i].End() == s[i + 1].addr then
      s[..i] + [Block(s[i].addr, s[i].size + s[i + 1].size)] + s[i + 2..]
    else s
  }

  /** free: put block b back after the last block below it, then merge upwards and downwards. */
  function Return(free: seq<Block>, b: Block): (r: seq<Block>)
    requires Below(free, b.addr) > 0
  {
    var j := Below(free, b.addr);
    MergeAt(MergeAt(InsertAt(free, j, b), j), j - 1)
  }

  /** The block carved out of free block i for a request of n units: all of it, or its tail end. */
  function Carve(free: seq<Block>, i: nat, n: nat): (r: (seq<Block>, Block))
    requires i < |free| && free[i].size >= n
  {
    var f := free[i];
    if f.size == n then (free[..i] + free[i + 1..], f)
    else (free[..i] + [Block(f.addr, f.size - n)] + free[i + 1..], Block(f.addr + f.size - n, n))
  }

  function Next(free: seq<Block>, i: nat): (r: nat)
    requires i < |free|
    ensures r < |free|
  {
    if i + 1 < |free| then i + 1 else 0
  }

  /** Blocks without a common unit lie apart. */
  lemma UnitsApart(free: seq<Block>, b: Block)
    requires IsList(free) && b.size > 0 && b.addr > free[0].addr && forall u :: Covers(b, u) ==> !IsFree(free, u)
    ensures forall i :: 0 <= i < |free| ==> Apart(free[i], b)
  {
    forall i | 0 < i < |free| ensures Apart(free[i], b) {
      var u := if free[i].addr < b.addr then b.addr else free[i].addr;
      assert Covers(free[i], u) ==> IsFree(free, u);
    }
  }

  // Lists

  /** Below counts exactly the blocks that start below the address. */
  lemma {:induction false} BelowSplits(free: seq<Block>, addr: nat)
    requires IsList(free)
    ensures var r := Below(free, addr);
            && (forall i :: 0 <= i < r ==> free[i].addr < addr)
            && (forall i :: r <= i < |free| ==> free[i].addr >= addr)
  {
    var n := |free| - 1;
    if free[n].addr < addr {
      forall i | 0 <= i < n ensures free[i].addr < addr {
        FarApart(free, i, n);
      }
    } else if n > 0 {
      var front := free[..n];
      forall i ensures GapAt(front, i) {
        assert GapAt(free, i);
      }
      BelowSplits(front, addr);
    } else {
      assert free[..0] == [];
    }
  }

  lemma {:induction false} TotalJoin(a: seq<Block>, b: seq<Block>)
    ensures Total(a + b) == Total(a) + Total(b)
  {
    if |b| == 0 {
      assert a + b == a;
    } else {
      TotalJoin(a, b[..|b| - 1]);
      assert (a + b)[..|a + b| - 1] == a + b[..|b| - 1];
    }
  }

  lemma TotalSnoc(a: seq<Block>, b: Block)
    ensures Total(a + [b]) == Total(a) + b.size
  {
    assert (a + [b])[..|a|] == a;
  }

  lemma TotalThree(a: seq<Block>, b: Block, c: seq<Block>)
    ensures Total(a + [b] + c) == Total(a) + b.size + Total(c)
  {
    hide Total;
    TotalJoin(a + [b], c);
    TotalSnoc(a, b);
  }

  /** Block i ends by the start of the next one; the two may touch. */
  ghost predicate OrderAt(s: seq<Block>, i: int) {
    0 <= i < |s| - 1 ==> s[i].End() <= s[i + 1].addr
  }

  ghost predicate Ordered(s: seq<Block>) {
    forall i :: OrderAt(s, i)
  }

  lemma MergeIndex(s: seq<Block>, i: nat, k: nat)
    requires i + 1 < |s| && s[i].End() == s[i + 1].addr && k < |s| - 1
    ensures |MergeAt(s, i)| == |s| - 1
    ensures MergeAt(s, i)[k] == if k < i then s[k] else if k > i then s[k + 1] else Block(s[i].addr, s[i].size + s[i + 1].size)
  {
  }

  /** Merging at i keeps the order, and turns a gap everywhere above i into a gap at i as well. */
  lemma MergeKeepsOrder(s: seq<Block>, i: nat)
    requires Ordered(s) && i < |s| && forall k :: k > i ==> GapAt(s, k)
    ensures Ordered(MergeAt(s, i)) && |MergeAt(s, i)| > i && MergeAt(s, i)[i].addr == s[i].addr
    ensures forall k :: k >= i ==> GapAt(MergeAt(s, i), k)
    ensures forall k :: k < i && GapAt(s, k) ==> GapAt(MergeAt(s, i), k)
    ensures forall k :: 0 <= k < i ==> MergeAt(s, i)[k] == s[k]
  {
    var r := MergeAt(s, i);
    if i + 1 < |s| && s[i].End() == s[i + 1].addr {
      MergeIndex(s, i, i);
      forall k ensures OrderAt(r, k) && (k >= i ==> GapAt(r, k)) && (k < i && GapAt(s, k) ==> GapAt(r, k)) {
        if 0 <= k < |r| - 1 {
          MergeIndex(s, i, k);
          MergeIndex(s, i, k + 1);
          assert OrderAt(s, k);
          assert k >= i ==> GapAt(s, k + 1);
        }
      }
    } else {
      assert OrderAt(s, i);
    }
  }

  lemma MergeTotal(s: seq<Block>, i: nat)
    ensures Total(MergeAt(s, i)) == Total(s)
  {
    hide Total;
    if i + 1 < |s| && s[i].End() == s[i + 1].addr {
      var a, c := s[..i], s[i + 2..];
      TotalThree(a, Block(s[i].addr, s[i].size + s[i + 1].size), c);
      assert s == (a + [s[i]]) + [s[i + 1]] + c;
      TotalThree(a + [s[i]], s[i + 1], c);
      TotalSnoc(a, s[i]);
    }
  }

  lemma MergeUnits(s: seq<Block>, i: nat)
    ensures forall u :: IsFree(MergeAt(s, i), u) <==> IsFree(s, u)
  {
    var r := MergeAt(s, i);
    if r != s {
      forall u | IsFree(s, u) ensures IsFree(r, u) {
        var k :| 0 <= k < |s| && Covers(s[k], u);
        assert Covers(r[if k <= i then k else k - 1], u);
      }
      forall u | IsFree(r, u) ensures IsFree(s, u) {
        var k :| 0 <= k < |r| && Covers(r[k], u);
        if k < i {
          assert Covers(s[k], u);
        } else if k > i {
          assert Covers(s[k + 1], u);
        } else {
          assert Covers(s[i], u) || Covers(s[i + 1], u);
        }
      }
    }
  }

  /** Where b goes: its lower neighbour ends by its start, its upper neighbour starts at or past its end. */
  lemma PlaceOf(free: seq<Block>, b: Block)
    requires IsList(free) && b.size > 0 && b.addr > free[0].addr && forall i :: 0 <= i < |free| ==> Apart(free[i], b)
    ensures var j := Below(free, b.addr);
            0 < j && free[j - 1].End() <= b.addr && (j < |free| ==> b.End() <= free[j].addr)
  {
    BelowSplits(free, b.addr);
    var j := Below(free, b.addr);
    assert Apart(free[j - 1], b) && (j < |free| ==> Apart(free[j], b));
  }

  lemma InsertKeepsOrder(free: seq<Block>, j: nat, b: Block)
    requires IsList(free) && 0 < j <= |free|
    requires free[j - 1].End() <= b.addr && (j < |free| ==> b.End() <= free[j].addr)
    ensures Ordered(InsertAt(free, j, b))
    ensures forall k :: k != j - 1 && k != j ==> GapAt(InsertAt(free, j, b), k)
  {
    var r := InsertAt(free, j, b);
    forall k ensures OrderAt(r, k) && (k != j - 1 && k != j ==> GapAt(r, k)) {
      if 0 <= k < |r| - 1 && k != j - 1 && k != j {
        var i := if k < j - 1 then k else k - 1;
        assert r[k] == free[i] && r[k + 1] == free[i + 1];
        assert GapAt(free, i);
      }
    }
  }

  /** Merging never makes an empty block. */
  lemma MergeKeepsPositive(s: seq<Block>, i: nat)
    requires forall k :: 0 < k < |s| ==> s[k].size > 0
    ensures forall k :: 0 < k < |MergeAt(s, i)| ==> MergeAt(s, i)[k].size > 0
  {
    if i + 1 < |s| && s[i].End() == s[i + 1].addr {
      forall k | 0 < k < |s| - 1 ensures MergeAt(s, i)[k].size > 0 {
        MergeIndex(s, i, k);
      }
    }
  }

  lemma InsertFacts(free: seq<Block>, j: nat, b: Block)
    requires IsList(free) && 0 < j <= |free| && b.size > 0
    ensures var r := InsertAt(free, j, b);
            |r| == |free| + 1 && r[0] == free[0] && r[j] == b && forall k :: 0 < k < |r| ==> r[k].size > 0
  {
  }

  /** Inserting between neighbours and merging with both leaves a coalesced list. */
  lemma InsertAndMerge(free: seq<Block>, j: nat, b: Block)
    requires IsList(free) && b.size > 0 && b.addr > free[0].addr && 0 < j <= |free|
    requires free[j - 1].End() <= b.addr && (j < |free| ==> b.End() <= free[j].addr)
    ensures var r := MergeAt(MergeAt(InsertAt(free, j, b), j), j - 1);
            IsList(r) && r[0] == free[0]
  {
    InsertKeepsOrder(free, j, b);
    InsertFacts(free, j, b);
    hide InsertAt, MergeAt;
    var r0 := InsertAt(free, j, b);
    var r1 := MergeAt(r0, j);
    MergeKeepsOrder(r0, j);
    MergeKeepsPositive(r0, j);
    MergeKeepsOrder(r1, j - 1);
    MergeKeepsPositive(r1, j - 1);
    MergeKeepsBase(r1, j - 1);
  }

  /** free keeps the list sorted, disjoint and fully coalesced. */
  lemma ReturnKeepsList(free: seq<Block>, b: Block)
    requires IsList(free) && b.size > 0 && b.addr > free[0].addr && forall i :: 0 <= i < |free| ==> Apart(free[i], b)
    ensures Below(free, b.addr) > 0
    ensures IsList(Return(free, b)) && Return(free, b)[0] == free[0]
  {
    PlaceOf(free, b);
    hide Below, MergeAt, InsertAt, IsList;
    InsertAndMerge(free, Below(free, b.addr), b);
  }

  /** base, being empty, is never merged with the block above it. */
  lemma MergeKeepsBase(s: seq<Block>, i: nat)
    requires |s| > i && (i == 0 && |s| > 1 ==> s[0].End() < s[1].addr)
    ensures |MergeAt(s, i)| > 0 && MergeAt(s, i)[0] == s[0]
  {
  }

  /** free frees exactly the units of b, and counts them. */
  lemma ReturnFreesExactly(free: seq<Block>, b: Block)
    requires Below(free, b.addr) > 0
    ensures forall u :: IsFree(Return(free, b), u) <==> IsFree(free, u) || Covers(b, u)
    ensures Total(Return(free, b)) == Total(free) + b.size
  {
    hide Below, Total, InsertAt, MergeAt;
    var j := Below(free, b.addr);
    var r0 := InsertAt(free, j, b);
    MergeTotal(r0, j);
    MergeTotal(MergeAt(r0, j), j - 1);
    MergeUnits(r0, j);
    MergeUnits(MergeAt(r0, j), j - 1);
    InsertUnits(free, j, b);
  }

  lemma InsertUnits(s: seq<Block>, j: nat, b: Block)
    requires j <= |s|
    ensures forall u :: IsFree(InsertAt(s, j, b), u) <==> IsFree(s, u) || Covers(b, u)
    ensures Total(InsertAt(s, j, b)) == Total(s) + b.size
  {
    hide Total;
    var r := InsertAt(s, j, b);
    TotalThree(s[..j], b, s[j..]);
    TotalJoin(s[..j], s[j..]);
    assert s[..j] + s[j..] == s && r[j] == b;
    forall u | IsFree(s, u) ensures IsFree(r, u) {
      var k :| 0 <= k < |s| && Covers(s[k], u);
      assert Covers(r[if k < j then k else k + 1], u);
    }
    forall u | IsFree(r, u) ensures IsFree(s, u) || Covers(b, u) {
      var k :| 0 <= k < |r| && Covers(r[k], u);
      assert k < j ==> r[k] == s[k];
      assert k > j ==> r[k] == s[k - 1];
    }
  }

  /** malloc keeps the list too, and what it hands out touches nothing left in it. */
  lemma CarveKeepsList(free: seq<Block>, i: nat, n: nat)
    requires IsList(free) && 0 < i < |free| && 0 < n <= free[i].size
    ensures var (rest, b) := Carve(free, i, n);
            && IsList(rest) && rest[0] == free[0]
            && b.size == n && b.addr > free[0].addr && b.addr >= free[i].addr && b.End() == free[i].End()
            && forall k :: 0 <= k < |rest| ==> Apart(rest[k], b)
  {
    var (rest, b) := Carve(free, i, n);
    FarApart(free, 0, i);
    forall k ensures GapAt(rest, k) {
      if 0 <= k < |rest| - 1 {
        assert GapAt(free, k) && GapAt(free, k + 1);
        CarveIndex(free, i, n, k);
        CarveIndex(free, i, n, k + 1);
      }
    }
    forall k | 0 <= k < |rest| ensures Apart(rest[k], b) && (k > 0 ==> rest[k].size > 0) {
      CarveIndex(free, i, n, k);
      if k < i {
        FarApart(free, k, i);
      } else if free[i].size == n {
        FarApart(free, i, k + 1);
      } else if k > i {
        FarApart(free, i, k);
      }
    }
  }

  lemma CarveIndex(free: seq<Block>, i: nat, n: nat, k: nat)
    requires i < |free| && free[i].size >= n && k < |Carve(free, i, n).0|
    ensures Carve(free, i, n).0[k] == if k < i then free[k] else if free[i].size == n then free[k + 1]
                                      else if k == i then Block(free[i].addr, free[i].size - n) else free[k]
  {
  }

  lemma PlaceOfCarved(free: seq<Block>, i: nat, n: nat)
    requires IsList(free) && 0 < i < |free| && 0 < n <= free[i].size
    ensures var (rest, b) := Carve(free, i, n);
            Below(rest, b.addr) == if free[i].size == n then i else i + 1
  {
    var (rest, b) := Carve(free, i, n);
    CarveKeepsList(free, i, n);
    BelowSplits(rest, b.addr);
    hide Below;
    var at := if free[i].size == n then i else i + 1;
    FarApart(free, i - 1, i);
    assert rest[at - 1].addr < b.addr;
    if at < |rest| {
      assert rest[at] == free[i + 1];
      FarApart(free, i, i + 1);
    }
  }

  /** Splitting a block and merging the parts again gives the block. */
  lemma MergeUndoesSplit(a: seq<Block>, f: Block, n: nat, c: seq<Block>)
    requires 0 < n < f.size && (|c| > 0 ==> f.End() < c[0].addr)
    ensures var left, right := Block(f.addr, f.size - n), Block(f.addr + f.size - n, n);
            var s := a + [left] + [right] + c;
            InsertAt(a + [left] + c, |a| + 1, right) == s && MergeAt(s, |a| + 1) == s && MergeAt(s, |a|) == a + [f] + c
  {
    var left, right := Block(f.addr, f.size - n), Block(f.addr + f.size - n, n);
    var s := a + [left] + [right] + c;
    assert s[|a|] == left && s[|a| + 1] == right && (|c| > 0 ==> s[|a| + 2] == c[0]);
    assert s[..|a|] == a && s[|a| + 2..] == c;
    assert (a + [left] + c)[..|a| + 1] == a + [left] && (a + [left] + c)[|a| + 1..] == c;
  }

  lemma UndoWhole(a: seq<Block>, f: Block, c: seq<Block>)
    requires |a| > 0 && a[|a| - 1].End() < f.addr && (|c| > 0 ==> f.End() < c[0].addr)
    ensures InsertAt(a + c, |a|, f) == a + [f] + c
    ensures MergeAt(a + [f] + c, |a|) == a + [f] + c == MergeAt(a + [f] + c, |a| - 1)
  {
    assert (a + c)[..|a|] == a && (a + c)[|a|..] == c;
  }

  lemma ReturnUndoesWhole(free: seq<Block>, i: nat)
    requires IsList(free) && 0 < i < |free|
    ensures var rest := free[..i] + free[i + 1..];
            Below(rest, free[i].addr) > 0 && Return(rest, free[i]) == free
  {
    PlaceOfCarved(free, i, free[i].size);
    assert GapAt(free, i - 1) && GapAt(free, i);
    hide Below, IsList;
    var a, f, c := free[..i], free[i], free[i + 1..];
    UndoWhole(a, f, c);
    assert free == a + [f] + c;
  }

  lemma ReturnUndoesSplit(free: seq<Block>, i: nat, n: nat)
    requires IsList(free) && 0 < i < |free| && 0 < n < free[i].size
    ensures var (rest, b) := Carve(free, i, n);
            Below(rest, b.addr) > 0 && Return(rest, b) == free
  {
    PlaceOfCarved(free, i, n);
    assert GapAt(free, i);
    hide Below, IsList, MergeAt, InsertAt;
    var a, f, c := free[..i], free[i], free[i + 1..];
    MergeUndoesSplit(a, f, n, c);
    assert free == a + [f] + c;
  }

  /** free undoes malloc: returning the carved block restores the very same list. */
  lemma ReturnUndoesCarve(free: seq<Block>, i: nat, n: nat)
    requires IsList(free) && 0 < i < |free| && 0 < n <= free[i].size
    ensures var (rest, b) := Carve(free, i, n);
            Below(rest, b.addr) > 0 && Return(rest, b) == free
  {
    if free[i].size == n {
      ReturnUndoesWhole(free, i);
    } else {
      ReturnUndoesSplit(free, i, n);
    }
  }

  /** So malloc takes exactly the units it hands out. */
  lemma CarveTakesExactly(free: seq<Block>, i: nat, n: nat)
    requires IsList(free) && 0 < i < |free| && 0 < n <= free[i].size
    ensures var (rest, b) := Carve(free, i, n);
            Total(rest) + n == Total(free) && forall u :: IsFree(free, u) <==> IsFree(rest, u) || Covers(b, u)
  {
    var (rest, b) := Carve(free, i, n);
    CarveKeepsList(free, i, n);
    ReturnUndoesCarve(free, i, n);
    ReturnFreesExactly(rest, b);
  }
}
