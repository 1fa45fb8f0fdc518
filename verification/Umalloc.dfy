/** malloc, free and morecore. */
module Umalloc {
  import opened FreeList
  import opened Links

  const HEADER: nat := 8  // sizeof(Header)
  const MINUNITS: nat := 4096

  datatype Option<T> = None | Some(value: T)

  /** The units malloc asks for: the request rounded up, in 32-bit arithmetic, plus the header. */
  function Units(nbytes: nat): (r: nat) {
    (nbytes + HEADER - 1) % 0x1_0000_0000 / HEADER + 1
  }

  /** A block of that many units holds the request if and only if the rounding did not wrap around; none smaller does. */
  lemma UnitsSuffice(nbytes: nat)
    requires nbytes < 0x1_0000_0000
    ensures HEADER * (Units(nbytes) - 1) >= nbytes <==> nbytes <= 0xFFFF_FFF8
    ensures HEADER * (Units(nbytes) - 1) < nbytes + HEADER
  {
  }

  /** The exit test of free's walk holds at exactly one place of the ring, the one after which bp belongs. */
  lemma StopsExactlyAt(free: seq<Block>, bp: nat, i: nat)
    requires IsList(free) && i < |free| && bp > free[0].addr && forall k :: 0 <= k < |free| ==> free[k].addr != bp
    ensures Below(free, bp) > 0
    ensures var p, q := free[i].addr, free[Next(free, i)].addr;
            (p < bp < q || (p >= q && (bp > p || bp < q))) <==> i == Below(free, bp) - 1
  {
    BelowSplits(free, bp);
    hide Below;
    if i + 1 < |free| {
      FarApart(free, i, i + 1);
    } else if i > 0 {
      FarApart(free, 0, i);
    }
  }

  /** How many steps round a ring of n from the element after `at` lead to element i. */
  function Offset(n: nat, at: nat, i: nat): (r: nat)
    requires at < n && i < n
    ensures r < n
  {
    if i > at then i - at - 1 else i + n - at - 1
  }

  /** The allocated blocks: real, disjoint from each other and from the free ones, headers intact. */
  ghost predicate Live(base: nat, free: seq<Block>, live: seq<Block>, size: map<nat, nat>) {
    && (forall k :: 0 <= k < |live| ==> live[k].size > 0 && live[k].addr > base && live[k].addr in size && size[live[k].addr] == live[k].size)
    && Separate(free, live) && AllApart(live)
  }

  /** Every unit handled lies below brk, and none was lost or invented. */
  ghost predicate Accounted(free: seq<Block>, live: seq<Block>, brk: nat, obtained: nat) {
    && (forall u :: IsFree(free, u) ==> u < brk)
    && (forall k, u :: 0 <= k < |live| && Covers(live[k], u) ==> u < brk)
    && Total(free) + Total(live) == obtained
  }

  /** A header of the list is base or a unit of a free block. */
  lemma HeaderIsFree(free: seq<Block>, i: nat)
    requires IsList(free) && i < |free|
    ensures free[i].addr == free[0].addr || IsFree(free, free[i].addr)
  {
    assert i > 0 ==> Covers(free[i], free[i].addr);
  }

  lemma NotInList(free: seq<Block>, b: Block)
    requires IsList(free) && b.size > 0 && b.addr > free[0].addr && forall i :: 0 <= i < |free| ==> Apart(free[i], b)
    ensures forall i :: 0 <= i < |free| ==> free[i].addr != b.addr
  {
    forall i | 0 <= i < |free| ensures free[i].addr != b.addr {
      assert Apart(free[i], b);
    }
  }

  function Drop(live: seq<Block>, k: nat): (r: seq<Block>)
    requires k < |live|
  {
    live[..k] + live[k + 1..]
  }

  /** Writes to headers of free blocks and of block k leave the other allocated headers alone. */
  lemma LiveAfterReturn(base: nat, free: seq<Block>, live: seq<Block>, size: map<nat, nat>, size': map<nat, nat>, k: nat, p: nat)
    requires Live(base, free, live, size) && k < |live| && Below(free, live[k].addr) > 0
    requires p == base || IsFree(free, p)
    requires forall a :: a != p && a != live[k].addr && a in size ==> a in size' && size'[a] == size[a]
    ensures Live(base, Return(free, live[k]), Drop(live, k), size')
  {
    var rest := Drop(live, k);
    ReturnFreesExactly(free, live[k]);
    forall i | 0 <= i < |rest| ensures rest[i].size > 0 && rest[i].addr > base && rest[i].addr in size' && size'[rest[i].addr] == rest[i].size {
      var from := if i < k then i else i + 1;
      assert rest[i] == live[from];
      assert Covers(live[from], live[from].addr) && Covers(live[k], live[k].addr);
    }
    forall i, u | 0 <= i < |rest| && Covers(rest[i], u) ensures !IsFree(Return(free, live[k]), u) {
      var from := if i < k then i else i + 1;
      assert rest[i] == live[from];
    }
    forall i, j, u | 0 <= i < j < |rest| && Covers(rest[i], u) ensures !Covers(rest[j], u) {
      assert rest[i] == live[if i < k then i else i + 1] && rest[j] == live[if j < k then j else j + 1];
    }
  }

  lemma AccountedAfterReturn(free: seq<Block>, live: seq<Block>, brk: nat, obtained: nat, k: nat)
    requires Accounted(free, live, brk, obtained) && k < |live| && Below(free, live[k].addr) > 0
    ensures Accounted(Return(free, live[k]), Drop(live, k), brk, obtained)
  {
    hide Total, Below, Return;
    ReturnFreesExactly(free, live[k]);
    assert live == live[..k] + [live[k]] + live[k + 1..];
    TotalThree(live[..k], live[k], live[k + 1..]);
    TotalJoin(live[..k], live[k + 1..]);
    forall i, u | 0 <= i < |live| - 1 && Covers(Drop(live, k)[i], u) ensures u < brk {
      assert Drop(live, k)[i] == live[if i < k then i else i + 1];
    }
  }

  /** A running heap: the ring in the header fields is the free list, and every unit is accounted for. */
  ghost predicate Running(base: nat, free: seq<Block>, live: seq<Block>, f: Fields, brk: nat, obtained: nat) {
    && IsList(free) && free[0].addr == base && base < brk && Linked(free, f.ptr, f.size)
    && Live(base, free, live, f.size) && Accounted(free, live, brk, obtained)
  }

  /** The pointer writes of free, once the place p is found; p's link and bp's header must be there. */
  ghost function Spliced(f: Fields, p: nat, bp: nat): (r: Fields) {
    if !f.Has(p) || bp !in f.size || !f.Has(f.ptr[p]) then f else
      var g := Upper(f, bp, f.ptr[p]);
      if !g.Has(p) || !g.Has(bp) then f else Lower(g, p, bp)
  }

  /** What an allocated block needs to join the list. */
  lemma LiveBlockFits(base: nat, free: seq<Block>, live: seq<Block>, f: Fields, brk: nat, obtained: nat, k: nat)
    requires Running(base, free, live, f, brk, obtained) && k < |live|
    ensures |free| > 0 && live[k].size > 0 && live[k].addr > free[0].addr == base
    ensures live[k].addr in f.size && f.size[live[k].addr] == live[k].size
    ensures forall i :: 0 <= i < |free| ==> Apart(free[i], live[k]) && free[i].addr != live[k].addr
  {
    UnitsApart(free, live[k]);
    NotInList(free, live[k]);
  }

  /** free keeps a heap running, and stops at the block after which b was placed. */
  lemma FreeKeepsRunning(base: nat, free: seq<Block>, live: seq<Block>, f: Fields, brk: nat, obtained: nat, k: nat)
    requires Running(base, free, live, f, brk, obtained) && k < |live|
    ensures var b, j := live[k], Below(free, live[k].addr);
            && j > 0 && f.Has(free[j - 1].addr) && b.addr in f.size && f.Has(f.ptr[free[j - 1].addr]) && free[j - 1].addr != b.addr
            && Running(base, Return(free, b), Drop(live, k), Spliced(f, free[j - 1].addr, b.addr), brk, obtained)
            && j <= |Return(free, b)| && Return(free, b)[j - 1].addr == free[j - 1].addr
  {
    var b := live[k];
    LiveBlockFits(base, free, live, f, brk, obtained, k);
    LinkReturn(free, f, b);
    ReturnKeepsList(free, b);
    var p := free[Below(free, b.addr) - 1].addr;
    HeaderIsFree(free, Below(free, b.addr) - 1);
    AccountedAfterReturn(free, live, brk, obtained, k);
    var h := Spliced(f, p, b.addr);
    assert forall a :: a != p && a != b.addr && a in f.size ==> a in h.size && h.size[a] == f.size[a];
    hide Linked, IsList, Below, Return, Live, Accounted;
    LiveAfterReturn(base, free, live, f.size, h.size, k, p);
  }

  // Taking a block

  /** The header fields after malloc took n units of the block at p, whose predecessor is prevp. */
  ghost function Taken(f: Fields, prevp: nat, p: nat, n: nat): (r: Fields) {
    if !f.Has(p) || f.size[p] < n then f
    else if f.size[p] == n then Fields(f.ptr[prevp := f.ptr[p]], f.size)
    else Fields(f.ptr, f.size[p := f.size[p] - n][p + f.size[p] - n := n])
  }

  lemma TakeKeepsLinks(free: seq<Block>, f: Fields, i: nat, n: nat)
    requires IsList(free) && Linked(free, f.ptr, f.size) && 0 < i < |free| && 0 < n <= free[i].size
    ensures var h := Taken(f, free[i - 1].addr, free[i].addr, n);
            Linked(Carve(free, i, n).0, h.ptr, h.size)
  {
    ListIsDistinct(free);
    assert LinkAt(free, f.ptr, f.size, i);
    if free[i].size == n {
      LinkTakeWhole(free, f.ptr, f.size, i);
    } else {
      forall k | 0 <= k < |free| ensures free[k].addr != free[i].addr + free[i].size - n {
        if k < i {
          FarApart(free, k, i);
        } else if k > i {
          FarApart(free, i, k);
        }
      }
      LinkTakeTail(free, f.ptr, f.size, i, n);
    }
  }

  /** The block handed out joins the allocated ones; no other header changes. */
  lemma TakeKeepsLive(base: nat, free: seq<Block>, live: seq<Block>, f: Fields, i: nat, n: nat)
    requires IsList(free) && free[0].addr == base && Linked(free, f.ptr, f.size) && 0 < i < |free| && 0 < n <= free[i].size
    requires Live(base, free, live, f.size)
    ensures var (rest, b) := Carve(free, i, n);
            Live(base, rest, live + [b], Taken(f, free[i - 1].addr, free[i].addr, n).size)
  {
    var (rest, b) := Carve(free, i, n);
    CarveKeepsList(free, i, n);
    CarveTakesExactly(free, i, n);
    assert LinkAt(free, f.ptr, f.size, i);
    var size', live' := Taken(f, free[i - 1].addr, free[i].addr, n).size, live + [b];
    assert Covers(free[i], free[i].addr) && Covers(b, b.addr);
    hide Carve;
    forall k | 0 <= k < |live'| ensures live'[k].size > 0 && live'[k].addr > base && live'[k].addr in size' && size'[live'[k].addr] == live'[k].size {
      if k < |live| {
        assert live'[k] == live[k] && Covers(live[k], live[k].addr);
      }
    }
    forall u | Covers(b, u) ensures !IsFree(rest, u) {
      forall k | 0 <= k < |rest| ensures !Covers(rest[k], u) {
        assert Apart(rest[k], b);
      }
    }
    forall k, u | 0 <= k < |live'| && Covers(live'[k], u) ensures !IsFree(rest, u) {
    }
    forall j, k, u | 0 <= j < k < |live'| && Covers(live'[j], u) ensures !Covers(live'[k], u) {
      assert live'[j] == live[j];
    }
  }

  lemma TakeKeepsAccounts(free: seq<Block>, live: seq<Block>, brk: nat, obtained: nat, i: nat, n: nat)
    requires IsList(free) && 0 < i < |free| && 0 < n <= free[i].size && Accounted(free, live, brk, obtained)
    ensures var (rest, b) := Carve(free, i, n); Accounted(rest, live + [b], brk, obtained)
  {
    var (rest, b) := Carve(free, i, n);
    CarveKeepsList(free, i, n);
    CarveTakesExactly(free, i, n);
    TotalSnoc(live, b);
    hide Carve, Total;
    forall k, u | 0 <= k < |live + [b]| && Covers((live + [b])[k], u) ensures u < brk {
      assert k < |live| ==> (live + [b])[k] == live[k];
    }
  }

  /** malloc keeps a heap running. */
  lemma TakeKeepsRunning(base: nat, free: seq<Block>, live: seq<Block>, f: Fields, brk: nat, obtained: nat, i: nat, n: nat)
    requires Running(base, free, live, f, brk, obtained) && 0 < i < |free| && 0 < n <= free[i].size
    ensures var (rest, b) := Carve(free, i, n);
            Running(base, rest, live + [b], Taken(f, free[i - 1].addr, free[i].addr, n), brk, obtained)
  {
    hide Live, Accounted, Linked, Carve, Taken;
    CarveKeepsList(free, i, n);
    TakeKeepsLinks(free, f, i, n);
    TakeKeepsLive(base, free, live, f, i, n);
    TakeKeepsAccounts(free, live, brk, obtained, i, n);
  }

  // More memory

  /** sbrk hands out units past everything in use, as one allocated block. */
  lemma SbrkKeepsRunning(base: nat, free: seq<Block>, live: seq<Block>, f: Fields, brk: nat, obtained: nat, hp: nat, nu: nat)
    requires Running(base, free, live, f, brk, obtained) && hp >= brk && nu > 0
    ensures Running(base, free, live + [Block(hp, nu)], f.(size := f.size[hp := nu]), hp + nu, obtained + nu)
  {
    var b := Block(hp, nu);
    TotalSnoc(live, b);
    hide Total;
    var live', size' := live + [b], f.size[hp := nu];
    forall i ensures LinkAt(free, f.ptr, size', i) {
      assert LinkAt(free, f.ptr, f.size, i);
      if 0 <= i < |free| {
        HeaderIsFree(free, i);
      }
    }
    forall k | 0 <= k < |live'| ensures live'[k].size > 0 && live'[k].addr > base && live'[k].addr in size' && size'[live'[k].addr] == live'[k].size {
      assert k < |live| ==> live'[k] == live[k] && Covers(live[k], live[k].addr);
    }
    forall k, u | 0 <= k < |live'| && Covers(live'[k], u) ensures !IsFree(free, u) && u < hp + nu {
      assert k < |live| ==> live'[k] == live[k];
    }
    forall j, k, u | 0 <= j < k < |live'| && Covers(live'[j], u) ensures !Covers(live'[k], u) {
      assert live'[j] == live[j];
    }
  }

  ghost predicate HasRoom(free: seq<Block>, n: nat) {
    exists i :: 0 <= i < |free| && free[i].size >= n
  }

  lemma MergeKeepsRoom(s: seq<Block>, i: nat, n: nat)
    requires HasRoom(s, n)
    ensures HasRoom(MergeAt(s, i), n)
  {
    var k :| 0 <= k < |s| && s[k].size >= n;
    if i + 1 < |s| && s[i].End() == s[i + 1].addr {
      MergeIndex(s, i, if k <= i then k else k - 1);
      assert MergeAt(s, i)[if k <= i then k else k - 1].size >= n;
    }
  }

  /** After morecore some block of the list is large enough, merged or not. */
  lemma ReturnMakesRoom(free: seq<Block>, b: Block)
    requires Below(free, b.addr) > 0
    ensures HasRoom(Return(free, b), b.size)
  {
    var j := Below(free, b.addr);
    assert InsertAt(free, j, b)[j].size >= b.size;
    MergeKeepsRoom(InsertAt(free, j, b), j, b.size);
    MergeKeepsRoom(MergeAt(InsertAt(free, j, b), j), j - 1, b.size);
  }

  /** Every block met on the way round from the one after `at` to block i is too small. */
  ghost predicate TooSmallBefore(free: seq<Block>, at: nat, i: nat, n: nat)
    requires at < |free| && i < |free|
  {
    forall k :: 0 <= k < |free| && Offset(|free|, at, k) < Offset(|free|, at, i) ==> free[k].size < n
  }

  /** The first block, in ring order from the one after `at`, that holds n units. */
  ghost predicate FirstFit(free: seq<Block>, at: nat, i: nat, n: nat) {
    at < |free| && 0 < i < |free| && free[i].size >= n && TooSmallBefore(free, at, i, n)
  }

  /** What morecore gets for a request of n units. */
  function Fresh(addr: nat, n: nat): (b: Block)
    ensures b.addr == addr && b.size >= n && b.size >= 4096 && (b.size == n || b.size == 4096)
  {
    Block(addr, if n < MINUNITS then MINUNITS else n)
  }

  /** One step of malloc's walk. */
  lemma WalkOn(free: seq<Block>, at: nat, i: nat, n: nat)
    requires at < |free| && i < |free| && free[i].size < n && TooSmallBefore(free, at, i, n)
    ensures i != at ==> Offset(|free|, at, Next(free, i)) == Offset(|free|, at, i) + 1 && TooSmallBefore(free, at, Next(free, i), n)
    ensures i == at ==> !HasRoom(free, n)
  {
    forall k | 0 <= k < |free| ensures Offset(|free|, at, k) <= Offset(|free|, at, i) ==> free[k].size < n {
    }
    assert Offset(|free|, at, at) == |free| - 1;
  }

  lemma WalkStart(free: seq<Block>, at: nat, n: nat)
    requires at < |free|
    ensures Offset(|free|, at, Next(free, at)) == 0 && TooSmallBefore(free, at, Next(free, at), n)
  {
  }

  // The whole state of the allocator and what each operation makes of it

  /** The lists behind the header fields: the free list, freep's place in it, and the allocated blocks. */
  datatype Book = Book(free: seq<Block>, at: nat, live: seq<Block>, brk: nat, obtained: nat)

  ghost predicate Ok(base: nat, f: Fields, freep: Option<nat>, k: Book) {
    match freep
    case None => k.free == [Block(base, 0)] && k.at == 0 && k.live == [] && base < k.brk && k.obtained == 0
    case Some(p) => Running(base, k.free, k.live, f, k.brk, k.obtained) && k.at < |k.free| && p == k.free[k.at].addr
  }

  /** free puts allocated block i back. */
  ghost function FreedBook(k: Book, i: nat): (r: Book)
    requires i < |k.live| && Below(k.free, k.live[i].addr) > 0
  {
    k.(free := Return(k.free, k.live[i]), at := Below(k.free, k.live[i].addr) - 1, live := Drop(k.live, i))
  }

  /** sbrk hands out a new block. */
  ghost function GrownBook(k: Book, b: Block): (r: Book) {
    k.(live := k.live + [b], brk := b.End(), obtained := k.obtained + b.size)
  }

  /** malloc takes n units of free block i. */
  ghost function TakenBook(k: Book, i: nat, n: nat): (r: Book)
    requires 0 < i < |k.free| && k.free[i].size >= n
  {
    k.(free := Carve(k.free, i, n).0, at := i - 1, live := k.live + [Carve(k.free, i, n).1])
  }

  lemma FreeOk(base: nat, f: Fields, freep: Option<nat>, k: Book, i: nat)
    requires Ok(base, f, freep, k) && i < |k.live|
    ensures var bp, j := k.live[i].addr, Below(k.free, k.live[i].addr);
            && freep.Some? && bp > base && 0 < j <= |k.free|
            && (forall m :: 0 <= m < |k.free| ==> k.free[m].addr != bp)
            && var p := k.free[j - 1].addr;
               f.Has(p) && bp in f.size && f.Has(f.ptr[p]) && p != bp
               && Ok(base, Spliced(f, p, bp), Some(p), FreedBook(k, i))
  {
    LiveBlockFits(base, k.free, k.live, f, k.brk, k.obtained, i);
    FreeKeepsRunning(base, k.free, k.live, f, k.brk, k.obtained, i);
    hide Running, Below, Return, Spliced, Drop;
  }

  lemma GrowOk(base: nat, f: Fields, freep: Option<nat>, k: Book, hp: nat, nu: nat)
    requires Ok(base, f, freep, k) && freep.Some? && hp >= k.brk && nu > 0
    ensures Ok(base, f.(size := f.size[hp := nu]), freep, GrownBook(k, Block(hp, nu)))
  {
    SbrkKeepsRunning(base, k.free, k.live, f, k.brk, k.obtained, hp, nu);
    hide Running;
  }

  lemma TakeOk(base: nat, f: Fields, freep: Option<nat>, k: Book, i: nat, n: nat)
    requires Ok(base, f, freep, k) && freep.Some? && 0 < i < |k.free| && 0 < n <= k.free[i].size
    ensures var prevp, p := k.free[i - 1].addr, k.free[i].addr;
            && f.Has(p) && f.size[p] == k.free[i].size && Ok(base, Taken(f, prevp, p, n), Some(prevp), TakenBook(k, i, n))
            && Carve(k.free, i, n).1.addr == p + f.size[p] - n
  {
    assert |Carve(k.free, i, n).0| >= |k.free| - 1 && Carve(k.free, i, n).1.addr == k.free[i].addr + k.free[i].size - n;
    hide Running, Taken, Carve;
    TakeKeepsRunning(base, k.free, k.live, f, k.brk, k.obtained, i, n);
    RingHolds(base, f, freep, k, i);
    CarveIndex(k.free, i, n, i - 1);
  }

  lemma FreepInList(base: nat, f: Fields, freep: Option<nat>, k: Book)
    requires Ok(base, f, freep, k) && freep.Some?
    ensures k.at < |k.free| && k.free[k.at].addr == freep.value
  {
  }

  /** The header of list entry i. */
  lemma RingHolds(base: nat, f: Fields, freep: Option<nat>, k: Book, i: nat)
    requires Ok(base, f, freep, k) && freep.Some? && i < |k.free|
    ensures k.at < |k.free| && k.free[k.at].addr == freep.value
    ensures f.Has(k.free[i].addr) && f.size[k.free[i].addr] == k.free[i].size
    ensures f.ptr[k.free[i].addr] == k.free[Next(k.free, i)].addr
    ensures k.free[i].addr == freep.value ==> i == k.at
    ensures k.free[i].size > 0 ==> i > 0
  {
    assert LinkAt(k.free, f.ptr, f.size, i);
    ListIsDistinct(k.free);
  }

  class Heap {
    const base: nat
    var ptr: map<nat, nat>
    var size: map<nat, nat>
    var freep: Option<nat>
    ghost var book: Book

    ghost predicate Valid()
      reads this
    {
      Ok(base, Fields(ptr, size), freep, book)
    }

    constructor (base: nat)
      ensures Valid() && this.base == base && freep.None? && book == Book([Block(base, 0)], 0, [], base + 1, 0)
    {
      this.base := base;
      ptr, size, freep := map[], map[], None;
      book := Book([Block(base, 0)], 0, [], base + 1, 0);
    }

    /** The walk of free: from freep to the block after which bp belongs. */
    method FindPlace(bp: nat) returns (p: nat)
      requires Valid() && freep.Some? && bp > base && forall i :: 0 <= i < |book.free| ==> book.free[i].addr != bp
      ensures Below(book.free, bp) > 0 && p == book.free[Below(book.free, bp) - 1].addr
    {
      ghost var free := book.free;
      ghost var i := book.at;
      RingHolds(base, Fields(ptr, size), freep, book, i);
      StopsExactlyAt(free, bp, 0);
      hide Below;
      ghost var n, j := |free|, Below(free, bp) - 1;
      p := freep.value;
      while true
        invariant 0 <= i < n && p == free[i].addr
        decreases if i <= j then j - i else n - i + j
      {
        RingHolds(base, Fields(ptr, size), freep, book, i);
        StopsExactlyAt(free, bp, i);
        if bp > p && bp < ptr[p] {
          break;
        }
        if p >= ptr[p] && (bp > p || bp < ptr[p]) {
          break;
        }
        p := ptr[p];
        i := Next(free, i);
      }
    }

    /** The pointer writes of free, once the place is found. */
    method Splice(p: nat, bp: nat)
      requires bp in size && p in ptr && p in size && ptr[p] in ptr && ptr[p] in size && p != bp
      modifies this`ptr, this`size
      ensures Fields(ptr, size) == Spliced(Fields(old(ptr), old(size)), p, bp)
    {
      if bp + size[bp] == ptr[p] {
        var q := ptr[p];
        size := size[bp := size[bp] + size[q]];
        ptr := ptr[bp := ptr[q]];
      } else {
        ptr := ptr[bp := ptr[p]];
      }
      if p + size[p] == bp {
        size := size[p := size[p] + size[bp]];
        ptr := ptr[p := ptr[bp]];
      } else {
        ptr := ptr[p := bp];
      }
    }

    /** free: the block joins the free list, merged with the free neighbours it touches. */
    method Free(ap: nat, ghost i: nat)
      requires Valid() && i < |book.live| && ap > 0 && book.live[i].addr == ap - 1
      modifies this`ptr, this`size, this`freep, this`book
      ensures Valid() && freep.Some?
      ensures Below(old(book).free, ap - 1) > 0 && book == FreedBook(old(book), i)
    {
      var bp := ap - 1;
      FreeOk(base, Fields(ptr, size), freep, book, i);
      hide Ok, Below, Spliced, FreedBook;
      var p := FindPlace(bp);
      Splice(p, bp);
      freep := Some(p);
      book := FreedBook(book, i);
    }

    /** morecore: ask sbrk for at least MINUNITS units and free them. */
    method MoreCore(nu: nat, more: Option<nat>) returns (ok: bool)
      requires Valid() && freep.Some? && (more.Some? ==> more.value >= book.brk)
      modifies this`ptr, this`size, this`freep, this`book
      ensures Valid() && freep.Some?
      ensures ok <==> more.Some?
      ensures !ok ==> book == old(book) && freep == old(freep)
      ensures ok ==>
                var b := Fresh(more.value, nu);
                && Below(old(book).free, b.addr) > 0
                && book == FreedBook(GrownBook(old(book), b), |old(book).live|)
    {
      if more.None? {
        return false;
      }
      var nu1 := if nu < MINUNITS then MINUNITS else nu;
      var hp := more.value;
      GrowOk(base, Fields(ptr, size), freep, book, hp, nu1);
      hide Ok, Below, FreedBook;
      ghost var n := |book.live|;
      size := size[hp := nu1];
      book := GrownBook(book, Block(hp, nu1));
      Free(hp + 1, n);
      return true;
    }

    /** The header writes of malloc; the block handed out is the tail of the one at p. */
    method Cut(prevp: nat, p: nat, n: nat) returns (q: nat)
      requires p in ptr && p in size && n <= size[p]
      modifies this`ptr, this`size
      ensures Fields(ptr, size) == Taken(Fields(old(ptr), old(size)), prevp, p, n)
      ensures q == p + old(size)[p] - n
    {
      q := p;
      if size[p] == n {
        ptr := ptr[prevp := ptr[p]];
      } else {
        size := size[p := size[p] - n];
        q := p + size[p];
        size := size[q := n];
      }
    }

    /** The successful end of malloc: take n units of the block at p. */
    method Take(prevp: nat, p: nat, n: nat, ghost i: nat) returns (r: nat)
      requires Valid() && freep.Some? && 0 < i < |book.free| && 0 < n <= book.free[i].size
      requires prevp == book.free[i - 1].addr && p == book.free[i].addr
      modifies this`ptr, this`size, this`freep, this`book
      ensures Valid() && freep.Some? && book == TakenBook(old(book), i, n)
      ensures r == Carve(old(book).free, i, n).1.addr + 1
    {
      hide Ok, TakenBook, Taken, Carve;
      TakeOk(base, Fields(ptr, size), freep, book, i, n);
      var q := Cut(prevp, p, n);
      freep := Some(prevp);
      book := TakenBook(book, i, n);
      return q + 1;
    }

    /** The walk of malloc: p is entry i, prevp the entry before it, and everything passed was too small. */
    ghost predicate Walking(i: nat, h: nat, p: nat, prevp: nat, n: nat)
      reads this
    {
      var free := book.free;
      && book.at < |free| && i < |free| && h < |free| && p == free[i].addr && prevp == free[h].addr && Next(free, h) == i
      && TooSmallBefore(free, book.at, i, n)
    }

    /** The walk has come round without a fit: get more memory, or give up. */
    method Refill(n: nat, more: Option<nat>) returns (ok: bool)
      requires Valid() && freep.Some? && !HasRoom(book.free, n) && (more.Some? ==> more.value >= book.brk)
      modifies this`ptr, this`size, this`freep, this`book
      ensures Valid() && freep.Some? && (ok <==> more.Some?)
      ensures !ok ==> book == old(book)
      ensures ok ==> Supplied(old(book), more, n, book) && HasRoom(book.free, n)
      ensures book.at < |book.free| && book.free[book.at].addr == freep.value
      ensures Offset(|book.free|, book.at, Next(book.free, book.at)) == 0
      ensures TooSmallBefore(book.free, book.at, Next(book.free, book.at), n)
    {
      hide Ok, Below, FreedBook, HasRoom, Supplied;
      ok := MoreCore(n, more);
      if ok {
        SuppliedFresh(old(book), more, n);
      }
      FreepInList(base, Fields(ptr, size), freep, book);
      WalkStart(book.free, book.at, n);
    }

    /** The first call sets up base as the whole ring. */
    method Start()
      requires Valid()
      modifies this`ptr, this`size, this`freep
      ensures Valid() && freep.Some?
    {
      if freep.None? {
        ptr, size, freep := map[base := base], map[base := 0], Some(base);
        EmptyHeapRuns(base, book.brk);
      }
    }

    /** malloc's loop. */
    method Search(n: nat, more: Option<nat>) returns (r: Option<nat>)
      requires Valid() && freep.Some? && n > 0 && (more.Some? ==> more.value >= book.brk)
      modifies this`ptr, this`size, this`freep, this`book
      ensures Valid() && freep.Some?
      ensures r.None? <==> !HasRoom(old(book).free, n) && more.None?
      ensures r.None? ==> book == old(book)
      ensures r.Some? ==> Granted(old(book), more, n, book, r.value)
    {
      hide Ok, HasRoom, Supplied, Granted;
      FreepInList(base, Fields(ptr, size), freep, book);
      RingHolds(base, Fields(ptr, size), freep, book, book.at);
      WalkStart(book.free, book.at, n);
      ghost var k0 := book;
      var prevp := freep.value;
      var p := ptr[prevp];
      ghost var i: nat, h: nat, grown := Next(book.free, book.at), book.at, false;
      while true
        invariant Valid() && freep.Some? && Walking(i, h, p, prevp, n)
        invariant if grown then !HasRoom(k0.free, n) && HasRoom(book.free, n) && more.Some? && Supplied(k0, more, n, book)
                  else book == k0
        decreases !grown, |book.free| - Offset(|book.free|, book.at, i)
      {
        RingHolds(base, Fields(ptr, size), freep, book, i);
        if size[p] >= n {
          GrantedFrom(k0, more, n, book, i, grown);
          var a := Take(prevp, p, n, i);
          return Some(a);
        }
        WalkOn(book.free, book.at, i, n);
        if p == freep.value {
          var ok := Refill(n, more);
          if !ok {
            return None;
          }
          grown := true;
          p := freep.value;
          i := book.at;
        }
        RingHolds(base, Fields(ptr, size), freep, book, i);
        prevp := p;
        p := ptr[p];
        i, h := Next(book.free, i), i;
      }
    }

    /**
     malloc: first fit from the block after freep, asking for more memory only once the walk has
     come round without a fit.  `more` is what sbrk answers if it is asked.
     */
    method Malloc(nbytes: nat, more: Option<nat>) returns (r: Option<nat>)
      requires Valid() && nbytes <= 0x7FFF_FFE8 && (more.Some? ==> more.value >= book.brk)
      modifies this`ptr, this`size, this`freep, this`book
      ensures Valid() && freep.Some?
      ensures r.None? <==> !HasRoom(old(book).free, Units(nbytes)) && more.None?
      ensures r.None? ==> book == old(book)
      ensures r.Some? ==> Granted(old(book), more, Units(nbytes), book, r.value)
    {
      Start();
      r := Search(Units(nbytes), more);
    }
  }

  /** malloc answered r: the first fit of the supplied list, cut to n units and one header past its start. */
  ghost predicate Granted(k0: Book, more: Option<nat>, n: nat, k': Book, r: nat) {
    exists k, i :: Supplied(k0, more, n, k) && FirstFit(k.free, k.at, i, n)
                   && k' == TakenBook(k, i, n) && r == Carve(k.free, i, n).1.addr + 1
  }

  lemma GrantedFrom(k0: Book, more: Option<nat>, n: nat, k: Book, i: nat, grown: bool)
    requires FirstFit(k.free, k.at, i, n) && (if grown then Supplied(k0, more, n, k) else k == k0)
    ensures Granted(k0, more, n, TakenBook(k, i, n), Carve(k.free, i, n).1.addr + 1)
    ensures HasRoom(k.free, n)
  {
    FitIsRoom(k.free, i, n);
    if !grown {
      SuppliedAsIs(k, more, n);
    }
  }

  /** The state malloc takes its block from: as it is if a block fits, else with fresh memory freed into it. */
  ghost predicate Supplied(k0: Book, more: Option<nat>, n: nat, k: Book) {
    if HasRoom(k0.free, n) then k == k0
    else more.Some? && var b := Fresh(more.value, n);
         Below(k0.free, b.addr) > 0 && k == FreedBook(GrownBook(k0, b), |k0.live|)
  }

  lemma SuppliedAsIs(k: Book, more: Option<nat>, n: nat)
    requires HasRoom(k.free, n)
    ensures Supplied(k, more, n, k)
  {
  }

  /** Fresh memory makes room for the request, whether or not it merged with a free block. */
  lemma SuppliedFresh(k0: Book, more: Option<nat>, n: nat)
    requires !HasRoom(k0.free, n) && more.Some? && Below(k0.free, Fresh(more.value, n).addr) > 0
    ensures var k := FreedBook(GrownBook(k0, Fresh(more.value, n)), |k0.live|);
            Supplied(k0, more, n, k) && HasRoom(k.free, n)
  {
    var b := Fresh(more.value, n);
    ReturnMakesRoom(k0.free, b);
    MoreRoom(Return(k0.free, b), b.size, n);
    hide Below, Return, HasRoom;
  }

  lemma EmptyHeapRuns(base: nat, brk: nat)
    requires base < brk
    ensures Running(base, [Block(base, 0)], [], Fields(map[base := base], map[base := 0]), brk, 0)
  {
    var free := [Block(base, 0)];
    forall i ensures LinkAt(free, map[base := base], map[base := 0], i) && GapAt(free, i) {
    }
    assert free[..0] == [];
  }

  lemma FitIsRoom(free: seq<Block>, i: nat, n: nat)
    requires i < |free| && free[i].size >= n
    ensures HasRoom(free, n)
  {
  }

  lemma MoreRoom(free: seq<Block>, m: nat, n: nat)
    requires HasRoom(free, m) && n <= m
    ensures HasRoom(free, n)
  {
    var i :| 0 <= i < |free| && free[i].size >= m;
  }
}
