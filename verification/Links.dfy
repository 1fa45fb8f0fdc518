/** The same list in the ptr and size fields of the headers. */
module Links {
  import opened FreeList

  /** Header i of the list holds its size and points at the next one round the ring. */
  ghost predicate LinkAt(s: seq<Block>, ptr: map<nat, nat>, size: map<nat, nat>, i: int) {
    0 <= i < |s| ==>
      && s[i].addr in ptr && s[i].addr in size
      && size[s[i].addr] == s[i].size
      && ptr[s[i].addr] == s[Next(s, i)].addr
  }

  ghost predicate Linked(s: seq<Block>, ptr: map<nat, nat>, size: map<nat, nat>) {
    forall i :: LinkAt(s, ptr, size, i)
  }

  ghost predicate Distinct(s: seq<Block>) {
    forall i, j :: 0 <= i < j < |s| ==> s[i].addr != s[j].addr
  }

  lemma ListIsDistinct(s: seq<Block>)
    requires IsList(s)
    ensures Distinct(s)
  {
    forall i, j | 0 <= i < j < |s| ensures s[i].addr != s[j].addr {
      FarApart(s, i, j);
    }
  }

  /** Linking a new block in between j - 1 and j. */
  lemma LinkInsert(s: seq<Block>, ptr: map<nat, nat>, size: map<nat, nat>, j: nat, b: Block)
    requires Linked(s, ptr, size) && Distinct(s) && 0 < j <= |s|
    requires forall i :: 0 <= i < |s| ==> s[i].addr != b.addr
    ensures s[j - 1].addr in ptr
    ensures Linked(InsertAt(s, j, b), ptr[b.addr := ptr[s[j - 1].addr]][s[j - 1].addr := b.addr], size[b.addr := b.size])
    ensures Distinct(InsertAt(s, j, b))
  {
    var r := InsertAt(s, j, b);
    assert LinkAt(s, ptr, size, j - 1);
    var ptr', size' := ptr[b.addr := ptr[s[j - 1].addr]][s[j - 1].addr := b.addr], size[b.addr := b.size];
    forall i ensures LinkAt(r, ptr', size', i) {
      if 0 <= i < |r| && i != j {
        var k := if i < j then i else i - 1;
        assert r[i] == s[k] && LinkAt(s, ptr, size, k);
        assert k != j - 1 ==> r[Next(r, i)] == s[Next(s, k)];
      }
    }
  }

  /** Merging block i with its upper neighbour: it takes over the neighbour's size and link. */
  lemma LinkMerge(s: seq<Block>, ptr: map<nat, nat>, size: map<nat, nat>, i: nat)
    requires Linked(s, ptr, size) && Distinct(s) && i + 1 < |s| && s[i].End() == s[i + 1].addr
    ensures s[i].addr in ptr && s[i + 1].addr in ptr && s[i].addr in size && s[i + 1].addr in size
    ensures Linked(MergeAt(s, i), ptr[s[i].addr := ptr[s[i + 1].addr]], size[s[i].addr := size[s[i].addr] + size[s[i + 1].addr]])
  {
    hide MergeAt, Distinct;
    assert LinkAt(s, ptr, size, i) && LinkAt(s, ptr, size, i + 1);
    var r, ptr', size' := MergeAt(s, i), ptr[s[i].addr := ptr[s[i + 1].addr]], size[s[i].addr := size[s[i].addr] + size[s[i + 1].addr]];
    forall k ensures LinkAt(r, ptr', size', k) {
      MergeIndex(s, i, i);
      if 0 <= k < |s| - 1 {
        LinkMergeAt(s, ptr, size, i, k);
      }
    }
  }

  lemma LinkMergeAt(s: seq<Block>, ptr: map<nat, nat>, size: map<nat, nat>, i: nat, k: nat)
    requires i + 1 < |s| && s[i].End() == s[i + 1].addr && k < |s| - 1 && Distinct(s)
    requires LinkAt(s, ptr, size, i) && LinkAt(s, ptr, size, i + 1) && LinkAt(s, ptr, size, if k < i then k else k + 1)
    ensures LinkAt(MergeAt(s, i), ptr[s[i].addr := ptr[s[i + 1].addr]], size[s[i].addr := size[s[i].addr] + size[s[i + 1].addr]], k)
  {
    var r, from := MergeAt(s, i), if k < i then k else k + 1;
    MergeIndex(s, i, k);
    MergeIndex(s, i, Next(r, k));
    assert from != i && (k != i ==> s[from].addr != s[i].addr);
    hide Distinct, MergeAt;
  }

  datatype Fields = Fields(ptr: map<nat, nat>, size: map<nat, nat>) {
    predicate Has(a: nat) {
      a in ptr && a in size
    }
  }

  /** The first `if` of free: bp takes over its upper neighbour q, or points at it. */
  function Upper(f: Fields, bp: nat, q: nat): (r: Fields)
    requires bp in f.size && f.Has(q)
  {
    if bp + f.size[bp] == q then Fields(f.ptr[bp := f.ptr[q]], f.size[bp := f.size[bp] + f.size[q]])
    else Fields(f.ptr[bp := q], f.size)
  }

  /** The second `if` of free: p takes over bp, or points at it. */
  function Lower(f: Fields, p: nat, bp: nat): (r: Fields)
    requires f.Has(p) && f.Has(bp)
  {
    if p + f.size[p] == bp then Fields(f.ptr[p := f.ptr[bp]], f.size[p := f.size[p] + f.size[bp]])
    else Fields(f.ptr[p := bp], f.size)
  }

  lemma UpperLinks(free: seq<Block>, f: Fields, j: nat, b: Block)
    requires Linked(free, f.ptr, f.size) && Distinct(free) && 0 < j <= |free|
    requires b.addr in f.size && f.size[b.addr] == b.size && forall i :: 0 <= i < |free| ==> free[i].addr != b.addr
    requires b.addr > free[0].addr
    ensures var p, r := free[j - 1].addr, MergeAt(InsertAt(free, j, b), j);
            && f.Has(p) && f.Has(f.ptr[p])
            && var g := Upper(f, b.addr, f.ptr[p]);
               g.Has(p) && g.Has(b.addr) && Linked(r, g.ptr[p := b.addr], g.size)
  {
    var p, r0 := free[j - 1].addr, InsertAt(free, j, b);
    assert LinkAt(free, f.ptr, f.size, j - 1) && LinkAt(free, f.ptr, f.size, Next(free, j - 1));
    var q := f.ptr[p];
    var g := Upper(f, b.addr, q);
    LinkInsert(free, f.ptr, f.size, j, b);
    assert f.size[b.addr := b.size] == f.size;
    assert r0[j] == b && (j < |free| ==> r0[j + 1] == free[j] && free[j].addr == q);
    hide Linked, Distinct, InsertAt;
    if b.End() == q {
      LinkMerge(r0, f.ptr[b.addr := q][p := b.addr], f.size, j);
      assert f.ptr[b.addr := q][p := b.addr][b.addr := f.ptr[q]] == g.ptr[p := b.addr];
    } else {
      assert f.ptr[b.addr := q] == g.ptr;
    }
  }

  lemma LowerLinks(r: seq<Block>, g: Fields, i: nat)
    requires i + 1 < |r| && g.Has(r[i].addr) && g.Has(r[i + 1].addr) && Distinct(r)
    requires Linked(r, g.ptr[r[i].addr := r[i + 1].addr], g.size)
    ensures var h := Lower(g, r[i].addr, r[i + 1].addr);
            Linked(MergeAt(r, i), h.ptr, h.size)
  {
    var p, bp := r[i].addr, r[i + 1].addr;
    var h := Lower(g, p, bp);
    assert LinkAt(r, g.ptr[p := bp], g.size, i);
    if r[i].End() == bp {
      LinkMerge(r, g.ptr[p := bp], g.size, i);
      assert p != bp;
      assert g.ptr[p := bp][p := g.ptr[bp]] == h.ptr;
    }
  }

  /** The pointer writes of free turn the ring of `free` into the ring of Return(free, b). */
  lemma LinkReturn(free: seq<Block>, f: Fields, b: Block)
    requires IsList(free) && b.size > 0 && b.addr > free[0].addr && forall i :: 0 <= i < |free| ==> Apart(free[i], b)
    requires Linked(free, f.ptr, f.size) && b.addr in f.size && f.size[b.addr] == b.size
    ensures var j := Below(free, b.addr);
            && j > 0 && f.Has(free[j - 1].addr) && f.Has(f.ptr[free[j - 1].addr])
            && var p := free[j - 1].addr;
               var g := Upper(f, b.addr, f.ptr[p]);
               g.Has(p) && g.Has(b.addr)
               && var h := Lower(g, p, b.addr);
                  Linked(Return(free, b), h.ptr, h.size) && j <= |Return(free, b)| && Return(free, b)[j - 1].addr == p
  {
    PlaceOf(free, b);
    ListIsDistinct(free);
    var j := Below(free, b.addr);
    hide Below;
    var p, r0 := free[j - 1].addr, InsertAt(free, j, b);
    NewAddress(free, j, b);
    UpperLinks(free, f, j, b);
    LinkInsert(free, f.ptr, f.size, j, b);
    MergeKeepsDistinct(r0, j);
    var r1 := MergeAt(r0, j);
    assert r1[j - 1].addr == p && r1[j].addr == b.addr;
    hide Linked, Distinct;
    LowerLinks(r1, Upper(f, b.addr, f.ptr[p]), j - 1);
  }

  /** malloc taking block i whole: its predecessor skips it. */
  lemma LinkTakeWhole(s: seq<Block>, ptr: map<nat, nat>, size: map<nat, nat>, i: nat)
    requires Linked(s, ptr, size) && Distinct(s) && 0 < i < |s|
    ensures s[i].addr in ptr
    ensures Linked(s[..i] + s[i + 1..], ptr[s[i - 1].addr := ptr[s[i].addr]], size)
  {
    assert LinkAt(s, ptr, size, i) && LinkAt(s, ptr, size, i - 1);
    var r, ptr' := s[..i] + s[i + 1..], ptr[s[i - 1].addr := ptr[s[i].addr]];
    forall k ensures LinkAt(r, ptr', size, k) {
      if 0 <= k < |r| {
        var from := if k < i then k else k + 1;
        assert r[k] == s[from] && LinkAt(s, ptr, size, from);
        assert r[Next(r, k)] == s[if from == i - 1 then Next(s, i) else Next(s, from)];
      }
    }
  }

  /** malloc taking the tail of block i: the block shrinks, and the tail gets a header of its own. */
  lemma LinkTakeTail(s: seq<Block>, ptr: map<nat, nat>, size: map<nat, nat>, i: nat, n: nat)
    requires Linked(s, ptr, size) && Distinct(s) && 0 < i < |s| && n < s[i].size
    requires forall k :: 0 <= k < |s| ==> s[k].addr != s[i].addr + s[i].size - n
    ensures Linked(s[..i] + [Block(s[i].addr, s[i].size - n)] + s[i + 1..], ptr,
                   size[s[i].addr := s[i].size - n][s[i].addr + s[i].size - n := n])
  {
    var r := s[..i] + [Block(s[i].addr, s[i].size - n)] + s[i + 1..];
    var size' := size[s[i].addr := s[i].size - n][s[i].addr + s[i].size - n := n];
    forall k ensures LinkAt(r, ptr, size', k) {
      if 0 <= k < |r| {
        assert LinkAt(s, ptr, size, k) && r[k].addr == s[k].addr && r[Next(r, k)].addr == s[Next(s, k)].addr;
      }
    }
  }

  lemma NewAddress(free: seq<Block>, j: nat, b: Block)
    requires IsList(free) && b.size > 0 && 0 < j <= |free| && b.addr > free[0].addr
    requires free[j - 1].End() <= b.addr && (j < |free| ==> b.End() <= free[j].addr)
    ensures forall i :: 0 <= i < |free| ==> free[i].addr != b.addr
  {
    forall i | 0 <= i < |free| ensures free[i].addr != b.addr {
      if i < j - 1 {
        FarApart(free, i, j - 1);
      } else if i > j {
        FarApart(free, j, i);
      }
    }
  }

  lemma MergeKeepsDistinct(s: seq<Block>, i: nat)
    requires Distinct(s)
    ensures Distinct(MergeAt(s, i))
  {
    if i + 1 < |s| && s[i].End() == s[i + 1].addr {
      var r := MergeAt(s, i);
      MergeIndex(s, i, i);
      hide MergeAt;
      forall p, q | 0 <= p < q < |r| ensures r[p].addr != r[q].addr {
        MergeIndex(s, i, p);
        MergeIndex(s, i, q);
      }
    }
  }
}
