/** How many frames growing an address space takes, and what happens when there are fewer (src/vm.c). */
module VmDemand {
  import opened PageTree
  import opened VmSpec

  /** The page tables a space has, by their index in the directory. */
  ghost function Tabs(m: Memory, s: nat): (r: set<nat>)
    ensures forall i: nat :: i in r <==> i < NPT && Node(m, s, Tab(i)) != 0
  {
    set i: nat | i < NPT && Node(m, s, Tab(i)) != 0
  }

  /** The page tables pages lo up to v lie in. */
  ghost function Indices(lo: nat, v: nat): (r: set<nat>)
    ensures forall vp: nat :: lo <= vp < v ==> vp / NPT in r
    ensures forall i: nat :: i in r ==> lo / NPT <= i <= v / NPT
  {
    if v <= lo then {} else Indices(lo, v - 1) + {(v - 1) / NPT}
  }

  /** In a loop from lo on, over a space with page tables T, page v needs a page table made. */
  ghost predicate Opens(T: set<nat>, lo: nat, v: nat) {
    v / NPT !in T + Indices(lo, v)
  }

  /** The frames pages lo up to v take: one each, and one for every page table they open. */
  ghost function Demand(T: set<nat>, lo: nat, v: nat): (r: nat) {
    if v <= lo then 0 else Demand(T, lo, v - 1) + 1 + if Opens(T, lo, v - 1) then 1 else 0
  }

  /** The same, counted at once. */
  lemma {:induction false} DemandIs(T: set<nat>, lo: nat, v: nat)
    requires lo <= v
    ensures Demand(T, lo, v) == v - lo + |Indices(lo, v) - T|
  {
    if lo < v {
      DemandIs(T, lo, v - 1);
      var A, B := Indices(lo, v - 1) - T, Indices(lo, v) - T;
      if Opens(T, lo, v - 1) {
        assert B == A + {(v - 1) / NPT};
      } else {
        assert B == A;
      }
    }
  }

  lemma {:induction false} DemandGrows(T: set<nat>, lo: nat, v: nat, w: nat)
    requires lo <= v <= w
    ensures Demand(T, lo, v) + (w - v) <= Demand(T, lo, w)
  {
    if v < w {
      DemandGrows(T, lo, v, w - 1);
    }
  }

  /** With `frames` free, some page gets its frame and not the page table it opens: that frame is lost. */
  ghost predicate LosesAt(T: set<nat>, frames: nat, lo: nat, v: nat) {
    Opens(T, lo, v) && frames == Demand(T, lo, v) + 1
  }

  ghost predicate Loses(T: set<nat>, frames: nat, lo: nat, hi: nat) {
    exists v :: lo <= v < hi && LosesAt(T, frames, lo, v)
  }

  /** The frames suffice for the pages below v exactly: nothing was lost on the way, and v is the first page without. */
  lemma RunsOutAt(T: set<nat>, frames: nat, lo: nat, v: nat, hi: nat)
    requires lo <= v < hi && frames == Demand(T, lo, v)
    ensures !Loses(T, frames, lo, hi) && frames < Demand(T, lo, hi) && !LosesAt(T, frames, lo, hi - 1)
  {
    forall w | lo <= w < hi ensures !LosesAt(T, frames, lo, w) {
      if w < v {
        DemandGrows(T, lo, w + 1, v);
      } else {
        DemandGrows(T, lo, v, w);
      }
    }
    DemandGrows(T, lo, v, hi);
  }

  /** A frame was lost at v: that is the only place, and the frames did not suffice. */
  lemma LostAt(T: set<nat>, frames: nat, lo: nat, v: nat, hi: nat)
    requires lo <= v < hi && LosesAt(T, frames, lo, v)
    ensures Loses(T, frames, lo, hi) && frames < Demand(T, lo, hi) && (LosesAt(T, frames, lo, hi - 1) <==> v == hi - 1)
  {
    DemandGrows(T, lo, v + 1, hi);
    if v < hi - 1 {
      DemandGrows(T, lo, v + 1, hi - 1);
    }
  }

  lemma Suffices(T: set<nat>, frames: nat, lo: nat, hi: nat)
    requires lo <= hi && Demand(T, lo, hi) <= frames
    ensures !Loses(T, frames, lo, hi) && (lo < hi ==> !LosesAt(T, frames, lo, hi - 1))
  {
    forall w | lo <= w < hi ensures !LosesAt(T, frames, lo, w) {
      DemandGrows(T, lo, w + 1, hi);
    }
  }

  // What changes the page tables of a space

  lemma WithTableTabs(h: Phys, s: nat, i: nat, b: nat)
    requires Sound(h) && s in h.dirs && i < NPT && Node(h.m, s, Tab(i)) == 0 && b in h.free
    ensures 0 < s < |h.m| && 0 < b < |h.m|
    ensures Tabs(WithTable(h, s, i, b).m, s) == Tabs(h.m, s) + {i} && i !in Tabs(h.m, s)
  {
    hide WithTable, Node, InUse, Apart;
    WithTableNode(h, s, i, b, s, Tab(i));
    forall k: nat | k < NPT ensures Node(WithTable(h, s, i, b).m, s, Tab(k)) == if k == i then b else Node(h.m, s, Tab(k)) {
      WithTableNode(h, s, i, b, s, Tab(k));
    }
  }

  lemma TabsSame(m: Memory, m': Memory, s: nat)
    requires forall i :: 0 <= i < NPT ==> Node(m', s, Tab(i)) == Node(m, s, Tab(i))
    ensures Tabs(m', s) == Tabs(m, s)
  {
    hide Node;
  }

  /** Frames became page tables, one each, until those of I were there. */
  ghost predicate Opened(T: set<nat>, frames: nat, T': set<nat>, frames': nat, I: set<nat>) {
    T' == T + I && frames' + |T'| == frames + |T|
  }

  lemma OpenedNext(T: set<nat>, f: nat, T1: set<nat>, f1: nat, T2: set<nat>, f2: nat, lo: nat, v: nat)
    requires lo <= v && Opened(T, f, T1, f1, Indices(lo, v)) && Opened(T1, f1, T2, f2, {v / NPT})
    ensures Opened(T, f, T2, f2, Indices(lo, v + 1))
  {
    assert Indices(lo, v + 1) == Indices(lo, v) + {v / NPT};
  }

  lemma {:induction false} IndicesGrow(lo: nat, v: nat, w: nat)
    requires v <= w
    ensures Indices(lo, v) <= Indices(lo, w) && (lo <= v < w ==> v / NPT in Indices(lo, w))
  {
    if v < w {
      IndicesGrow(lo, v, w - 1);
    }
  }

  lemma OpenedNone(T: set<nat>, f: nat, lo: nat)
    ensures Opened(T, f, T, f, Indices(lo, lo))
  {
    assert T + Indices(lo, lo) == T;
  }

  /** One page table: made of a frame unless it is there. */
  lemma OpenedOne(T: set<nat>, f: nat, T': set<nat>, f': nat, i: nat)
    requires Opened(T, f, T', f', {i})
    ensures T' == T + {i} && f' == f - if i in T then 0 else 1
  {
    if i in T {
      assert T + {i} == T;
    }
  }

  lemma OpenedSingle(T: set<nat>, f: nat, T': set<nat>, f': nat, v: nat, k: nat)
    requires k <= 1 && Opened(T, f, T', f', Indices(v, v + k))
    ensures Opened(T, f, T', f', if k == 0 then {} else {v / NPT})
    ensures k == 0 ==> T' == T && f' == f
  {
    assert Indices(v, v + k) == if k == 0 then {} else {v / NPT};
    assert T + {} == T;
  }
}
