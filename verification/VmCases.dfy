/** Small machines on which allocuvm, copyuvm and deallocuvm do what one would not expect. */
module VmCases {
  import opened PageTree
  import opened VmSpec
  import opened VmShrink
  import opened VmDemand
  import opened VmGrow
  import opened Vm

  lemma NoRanges()
    ensures KmapOk([]) && KernelTabs([], 0) == {} && KernelFrames([]) == 1
  {
  }

  lemma EmptyIsClear(m: Memory, s: nat, lo: nat, hi: nat)
    requires hi <= KERNPAGE && forall vp :: 0 <= vp < KERNPAGE ==> Pte(m, s, vp) == 0
    ensures Clear(m, s, lo, hi)
  {
    NothingPresent();
    hide Pte;
  }

  /** The first page of a space without page tables takes two frames. */
  lemma FirstPageDemand(v: nat)
    ensures Demand({}, v, v) == 0 && Opens({}, v, v) && Demand({}, v, v + 1) == 2 && Indices(v, v + 1) == {v / NPT}
  {
    assert Indices(v, v) == {};
  }

  /** A machine with the given number of frames, one of them the directory of an empty space. */
  method Fresh(frames: nat) returns (m: Machine, d: nat)
    requires 1 <= frames < 100
    ensures fresh(m) && m.Valid() && m.dirs == {d} && |m.freelist| == frames - 1 && Tabs(m.mem, d) == {}
    ensures forall vp :: 0 <= vp < KERNPAGE ==> Pte(m.mem, d, vp) == 0
  {
    hide Sound, Pte, Node, Distinct, Tabs, Range;
    NoRanges();
    m := new Machine.Kinit(1, frames + 1);
    var ok;
    ok, d := m.Setupkvm([]);
  }

  /** With one frame free, allocuvm reports a first page it has not mapped. */
  method UnmappedPage() returns (m: Machine, d: nat, r: Word)
    ensures r == PGSIZE && d in m.dirs && m.Valid() && !Present(Pte(m.mem, d, 0))
  {
    hide Sound, Pte, Node, Distinct, Tabs, Present, Growing, Loses, OneLost, NoLeak;
    m, d := Fresh(2);
    FirstPageDemand(0);
    EmptyIsClear(m.mem, d, 0, 1);
    r := m.Allocuvm(d, 0, PGSIZE);
  }

  lemma FirstPageThere(h: Phys, frames: nat, h': Phys, frames': nat, s: nat, v: nat)
    requires Tabs(h.m, s) == {} && v < KERNPAGE && Grows(h, frames, h', frames', s, v, v + 1)
    ensures frames' + 2 == frames && Present(Pte(h'.m, s, v)) && Tabs(h'.m, s) == {v / NPT}
  {
    hide Step, Pte, Tabs, Present, NoLeak;
    FirstPageDemand(v);
    FreshPresent(h, h'.m, s, v);
  }

  /** With two frames free, copying a space of one page fails and loses a frame. */
  method LostFrame() returns (m: Machine, s: nat, r: CopyResult, ghost before: Phys)
    ensures r.NoSpace? && m.Valid() && m.dirs == {s} && OneLost(before, m.H()) && m.H().free != before.free
  {
    hide Sound, Pte, Node, Distinct, Tabs, Present, NoLeak, UserSame, OneLost, Grows, Growing, Copying, SpacesKept, KmapOk, KernelTabs, KernelFrames;
    m, s := Fresh(5);
    FirstPageDemand(0);
    EmptyIsClear(m.mem, s, 0, 1);
    ghost var h0 := m.H();
    var sz := m.Allocuvm(s, 0, PGSIZE);
    FirstPageThere(h0, 4, m.H(), |m.freelist|, s, 0);
    NoRanges();
    before := m.H();
    assert LosesAt({}, 1, 0, 0);
    r := m.Copyuvm(s, PGSIZE, []);
  }

  lemma GapStays(h: Phys, h': Phys, d: nat)
    requires Shrunk(h, h', d, 1, NPT + 1) && Present(Pte(h.m, d, NPT)) && Tabs(h.m, d) == {1}
    ensures Present(Pte(h'.m, d, NPT))
  {
    hide Pte, Sound, Present, OthersKept, LooseBut, NoLeak, GoneFrames;
    assert Node(h.m, d, Tab(0)) == 0;
    assert Skipped(h.m, d, 1, NPT);
    assert EntryAfter(h.m, h'.m, d, 1, NPT + 1, NPT);
  }

  /** A space whose only page is page 1024: shrinking it to one page leaves that page mapped. */
  method SkippedPage() returns (m: Machine, d: nat, r: Word)
    ensures r == PGSIZE && m.Valid() && m.dirs == {d} && Present(Pte(m.mem, d, NPT))
  {
    hide Sound, Pte, Node, Distinct, Tabs, Present, NoLeak, UserSame, OneLost, Grows, Growing, Shrunk;
    m, d := Fresh(3);
    FirstPageDemand(NPT);
    EmptyIsClear(m.mem, d, NPT, NPT + 1);
    ghost var h0 := m.H();
    var sz := m.Allocuvm(d, NPT * PGSIZE, (NPT + 1) * PGSIZE);
    FirstPageThere(h0, 2, m.H(), |m.freelist|, d, NPT);
    ghost var h1 := m.H();
    r := m.Deallocuvm(d, (NPT + 1) * PGSIZE, PGSIZE);
    GapStays(h1, m.H(), d);
  }
}
