/** What allocuvm and copyuvm build (src/vm.c:221-243, 310-337). */
module VmGrow {
  import opened PageTree
  import opened VmSpec
  import opened VmShrink
  import opened VmDemand

  /** Page vp is mapped writable for the user to a zeroed frame that was free in h. */
  ghost predicate FreshPage(h: Phys, m': Memory, s: nat, vp: nat)
    requires vp < NVP
  {
    var w := Pte(m', s, vp);
    w % PGSIZE == 7 && w / PGSIZE in h.free && w / PGSIZE < |m'| && m'[w / PGSIZE] == ZeroPage()
  }

  /** allocuvm's loop: pages lo up to v are fresh, every other entry is as it was. */
  ghost predicate Growing(h: Phys, h': Phys, s: nat, lo: nat, v: nat) {
    && Step(h, h', s, {}) && v <= KERNPAGE
    && (forall vp :: lo <= vp < v ==> FreshPage(h, h'.m, s, vp))
    && (forall vp :: 0 <= vp < NVP && !(lo <= vp < v) ==> Pte(h'.m, s, vp) == Pte(h.m, s, vp))
  }

  /** No page from lo up to hi is mapped. */
  ghost predicate Clear(m: Memory, s: nat, lo: nat, hi: nat) {
    forall vp :: lo <= vp < hi && vp < NVP ==> !Present(Pte(m, s, vp))
  }

  /** kalloc, and the frame filled: it is in hand. */
  ghost function Filled(h: Phys, b: nat, page: Page): (r: Phys)
    requires b < |h.m|
  {
    Phys(h.m[b := page], h.dirs, h.free - {b})
  }

  lemma FilledStep(h: Phys, s: nat, b: nat, page: Page)
    requires Sound(h) && s in h.dirs && b in h.free
    ensures 0 < b < |h.m| && Walked(h, Filled(h, b, page), s) && Loose(Filled(h, b, page), b)
    ensures NoLeak(h, Filled(h, b, page), {b})
  {
    hide Node, Step, Loose, Pte;
    FilledNoLeak(h, b, page);
    TakeStep(h, s, b);
    var h1 := h.(free := h.free - {b});
    StepSound(h, h1, s, {});
    FillStep(h1, s, b, page);
    StepThen(h, h1, Filled(h, b, page), s, {}, {b});
    StepFresh(h, Filled(h, b, page), s, {} + {b}, {});
  }

  lemma FilledNoLeak(h: Phys, b: nat, page: Page)
    requires Sound(h) && b in h.free
    ensures 0 < b < |h.m| && NoLeak(h, Filled(h, b, page), {b})
  {
    var h' := Filled(h, b, page);
    forall u, p | u in h.dirs && OkPos(p) ensures Node(h.m, u, p) != b {
      assert InUse(h, u, p);
    }
    assert TablesKept(h, h'.m);
    forall c: nat | Loose(h', c) && c != b ensures Loose(h, c) {
      forall u, p | u in h.dirs && OkPos(p) ensures Node(h.m, u, p) != c {
        TablesKeepNode(h, h'.m, u, p);
      }
    }
  }

  /** The frame taken is mapped, so none is lost. */
  lemma MappedNoLeak(h1: Phys, h2: Phys, h3: Phys, s: nat, v: nat, b: nat, flags: nat)
    requires NoLeak(h1, h2, {b}) && Mapped(h2, h3, s, v, 1, b, flags) && v < KERNPAGE
    ensures NoLeak(h1, h3, {})
  {
    hide Step, Loose, Pte;
    assert !Loose(h3, b);
  }

  /** A fresh page stays fresh while the space grows. */
  lemma FreshStays(h: Phys, h1: Phys, h2: Phys, s: nat, X: set<nat>, vp: nat)
    requires vp < KERNPAGE && FreshPage(h, h1.m, s, vp) && Step(h1, h2, s, X) && Pte(h2.m, s, vp) == Pte(h1.m, s, vp)
    requires Sound(h) && 0 !in h.free
    ensures FreshPage(h, h2.m, s, vp)
  {
    PteIsEntry(h1.m, s, vp);
    assert SameNode(h1.m, h2.m, s, LeafAt(vp));
  }

  lemma GrowingStart(h: Phys, s: nat, lo: nat)
    requires Sound(h) && s in h.dirs && lo <= KERNPAGE
    ensures Growing(h, h, s, lo, lo)
  {
  }

  /** mappages gave up: the frame stays in hand, no entry has changed. */
  lemma GrowingStays(h: Phys, h1: Phys, h2: Phys, s: nat, lo: nat, v: nat)
    requires Sound(h) && Growing(h, h1, s, lo, v) && Walked(h1, h2, s)
    ensures Growing(h, h2, s, lo, v)
  {
    hide Node, Step, Pte, FreshPage;
    StepThen(h, h1, h2, s, {}, {});
    var X: set<nat> := {};
    assert X + X == X;
    NoZeroFree(h);
    forall vp | lo <= vp < v ensures FreshPage(h, h2.m, s, vp) {
      FreshStays(h, h1, h2, s, {}, vp);
    }
  }

  lemma NoZeroFree(h: Phys)
    requires Sound(h)
    ensures 0 !in h.free
  {
  }

  /** One more page. */
  lemma GrowingNext(h: Phys, h1: Phys, h2: Phys, h3: Phys, s: nat, lo: nat, v: nat, b: nat)
    requires Sound(h) && Growing(h, h1, s, lo, v) && lo <= v < KERNPAGE && s in h.dirs
    requires b in h1.free && b < |h1.m| && h2 == Filled(h1, b, ZeroPage()) && Mapped(h2, h3, s, v, 1, b, 7)
    ensures Growing(h, h3, s, lo, v + 1)
  {
    hide Node, Step, Pte, FreshPage, Loose;
    StepSound(h, h1, s, {});
    FilledStep(h1, s, b, ZeroPage());
    GrowingStays(h, h1, h2, s, lo, v);
    StepThen(h, h2, h3, s, {}, Range(b, 1));
    StepFresh(h, h3, s, {} + Range(b, 1), {});
    NoZeroFree(h);
    forall vp | lo <= vp < v ensures FreshPage(h, h3.m, s, vp) {
      FreshStays(h, h2, h3, s, Range(b, 1), vp);
    }
    MappedFresh(h, h2, h3, s, v, b);
  }

  lemma MappedFresh(h: Phys, h2: Phys, h3: Phys, s: nat, v: nat, b: nat)
    requires v < KERNPAGE && Mapped(h2, h3, s, v, 1, b, 7) && b < |h2.m| && h2.m[b] == ZeroPage() && b in h.free && s in h2.dirs
    ensures FreshPage(h, h3.m, s, v)
  {
    hide Step, Node, Pte;
    assert Pte(h3.m, s, v) == Entry(b, 7);
    assert FrameKept(h2.m, h3.m, b);
  }

  /** allocuvm's loop with every page mapped so far: the frames it took are those it had to. */
  ghost predicate Grows(h: Phys, frames: nat, h': Phys, frames': nat, s: nat, lo: nat, v: nat) {
    && Growing(h, h', s, lo, v) && NoLeak(h, h', {})
    && frames' + Demand(Tabs(h.m, s), lo, v) == frames && Tabs(h'.m, s) == Tabs(h.m, s) + Indices(lo, v)
  }

  /** The page at v got frame b and no page table: frame b is lost. */
  ghost predicate Holed(h: Phys, frames: nat, h': Phys, s: nat, lo: nat, v: nat, b: nat) {
    && Growing(h, h', s, lo, v) && v < KERNPAGE && !Present(Pte(h'.m, s, v))
    && LosesAt(Tabs(h.m, s), frames, lo, v) && NoLeak(h, h', {b}) && b in h.free && Loose(h', b)
  }

  /** A frame that was free is neither free nor part of any space, and it is the only one. */
  ghost predicate OneLost(h: Phys, h': Phys) {
    exists b: nat :: b in h.free && Loose(h', b) && NoLeak(h, h', {b})
  }

  lemma GrowsStart(h: Phys, frames: nat, s: nat, lo: nat)
    requires Sound(h) && s in h.dirs && lo <= KERNPAGE
    ensures Grows(h, frames, h, frames, s, lo, lo)
  {
    hide Sound, Growing, Tabs;
    GrowingStart(h, s, lo);
    assert Tabs(h.m, s) + Indices(lo, lo) == Tabs(h.m, s);
  }

  lemma FilledTabs(h: Phys, b: nat, page: Page, s: nat)
    requires Sound(h) && b in h.free && s in h.dirs
    ensures b < |h.m| && Tabs(Filled(h, b, page).m, s) == Tabs(h.m, s)
  {
    var h' := Filled(h, b, page);
    forall u, p | u in h.dirs && OkPos(p) ensures Node(h.m, u, p) != b {
      assert InUse(h, u, p);
    }
    assert TablesKept(h, h'.m);
    forall i | 0 <= i < NPT ensures Node(h'.m, s, Tab(i)) == Node(h.m, s, Tab(i)) {
      TablesKeepNode(h, h'.m, s, Tab(i));
    }
    TabsSame(h.m, h'.m, s);
  }

  /** One more page, its frame from the free list and its page table there or made. */
  lemma GrowsNext(h: Phys, F: nat, h1: Phys, f1: nat, h2: Phys, h3: Phys, f3: nat, s: nat, lo: nat, v: nat, b: nat)
    requires Sound(h) && Grows(h, F, h1, f1, s, lo, v) && lo <= v < KERNPAGE && s in h.dirs && 0 < f1
    requires b in h1.free && b < |h1.m| && h2 == Filled(h1, b, ZeroPage()) && Mapped(h2, h3, s, v, 1, b, 7) && NoLeak(h1, h2, {b})
    requires Tabs(h3.m, s) == Tabs(h1.m, s) + {v / NPT} && f3 == f1 - 1 - if v / NPT in Tabs(h1.m, s) then 0 else 1
    ensures Grows(h, F, h3, f3, s, lo, v + 1)
  {
    hide Growing, Mapped, Loose, Tabs, Sound;
    GrowingNext(h, h1, h2, h3, s, lo, v, b);
    MappedNoLeak(h1, h2, h3, s, v, b, 7);
    NoLeakThen(h, h1, h3, {}, {});
    assert Indices(lo, v + 1) == Indices(lo, v) + {v / NPT};
  }

  /** The frame was the last one and the page table is missing. */
  lemma GrowsHoled(h: Phys, F: nat, h1: Phys, h2: Phys, h3: Phys, s: nat, lo: nat, v: nat, b: nat, hi: nat)
    requires Sound(h) && Grows(h, F, h1, 1, s, lo, v) && lo <= v < hi <= KERNPAGE && s in h.dirs && Clear(h.m, s, lo, hi)
    requires b in h1.free && b < |h1.m| && Walked(h1, h2, s) && Loose(h2, b) && NoLeak(h1, h2, {b}) && Mapped(h2, h3, s, v, 0, b, 7)
    requires v / NPT !in Tabs(h1.m, s)
    ensures Holed(h, F, h3, s, lo, v, b)
  {
    hide Growing, Mapped, Loose, Tabs, Sound, Pte, Step, Present;
    StayClear(h, h1, h2, s, lo, v, hi);
    NothingMapped(h, h1, h2, h3, s, lo, v, b, 7);
    NoLeakThen(h, h1, h2, {}, {b});
    NoLeakThen(h, h2, h3, {} + {b}, {});
    assert {} + {b} + {} == {b};
    GrowingFree(h, h1, s, lo, v);
  }

  lemma GrowingFree(h: Phys, h1: Phys, s: nat, lo: nat, v: nat)
    requires Growing(h, h1, s, lo, v)
    ensures h1.free <= h.free && Sound(h1) && h1.dirs == h.dirs
  {
  }

  /** Pages not reached yet are still unmapped. */
  lemma StayClear(h: Phys, h1: Phys, h2: Phys, s: nat, lo: nat, v: nat, hi: nat)
    requires Clear(h.m, s, lo, hi) && Growing(h, h1, s, lo, v) && Walked(h1, h2, s) && lo <= v < hi <= KERNPAGE
    ensures !Present(Pte(h2.m, s, v))
  {
    hide Step, FreshPage, Pte;
  }

  lemma NothingMapped(h: Phys, h1: Phys, h2: Phys, h3: Phys, s: nat, lo: nat, v: nat, b: nat, flags: nat)
    requires Sound(h) && Growing(h, h1, s, lo, v) && Walked(h1, h2, s) && v < KERNPAGE && Mapped(h2, h3, s, v, 0, b, flags) && Loose(h2, b)
    ensures Growing(h, h3, s, lo, v) && Pte(h3.m, s, v) == Pte(h2.m, s, v) && NoLeak(h2, h3, {}) && Loose(h3, b)
  {
    hide Sound, Step, Pte, FreshPage, Loose;
    var X: set<nat> := {};
    assert Range(b, 0) == X;
    GrowingStays(h, h1, h2, s, lo, v);
    GrowingStays(h, h2, h3, s, lo, v);
    StepLoose(h2, h3, s, X, b);
  }

  /** The user sees the memory it saw: the same pages, the same entries, the same contents. */
  ghost predicate UserSame(h: Phys, h': Phys, s: nat) {
    && OthersKept(h, h', s) && Sound(h')
    && forall vp :: 0 <= vp < KERNPAGE ==> PageSame(h.m, h'.m, s, vp)
  }

  ghost predicate PageSame(m: Memory, m': Memory, s: nat, vp: nat)
    requires vp < KERNPAGE
  {
    && (Present(Pte(m', s, vp)) <==> Present(Pte(m, s, vp)))
    && (Present(Pte(m, s, vp)) ==> Pte(m', s, vp) == Pte(m, s, vp) && SameNode(m, m', s, LeafAt(vp)))
  }

  /** A run of mapped pages starting at lo is reached by the loop that starts at lo. */
  lemma RunNotSkipped(m: Memory, s: nat, lo: nat, vp: nat)
    requires lo <= vp < KERNPAGE && (vp / NPT > lo / NPT ==> Present(Pte(m, s, lo)))
    ensures !Skipped(m, s, lo, vp)
  {
    if vp / NPT > lo / NPT {
      assert Node(m, s, Tab(lo / NPT)) != 0;
    }
  }

  /** allocuvm out of memory: deallocuvm takes back exactly the pages it had added. */
  lemma RollBack(h: Phys, h2: Phys, h3: Phys, s: nat, lo: nat, v: nat, hi: nat)
    requires Sound(h) && s in h.dirs && Growing(h, h2, s, lo, v) && lo <= v <= hi <= KERNPAGE && Clear(h.m, s, lo, hi)
    requires Shrunk(h2, h3, s, lo, hi)
    ensures UserSame(h, h3, s)
  {
    hide Node, Pte, Sound, Skipped, FreshPage, LooseBut;
    OthersKeptThen(h, h2, h3, s);
    forall vp | 0 <= vp < KERNPAGE ensures PageSame(h.m, h3.m, s, vp) {
      RollBackPage(h, h2, h3, s, lo, v, hi, vp);
    }
  }

  lemma RollBackPage(h: Phys, h2: Phys, h3: Phys, s: nat, lo: nat, v: nat, hi: nat, vp: nat)
    requires Sound(h) && s in h.dirs && Growing(h, h2, s, lo, v) && lo <= v <= hi <= KERNPAGE && Clear(h.m, s, lo, hi)
    requires Shrunk(h2, h3, s, lo, hi) && vp < KERNPAGE
    ensures PageSame(h.m, h3.m, s, vp)
  {
    hide Node, Pte, Sound, LooseBut, OthersKept, Skipped;
    assert EntryAfter(h2.m, h3.m, s, lo, hi, vp);
    NothingPresent();
    if lo <= vp < v {
      FreshPresent(h, h2.m, s, vp);
      FreshPresent(h, h2.m, s, lo);
      RunNotSkipped(h2.m, s, lo, vp);
    } else if Present(Pte(h.m, s, vp)) {
      PteIsEntry(h.m, s, vp);
      PresentHolds(h, s, vp);
      assert SameNode(h.m, h2.m, s, LeafAt(vp));
    }
  }

  lemma FreshPresent(h: Phys, m': Memory, s: nat, vp: nat)
    requires vp < NVP && FreshPage(h, m', s, vp)
    ensures Present(Pte(m', s, vp)) && UserEntry(Pte(m', s, vp), Pte(m', s, vp) / PGSIZE)
  {
  }

  lemma GrowsFacts(h: Phys, F: nat, h': Phys, f: nat, s: nat, lo: nat, v: nat)
    requires Grows(h, F, h', f, s, lo, v) && s in h.dirs
    ensures Growing(h, h', s, lo, v) && Sound(h') && h'.dirs == h.dirs && s in h'.dirs && h'.free <= h.free
  {
    hide Sound, FreshPage, Pte;
  }

  lemma GrowsClear(h: Phys, F: nat, h1: Phys, f1: nat, h2: Phys, s: nat, lo: nat, v: nat, hi: nat)
    requires Clear(h.m, s, lo, hi) && Grows(h, F, h1, f1, s, lo, v) && Walked(h1, h2, s) && lo <= v < hi <= KERNPAGE
    ensures !Present(Pte(h2.m, s, v))
  {
    hide Growing, Walked, Clear, Pte;
    StayClear(h, h1, h2, s, lo, v, hi);
  }

  lemma HoledFacts(h: Phys, F: nat, h': Phys, s: nat, lo: nat, v: nat, b: nat)
    requires Holed(h, F, h', s, lo, v, b)
    ensures Growing(h, h', s, lo, v)
  {
  }

  /** kalloc failed with nothing lost so far. */
  lemma GrowsBack(h: Phys, F: nat, h1: Phys, h2: Phys, s: nat, lo: nat, v: nat, hi: nat)
    requires Grows(h, F, h1, 0, s, lo, v) && lo <= v < hi && Shrunk(h1, h2, s, lo, hi)
    ensures var T := Tabs(h.m, s);
            Demand(T, lo, hi) > F && !LosesAt(T, F, lo, hi - 1) && !Loses(T, F, lo, hi) && NoLeak(h, h2, {})
  {
    hide Growing, Sound, LosesAt, Loses, Demand, EntryAfter, Loose;
    RunsOutAt(Tabs(h.m, s), F, lo, v, hi);
    NoLeakThen(h, h1, h2, {}, {});
  }

  /** kalloc failed after a frame was lost at the page before. */
  lemma HoledBack(h: Phys, F: nat, h1: Phys, h2: Phys, s: nat, lo: nat, v: nat, hi: nat, b: nat)
    requires Holed(h, F, h1, s, lo, v, b) && lo <= v < hi - 1 && Shrunk(h1, h2, s, lo, hi)
    ensures var T := Tabs(h.m, s);
            Demand(T, lo, hi) > F && !LosesAt(T, F, lo, hi - 1) && Loses(T, F, lo, hi) && OneLost(h, h2)
  {
    hide Growing, Sound, LosesAt, Loses, Demand, EntryAfter, Loose, Pte, Present;
    LostAt(Tabs(h.m, s), F, lo, v, hi);
    NoLeakThen(h, h1, h2, {b}, {});
    assert {b} + {} == {b};
    assert b in h.free && Loose(h2, b) && NoLeak(h, h2, {b});
  }

  lemma GrowsEnd(h: Phys, F: nat, h': Phys, f: nat, s: nat, lo: nat, hi: nat)
    requires Grows(h, F, h', f, s, lo, hi) && lo <= hi
    ensures var T := Tabs(h.m, s);
            Demand(T, lo, hi) <= F && (lo < hi ==> !LosesAt(T, F, lo, hi - 1)) && !Loses(T, F, lo, hi) && NoLeak(h, h', {})
  {
    hide Growing, LosesAt, Loses, Demand, Loose;
    Suffices(Tabs(h.m, s), F, lo, hi);
  }

  lemma HoledEnd(h: Phys, F: nat, h': Phys, s: nat, lo: nat, hi: nat, b: nat)
    requires lo < hi && Holed(h, F, h', s, lo, hi - 1, b)
    ensures var T := Tabs(h.m, s);
            && Demand(T, lo, hi) > F && LosesAt(T, F, lo, hi - 1) && Loses(T, F, lo, hi) && OneLost(h, h')
            && Growing(h, h', s, lo, hi - 1) && !Present(Pte(h'.m, s, hi - 1))
  {
    hide Growing, LosesAt, Loses, Demand, Loose, Pte, Present;
    LostAt(Tabs(h.m, s), F, lo, hi - 1, hi);
    assert b in h.free && Loose(h', b) && NoLeak(h, h', {b});
  }

  // copyuvm

  /** Page vp of d is a copy of page vp of s: the same flags and contents. */
  ghost predicate CopiedPage(m: Memory, s: nat, d: nat, vp: nat)
    requires vp < KERNPAGE
  {
    var f, g := Node(m, s, LeafAt(vp)), Node(m, d, LeafAt(vp));
    && Present(Pte(m, s, vp)) && Present(Pte(m, d, vp)) && Pte(m, d, vp) % PGSIZE == Pte(m, s, vp) % PGSIZE
    && 0 < f < |m| && 0 < g < |m| && m[g] == m[f]
  }

  /** copyuvm's loop: pages below v are copied, the rest of d's user half is empty; the old spaces are untouched. */
  ghost predicate Copying(m: Memory, h': Phys, D: set<nat>, s: nat, d: nat, v: nat) {
    && Sound(h') && s in D && d !in D && h'.dirs == D + {d} && v <= KERNPAGE
    && SpacesKept(m, h'.m, D)
    && (forall vp :: 0 <= vp < v ==> CopiedPage(h'.m, s, d, vp))
    && (forall vp :: v <= vp < KERNPAGE ==> !Present(Pte(h'.m, d, vp)))
  }

  /** The same with the frames counted: the kernel half has page tables K, and `frames` were free when it was done. */
  ghost predicate Copies(m: Memory, h': Phys, D: set<nat>, s: nat, d: nat, v: nat, K: set<nat>, frames: nat, frames': nat) {
    Copying(m, h', D, s, d, v) && frames' + Demand(K, 0, v) == frames && Tabs(h'.m, d) == K + Indices(0, v)
  }

  lemma CopiesNext(m: Memory, h1: Phys, h2: Phys, D: set<nat>, s: nat, d: nat, v: nat, K: set<nat>, F: nat, f1: nat, f2: nat)
    requires Copies(m, h1, D, s, d, v, K, F, f1) && Copying(m, h2, D, s, d, v + 1)
    requires Tabs(h2.m, d) == Tabs(h1.m, d) + {v / NPT} && f2 + 1 + (if v / NPT in Tabs(h1.m, d) then 0 else 1) == f1
    ensures Copies(m, h2, D, s, d, v + 1, K, F, f2)
  {
    hide Copying, Tabs;
    assert Indices(0, v + 1) == Indices(0, v) + {v / NPT};
  }

  lemma StepSpaces(h: Phys, h': Phys, s: nat, X: set<nat>, D: set<nat>)
    requires Step(h, h', s, X) && D <= h.dirs && s !in D
    ensures SpacesKept(h.m, h'.m, D)
  {
    hide Node, Sound, LooseBut, PagesStay, TabsKept;
  }

  /** Entries of a kept space read the same. */
  lemma KeptPte(m: Memory, m': Memory, D: set<nat>, s: nat, vp: nat)
    requires SpacesKept(m, m', D) && s in D && vp < NVP
    ensures Pte(m', s, vp) == Pte(m, s, vp)
  {
    assert SameNode(m, m', s, Tab(vp / NPT));
  }

  lemma CopiedStays(h1: Phys, h2: Phys, D: set<nat>, s: nat, d: nat, X: set<nat>, vp: nat)
    requires s in D && vp < KERNPAGE && CopiedPage(h1.m, s, d, vp) && Step(h1, h2, d, X) && SpacesKept(h1.m, h2.m, D)
    requires Pte(h2.m, d, vp) == Pte(h1.m, d, vp)
    ensures CopiedPage(h2.m, s, d, vp)
  {
    hide Node, Pte, Sound;
    KeptPte(h1.m, h2.m, D, s, vp);
    assert SameNode(h1.m, h2.m, s, LeafAt(vp));
    assert SameNode(h1.m, h2.m, d, LeafAt(vp));
  }

  /** kalloc and memmove: nothing a page table can see. */
  lemma CopyingFill(m: Memory, h1: Phys, D: set<nat>, s: nat, d: nat, v: nat, b: nat, page: Page)
    requires Copying(m, h1, D, s, d, v) && b in h1.free
    ensures 0 < b < |h1.m| && Copying(m, Filled(h1, b, page), D, s, d, v) && Loose(Filled(h1, b, page), b)
  {
    hide Node, Pte, Step, CopiedPage, Loose, Present;
    FilledStep(h1, d, b, page);
    CopyingWalk(m, h1, Filled(h1, b, page), D, s, d, v);
  }

  lemma CopyingWalk(m: Memory, h1: Phys, h2: Phys, D: set<nat>, s: nat, d: nat, v: nat)
    requires Copying(m, h1, D, s, d, v) && Walked(h1, h2, d)
    ensures Copying(m, h2, D, s, d, v)
  {
    hide Node, Pte, Step, CopiedPage, Present;
    StepSound(h1, h2, d, {});
    StepSpaces(h1, h2, d, {}, D);
    SpacesKeptThen(m, h1.m, h2.m, D);
    forall vp | 0 <= vp < v ensures CopiedPage(h2.m, s, d, vp) {
      CopiedStays(h1, h2, D, s, d, {}, vp);
    }
  }

  /** The new page is mapped with the old one's flags. */
  lemma CopyingNext(m: Memory, h1: Phys, h2: Phys, D: set<nat>, s: nat, d: nat, v: nat, b: nat)
    requires Copying(m, h1, D, s, d, v) && v < KERNPAGE && Loose(h1, b) && Present(Pte(h1.m, s, v))
    requires 0 < Node(h1.m, s, LeafAt(v)) < |h1.m| && b < |h1.m| && h1.m[b] == h1.m[Node(h1.m, s, LeafAt(v))]
    requires Mapped(h1, h2, d, v, 1, b, Pte(h1.m, s, v) % PGSIZE)
    ensures Copying(m, h2, D, s, d, v + 1)
  {
    hide Node, Pte, Step, CopiedPage, Loose, Sound;
    var X := Range(b, 1);
    StepSound(h1, h2, d, X);
    StepSpaces(h1, h2, d, X, D);
    SpacesKeptThen(m, h1.m, h2.m, D);
    forall vp | 0 <= vp < v ensures CopiedPage(h2.m, s, d, vp) {
      CopiedStays(h1, h2, D, s, d, X, vp);
    }
    LooseFacts(h1, b);
    NewCopy(h1, h2, D, s, d, v, b);
  }

  lemma NewCopy(h1: Phys, h2: Phys, D: set<nat>, s: nat, d: nat, v: nat, b: nat)
    requires v < KERNPAGE && s in D && SpacesKept(h1.m, h2.m, D) && Present(Pte(h1.m, s, v))
    requires 0 < Node(h1.m, s, LeafAt(v)) < |h1.m| && 0 < b < |h1.m| && h1.m[b] == h1.m[Node(h1.m, s, LeafAt(v))]
    requires Mapped(h1, h2, d, v, 1, b, Pte(h1.m, s, v) % PGSIZE)
    ensures CopiedPage(h2.m, s, d, v)
  {
    hide Step, Node, Pte;
    KeptPte(h1.m, h2.m, D, s, v);
    assert SameNode(h1.m, h2.m, s, LeafAt(v));
    PteIsEntry(h2.m, d, v);
    assert FrameKept(h1.m, h2.m, b);
  }

  /** Copies share no frame with the original, or with anything else. */
  lemma CopiesAreApart(h: Phys, D: set<nat>, m: Memory, s: nat, d: nat, v: nat, vp: nat, u: nat, p: Pos)
    requires Copying(m, h, D, s, d, v) && vp < v && u in D && OkPos(p)
    ensures Node(h.m, d, LeafAt(vp)) != Node(h.m, u, p)
  {
    assert CopiedPage(h.m, s, d, vp);
    assert Apart(h, d, LeafAt(vp), u, p);
  }

  // What the user reads

  /** The contents of page vp of space s, zeros where nothing is mapped. */
  function UserPage(m: Memory, s: nat, vp: nat): (r: Page)
    requires vp < KERNPAGE
  {
    var w := Pte(m, s, vp);
    if Present(w) && w / PGSIZE < |m| then m[w / PGSIZE] else ZeroPage()
  }

  /** A copied space reads as the original did, page by page, with the same rights. */
  lemma CopyReads(m: Memory, h: Phys, D: set<nat>, s: nat, d: nat, v: nat, vp: nat)
    requires Copying(m, h, D, s, d, v) && vp < v
    ensures UserPage(h.m, d, vp) == UserPage(m, s, vp) && Pte(h.m, d, vp) % PGSIZE == Pte(m, s, vp) % PGSIZE
  {
    hide Sound, Pte, Node;
    assert CopiedPage(h.m, s, d, vp) && SameNode(m, h.m, s, LeafAt(vp));
    KeptPte(m, h.m, D, s, vp);
    PteIsEntry(m, s, vp);
    PteIsEntry(h.m, s, vp);
    PteIsEntry(h.m, d, vp);
  }

  /** Grown memory: zeros the user may read and write in the new pages, everything else as it was. */
  lemma GrowReads(h: Phys, h': Phys, s: nat, lo: nat, v: nat, vp: nat)
    requires Growing(h, h', s, lo, v) && Sound(h) && s in h.dirs && vp < KERNPAGE
    ensures lo <= vp < v ==> UserPage(h'.m, s, vp) == ZeroPage() && UserEntry(Pte(h'.m, s, vp), Pte(h'.m, s, vp) / PGSIZE)
    ensures !(lo <= vp < v) ==> UserPage(h'.m, s, vp) == UserPage(h.m, s, vp) && Pte(h'.m, s, vp) == Pte(h.m, s, vp)
  {
    hide Sound, Pte, Node, UserEntry;
    if lo <= vp < v {
      assert FreshPage(h, h'.m, s, vp);
      FreshPresent(h, h'.m, s, vp);
    } else if Present(Pte(h.m, s, vp)) {
      PteIsEntry(h.m, s, vp);
      LeafThere(h, s, vp);
      assert SameNode(h.m, h'.m, s, LeafAt(vp));
    }
  }

  lemma LeafThere(h: Phys, s: nat, vp: nat)
    requires Sound(h) && s in h.dirs && vp < KERNPAGE && Present(Pte(h.m, s, vp))
    ensures 0 < Node(h.m, s, LeafAt(vp)) < |h.m|
  {
    PteIsEntry(h.m, s, vp);
    assert InUse(h, s, LeafAt(vp));
  }

  /** Shrunk memory: every page below the new size reads as before. */
  lemma ShrinkReads(h: Phys, h': Phys, s: nat, a0: nat, a: nat, vp: nat)
    requires Shrunk(h, h', s, a0, a) && vp < a0 && vp < KERNPAGE
    ensures UserPage(h'.m, s, vp) == UserPage(h.m, s, vp) && Pte(h'.m, s, vp) == Pte(h.m, s, vp)
  {
    hide Sound, Pte, Node, GoneFrames;
    assert EntryAfter(h.m, h'.m, s, a0, a, vp);
    if Present(Pte(h.m, s, vp)) {
      PteIsEntry(h.m, s, vp);
      LeafThere(h, s, vp);
    }
  }
}
