/** What deallocuvm and freevm give back (src/vm.c:250-292). */
module VmShrink {
  import opened PageTree
  import opened VmSpec

  /** kfree of a frame in hand: it is free again, and no address space has changed. */
  lemma FreeLoose(h: Phys, b: nat)
    requires Sound(h) && Loose(h, b)
    ensures var h' := Phys(h.m[b := JunkPage()], h.dirs, h.free + {b});
            Sound(h') && LooseBut(h, h', {b}) && NoLeak(h, h', {}) && !Loose(h', b)
            && (forall u, p :: u in h.dirs && OkPos(p) ==> SameNode(h.m, h'.m, u, p))
            && (forall u, vp :: u in h.dirs && 0 <= vp < NVP ==> Pte(h'.m, u, vp) == Pte(h.m, u, vp))
  {
    hide JunkPage;
    var m' := h.m[b := JunkPage()];
    assert TablesKept(h, m');
    forall u, p | u in h.dirs && OkPos(p) && Node(h.m, u, p) != 0 ensures Node(h.m, u, p) !in h.free + {b} {
      assert InUse(h, u, p);
    }
    TablesKeepSound(h, m', h.free + {b});
    hide Node;
    forall u, vp | u in h.dirs && 0 <= vp < NVP ensures Pte(m', u, vp) == Pte(h.m, u, vp) {
      assert Node(h.m, u, Tab(vp / NPT)) != b;
    }
  }

  /**
   The pages deallocuvm jumps over.  A missing page table makes the loop advance by a whole
   table from where it is; starting at a0 inside a missing table, it lands at the same offset
   of the next table, and so passes the pages below that offset in the first table it meets.
   */
  ghost predicate Skipped(m: Memory, s: nat, a0: nat, vp: nat)
    requires vp < KERNPAGE
  {
    && vp % NPT < a0 % NPT && a0 / NPT < vp / NPT
    && forall t :: a0 / NPT <= t < vp / NPT ==> Node(m, s, Tab(t)) == 0
  }

  /** Page vp, mapped in m, has been removed by the loop from a0 up to a. */
  ghost predicate Gone(m: Memory, s: nat, a0: nat, a: nat, vp: nat)
    requires vp < NVP
  {
    a0 <= vp < a && vp < KERNPAGE && Present(Pte(m, s, vp)) && !Skipped(m, s, a0, vp)
  }

  ghost predicate GoneFrame(m: Memory, s: nat, a0: nat, a: nat, f: nat) {
    exists vp :: 0 <= vp < KERNPAGE && Gone(m, s, a0, a, vp) && Node(m, s, LeafAt(vp)) == f
  }

  ghost function GoneFrames(m: Memory, s: nat, a0: nat, a: nat): (r: set<nat>)
    ensures forall f: nat :: f in r <==> f < |m| && GoneFrame(m, s, a0, a, f)
  {
    set f: nat | f < |m| && GoneFrame(m, s, a0, a, f)
  }

  /** Page vp at that point: removed, or as it was with its contents. */
  ghost predicate EntryAfter(m: Memory, m': Memory, s: nat, a0: nat, a: nat, vp: nat)
    requires vp < NVP
  {
    && Pte(m', s, vp) == (if Gone(m, s, a0, a, vp) then 0 else Pte(m, s, vp))
    && (vp < KERNPAGE && !Gone(m, s, a0, a, vp) ==> SameNode(m, m', s, LeafAt(vp)))
  }

  /** The state of the loop at a: exactly the pages removed so far are gone, and their frames are free. */
  ghost predicate Shrunk(h: Phys, h': Phys, s: nat, a0: nat, a: nat) {
    && Sound(h) && s in h.dirs && Sound(h') && OthersKept(h, h', s) && LooseBut(h, h', {}) && NoLeak(h, h', {})
    && (forall i :: 0 <= i < NPT ==> Node(h'.m, s, Tab(i)) == Node(h.m, s, Tab(i)))
    && (forall vp :: 0 <= vp < NVP ==> EntryAfter(h.m, h'.m, s, a0, a, vp))
    && h'.free == h.free + GoneFrames(h.m, s, a0, a)
  }

  lemma ShrunkStart(h: Phys, s: nat, a0: nat)
    requires Sound(h) && s in h.dirs
    ensures Shrunk(h, h, s, a0, a0)
  {
    hide Node, Sound;
    assert GoneFrames(h.m, s, a0, a0) == {};
  }

  /** Pages that are not mapped, or are jumped over, cost nothing. */
  lemma ShrunkOver(h: Phys, h': Phys, s: nat, a0: nat, a: nat, a': nat)
    requires Shrunk(h, h', s, a0, a) && a <= a'
    requires forall vp :: a <= vp < a' && vp < NVP ==> !Gone(h.m, s, a0, a', vp)
    ensures Shrunk(h, h', s, a0, a')
  {
    hide Node, Sound, Skipped, Present, LooseBut, OthersKept;
    assert forall vp :: 0 <= vp < NVP ==> Gone(h.m, s, a0, a', vp) == Gone(h.m, s, a0, a, vp);
    forall vp | 0 <= vp < NVP ensures EntryAfter(h.m, h'.m, s, a0, a', vp) {
      assert EntryAfter(h.m, h'.m, s, a0, a, vp);
    }
    assert GoneFrames(h.m, s, a0, a') == GoneFrames(h.m, s, a0, a);
  }

  /** What one removal does: *pte = 0, and the frame goes back on the free list. */
  ghost function Removed(h: Phys, s: nat, vp: nat): (r: Phys)
    requires vp < KERNPAGE && Node(h.m, s, Tab(vp / NPT)) < |h.m| && Node(h.m, s, LeafAt(vp)) < |h.m|
  {
    var f := Node(h.m, s, LeafAt(vp));
    Phys(PutPte(h.m, s, vp, 0)[f := JunkPage()], h.dirs, h.free + {f})
  }

  /** The page is mapped: its table and its frame are there. */
  ghost predicate Holds(h: Phys, s: nat, vp: nat) {
    && Sound(h) && s in h.dirs && vp < KERNPAGE && Present(Pte(h.m, s, vp))
    && 0 < Node(h.m, s, Tab(vp / NPT)) < |h.m| && 0 < Node(h.m, s, LeafAt(vp)) < |h.m|
    && Node(h.m, s, LeafAt(vp)) == Pte(h.m, s, vp) / PGSIZE
  }

  lemma PresentHolds(h: Phys, s: nat, vp: nat)
    requires Sound(h) && s in h.dirs && vp < KERNPAGE && Present(Pte(h.m, s, vp))
    ensures Holds(h, s, vp)
  {
    PteIsEntry(h.m, s, vp);
    assert InUse(h, s, Tab(vp / NPT)) && InUse(h, s, LeafAt(vp));
  }

  lemma RemovedState(h: Phys, s: nat, vp: nat)
    requires Holds(h, s, vp)
    ensures var h' := Removed(h, s, vp);
            Sound(h') && OthersKept(h, h', s) && LooseBut(h, h', {}) && NoLeak(h, h', {})
            && (forall i :: 0 <= i < NPT ==> Node(h'.m, s, Tab(i)) == Node(h.m, s, Tab(i)))
            && (forall vq :: 0 <= vq < NVP ==> Pte(h'.m, s, vq) == if vq == vp then 0 else Pte(h.m, s, vq))
            && (forall vq :: 0 <= vq < KERNPAGE && vq != vp ==> SameNode(h.m, h'.m, s, LeafAt(vq)))
  {
    hide Node, JunkPage, PutPte, Pte, Present;
    var f, m1 := Node(h.m, s, LeafAt(vp)), PutPte(h.m, s, vp, 0);
    var h1, h' := h.(m := m1), Removed(h, s, vp);
    NothingPresent();
    PutSound(h, s, vp, 0);
    PutOthers(h, s, vp, 0);
    PutEntries(h, s, vp, 0);
    ClearLoose(h, s, vp);
    PutNoLeak(h, s, vp, 0);
    FreeLoose(h1, f);
    forall u, p | u in h.dirs && u != s && OkPos(p) ensures SameNode(h.m, h'.m, u, p) {
      assert SameNode(h.m, m1, u, p) && SameNode(m1, h'.m, u, p);
    }
    forall vq | 0 <= vq < KERNPAGE && vq != vp ensures SameNode(h.m, h'.m, s, LeafAt(vq)) {
      PutPage(h, s, vp, 0, vq);
      assert SameNode(m1, h'.m, s, LeafAt(vq));
    }
    forall i | 0 <= i < NPT ensures Node(h'.m, s, Tab(i)) == Node(h.m, s, Tab(i)) {
      assert SameNode(m1, h'.m, s, Tab(i));
    }
    forall c: nat | Loose(h, c) ensures Loose(h', c) && h'.m[c] == h.m[c] {
      assert Node(h.m, s, LeafAt(vp)) != c;
      PutLoose(h, s, vp, 0, c);
    }
  }

  lemma NothingPresent()
    ensures !Present(0) && Target(0) == 0
  {
  }

  lemma ShrunkNext(h: Phys, h1: Phys, s: nat, a0: nat, a: nat)
    requires Shrunk(h, h1, s, a0, a) && a0 <= a < KERNPAGE && !Skipped(h.m, s, a0, a) && Holds(h1, s, a)
    ensures Shrunk(h, Removed(h1, s, a), s, a0, a + 1)
  {
    hide Node, Skipped, JunkPage, PutPte, Present, Pte, Removed, SameNode, Loose, Sound, Gone, GoneFrames;
    var h2 := Removed(h1, s, a);
    RemovedState(h1, s, a);
    OthersKeptThen(h, h1, h2, s);
    StillThere(h, h1, s, a0, a);
    var a1 := a + 1;
    forall vp | 0 <= vp < NVP ensures EntryAfter(h.m, h2.m, s, a0, a1, vp) {
      EntryNext(h.m, h1.m, h2.m, s, a0, a, vp);
    }
    RemovedFree(h1, s, a);
    FreedFrames(h, h1, h2, s, a0, a);
  }

  lemma RemovedFree(h: Phys, s: nat, vp: nat)
    requires Holds(h, s, vp)
    ensures Removed(h, s, vp).free == h.free + {Node(h.m, s, LeafAt(vp))}
  {
  }

  /** A page still mapped at its turn was mapped at the start. */
  lemma StillThere(h: Phys, h1: Phys, s: nat, a0: nat, a: nat)
    requires Shrunk(h, h1, s, a0, a) && a0 <= a < KERNPAGE && !Skipped(h.m, s, a0, a) && Holds(h1, s, a)
    ensures Gone(h.m, s, a0, a + 1, a)
  {
    hide Sound, OthersKept, LooseBut, Node, Skipped;
    assert EntryAfter(h.m, h1.m, s, a0, a, a);
  }

  lemma EntryNext(m: Memory, m1: Memory, m2: Memory, s: nat, a0: nat, a: nat, vp: nat)
    requires vp < NVP && a < KERNPAGE && EntryAfter(m, m1, s, a0, a, vp) && Gone(m, s, a0, a + 1, a) && |m| == |m1| == |m2|
    requires Pte(m2, s, vp) == if vp == a then 0 else Pte(m1, s, vp)
    requires vp < KERNPAGE && vp != a ==> SameNode(m1, m2, s, LeafAt(vp))
    ensures EntryAfter(m, m2, s, a0, a + 1, vp)
  {
    hide Node, Skipped, Pte, Present;
  }

  lemma FreedFrames(h: Phys, h1: Phys, h2: Phys, s: nat, a0: nat, a: nat)
    requires Shrunk(h, h1, s, a0, a) && a0 <= a < KERNPAGE && Gone(h.m, s, a0, a + 1, a) && Holds(h1, s, a)
    requires h2.free == h1.free + {Node(h1.m, s, LeafAt(a))} && |h1.m| == |h.m|
    ensures h2.free == h.free + GoneFrames(h.m, s, a0, a + 1)
  {
    hide Node, Skipped, Present, Pte, Sound, LooseBut, OthersKept;
    var f := Node(h1.m, s, LeafAt(a));
    assert EntryAfter(h.m, h1.m, s, a0, a, a);
    forall g: nat ensures GoneFrame(h.m, s, a0, a + 1, g) <==> GoneFrame(h.m, s, a0, a, g) || g == f {
      if GoneFrame(h.m, s, a0, a + 1, g) {
        var vp :| 0 <= vp < KERNPAGE && Gone(h.m, s, a0, a + 1, vp) && Node(h.m, s, LeafAt(vp)) == g;
        assert vp != a ==> Gone(h.m, s, a0, a, vp);
      }
      if g == f {
        assert Gone(h.m, s, a0, a + 1, a) && Node(h.m, s, LeafAt(a)) == g;
      }
      if GoneFrame(h.m, s, a0, a, g) {
        var vp :| 0 <= vp < KERNPAGE && Gone(h.m, s, a0, a, vp) && Node(h.m, s, LeafAt(vp)) == g;
        assert Gone(h.m, s, a0, a + 1, vp);
      }
    }
  }

  // The walk

  ghost predicate AllMissing(m: Memory, s: nat, lo: nat, hi: nat) {
    forall t :: lo <= t < hi && t < NPT ==> Node(m, s, Tab(t)) == 0
  }

  /** Where the loop of deallocuvm can be, having started at a0. */
  ghost predicate Cursor(m: Memory, s: nat, a0: nat, v: nat) {
    a0 <= v && (v < KERNPAGE ==>
      || (v % NPT == a0 % NPT && AllMissing(m, s, a0 / NPT, v / NPT))
      || (v % NPT >= a0 % NPT && Node(m, s, Tab(v / NPT)) != 0)
      || (!AllMissing(m, s, a0 / NPT, v / NPT) && (Node(m, s, Tab(v / NPT)) == 0 ==> v % NPT == 0)))
  }

  lemma CursorStep(m: Memory, s: nat, a0: nat, v: nat)
    requires Cursor(m, s, a0, v) && v < KERNPAGE && Node(m, s, Tab(v / NPT)) != 0
    ensures Cursor(m, s, a0, v + 1) && !Skipped(m, s, a0, v)
  {
    hide Node;
    if v % NPT == NPT - 1 {
      assert (v + 1) % NPT == 0 && (v + 1) / NPT == v / NPT + 1;
      assert !AllMissing(m, s, a0 / NPT, v / NPT + 1);
    } else {
      assert (v + 1) % NPT == v % NPT + 1 && (v + 1) / NPT == v / NPT;
    }
  }

  lemma CursorJump(m: Memory, s: nat, a0: nat, v: nat, vp: nat)
    requires Cursor(m, s, a0, v) && v < KERNPAGE && Node(m, s, Tab(v / NPT)) == 0
    ensures Cursor(m, s, a0, v + NPT)
    ensures v <= vp < v + NPT && vp < KERNPAGE && Present(Pte(m, s, vp)) ==> Skipped(m, s, a0, vp)
  {
    assert (v + NPT) / NPT == v / NPT + 1 && (v + NPT) % NPT == v % NPT;
    hide Node;
    if v <= vp < v + NPT && vp < KERNPAGE && vp / NPT != v / NPT {
      assert vp / NPT == v / NPT + 1 && vp % NPT < v % NPT;
    }
  }

  lemma JumpOver(h: Phys, h': Phys, s: nat, a0: nat, v: nat, end: nat)
    requires Shrunk(h, h', s, a0, v) && Cursor(h.m, s, a0, v) && v < KERNPAGE && Node(h.m, s, Tab(v / NPT)) == 0 && v <= end
    ensures Cursor(h.m, s, a0, v + NPT)
    ensures Shrunk(h, h', s, a0, if v + NPT < end then v + NPT else end)
  {
    hide Node, Skipped, Cursor, Present, Sound, Pte, Shrunk;
    var next := if v + NPT < end then v + NPT else end;
    CursorJump(h.m, s, a0, v, v);
    forall vp | v <= vp < next && vp < NVP ensures !Gone(h.m, s, a0, next, vp) {
      CursorJump(h.m, s, a0, v, vp);
    }
    ShrunkOver(h, h', s, a0, v, next);
  }

  // Consequences

  /** Contiguous user memory: exactly the pages below n are mapped. */
  ghost predicate Contiguous(m: Memory, s: nat, n: nat) {
    forall vp :: 0 <= vp < KERNPAGE ==> (Present(Pte(m, s, vp)) <==> vp < n)
  }

  /** A page table missing at a0 means nothing is mapped from there on. */
  lemma ContiguousSkipsNothing(m: Memory, s: nat, n: nat, a0: nat, vp: nat)
    requires Contiguous(m, s, n) && vp < KERNPAGE && Present(Pte(m, s, vp))
    ensures !Skipped(m, s, a0, vp)
  {
    if a0 / NPT < vp / NPT {
      var t := a0 / NPT;
      assert t * NPT < vp;
      assert Present(Pte(m, s, t * NPT));
      assert Node(m, s, Tab(t)) != 0;
    }
  }

  /** deallocuvm of contiguous memory leaves exactly the pages below the new size. */
  lemma ContiguousShrinks(h: Phys, h': Phys, s: nat, n: nat, a0: nat, end: nat)
    requires Shrunk(h, h', s, a0, end) && Contiguous(h.m, s, n) && n <= end && n <= KERNPAGE
    ensures Contiguous(h'.m, s, if a0 < n then a0 else n)
  {
    hide Skipped, Pte, Sound, LooseBut, OthersKept;
    NothingPresent();
    forall vp | 0 <= vp < KERNPAGE ensures Present(Pte(h'.m, s, vp)) <==> vp < (if a0 < n then a0 else n) {
      assert EntryAfter(h.m, h'.m, s, a0, end, vp);
      if Present(Pte(h.m, s, vp)) {
        ContiguousSkipsNothing(h.m, s, n, a0, vp);
      }
    }
  }

  /** The exact condition: every mapped page from a0 up to end is removed unless one of them is jumped over. */
  lemma RemovesAllIff(h: Phys, h': Phys, s: nat, a0: nat, end: nat)
    requires Shrunk(h, h', s, a0, end) && end <= KERNPAGE
    ensures (forall vp :: a0 <= vp < end ==> !Present(Pte(h'.m, s, vp)))
            <==> (forall vp :: a0 <= vp < end && Present(Pte(h.m, s, vp)) ==> !Skipped(h.m, s, a0, vp))
  {
    hide Skipped, Pte, Sound, LooseBut, OthersKept;
    NothingPresent();
    forall vp | a0 <= vp < end ensures Present(Pte(h'.m, s, vp)) <==> Present(Pte(h.m, s, vp)) && Skipped(h.m, s, a0, vp) {
      assert EntryAfter(h.m, h'.m, s, a0, end, vp);
    }
  }

  /** From the start of a page table nothing is ever jumped over: freevm reaches every page. */
  lemma AlignedSkipsNothing(m: Memory, s: nat, a0: nat, vp: nat)
    requires a0 % NPT == 0 && vp < KERNPAGE
    ensures !Skipped(m, s, a0, vp)
  {
  }

  // Giving up a whole space

  ghost predicate Owns(m: Memory, s: nat, f: nat) {
    f != 0 && exists p :: OkPos(p) && Node(m, s, p) == f
  }

  /** Without its directory a space is no more: its frames are in hand, and the other spaces are as they were. */
  lemma DropSpace(h: Phys, s: nat)
    requires Sound(h) && s in h.dirs
    ensures Sound(h.(dirs := h.dirs - {s}))
    ensures forall f: nat :: Owns(h.m, s, f) ==> Loose(h.(dirs := h.dirs - {s}), f)
    ensures forall c: nat :: Loose(h, c) ==> Loose(h.(dirs := h.dirs - {s}), c)
    ensures forall c: nat :: Loose(h.(dirs := h.dirs - {s}), c) ==> Loose(h, c) || Owns(h.m, s, c)
  {
    var h' := h.(dirs := h.dirs - {s});
    hide Node, EntryOf;
    forall u, p | u in h'.dirs && OkPos(p) ensures InUse(h', u, p) {
      assert InUse(h, u, p);
    }
    forall t, p, u, q | t in h'.dirs && u in h'.dirs && OkPos(p) && OkPos(q) ensures Apart(h', t, p, u, q) {
      assert Apart(h, t, p, u, q);
    }
    forall f: nat | Owns(h.m, s, f) ensures Loose(h', f) {
      var p :| OkPos(p) && Node(h.m, s, p) == f;
      assert InUse(h, s, p);
      forall u, q | u in h'.dirs && OkPos(q) ensures Node(h.m, u, q) != f {
        assert Apart(h, s, p, u, q);
      }
    }
  }

  /** After the walk of freevm no user page is mapped. */
  lemma NoPageLeft(h: Phys, h1: Phys, s: nat, vp: nat)
    requires Shrunk(h, h1, s, 0, KERNPAGE) && vp < KERNPAGE
    ensures Node(h1.m, s, LeafAt(vp)) == 0
  {
    hide LooseBut, OthersKept, Skipped, Node, Pte, Sound, NoLeak, SameNode, GoneFrames;
    assert EntryAfter(h.m, h1.m, s, 0, KERNPAGE, vp);
    AlignedSkipsNothing(h.m, s, 0, vp);
    NothingPresent();
    PteIsEntry(h1.m, s, vp);
  }

  /** With every page gone a space owns its directory and its page tables only. */
  lemma OwnsTables(h: Phys, h1: Phys, s: nat, c: nat)
    requires Shrunk(h, h1, s, 0, KERNPAGE) && Owns(h1.m, s, c)
    ensures c == s || (c < |h1.m| && TabFrame(h1.m, s, NPT, c))
  {
    hide Shrunk, Node, Sound;
    assert Sound(h1) && s in h1.dirs by { ShrunkSound(h, h1, s, 0, KERNPAGE); }
    DirIs(h1, s);
    var p :| OkPos(p) && Node(h1.m, s, p) == c;
    if p.Leaf? {
      var vp := p.i * NPT + p.j;
      assert LeafAt(vp) == p;
      NoPageLeft(h, h1, s, vp);
    } else if p.Tab? {
      TabInside(h1, s, p.i);
      assert Node(h1.m, s, Tab(p.i)) == c;
    }
  }

  lemma ShrunkSound(h: Phys, h1: Phys, s: nat, a0: nat, a: nat)
    requires Shrunk(h, h1, s, a0, a)
    ensures Sound(h1) && s in h1.dirs && h1.dirs == h.dirs && NoLeak(h, h1, {})
  {
    hide Sound, NoLeak;
  }

  lemma TabInside(h: Phys, s: nat, i: nat)
    requires Sound(h) && s in h.dirs && i < NPT
    ensures Node(h.m, s, Tab(i)) < |h.m| || Node(h.m, s, Tab(i)) == 0
  {
    assert InUse(h, s, Tab(i));
  }

  /** A zeroed page in hand is the directory of a new, empty space. */
  lemma AddSpace(h: Phys, d: nat)
    requires Sound(h) && Loose(h, d) && h.m[d] == ZeroPage()
    ensures Sound(h.(dirs := h.dirs + {d})) && d !in h.dirs
    ensures forall p :: OkPos(p) ==> Node(h.m, d, p) == if p == Dir then d else 0
    ensures forall vp :: 0 <= vp < NVP ==> Pte(h.m, d, vp) == 0
    ensures forall c: nat :: Loose(h, c) && c != d ==> Loose(h.(dirs := h.dirs + {d}), c)
  {
    var h' := h.(dirs := h.dirs + {d});
    forall p | OkPos(p) ensures Node(h.m, d, p) == if p == Dir then d else 0 {
      EmptyNode(h.m, d, p);
    }
    assert Node(h.m, d, Dir) == d;
    forall p | OkPos(p) && !p.Dir? ensures !Present(EntryOf(h.m, d, p)) {
      EmptyNode(h.m, d, ParentOf(p));
    }
    hide Node, EntryOf;
    forall u, p | u in h'.dirs && OkPos(p) ensures InUse(h', u, p) {
      assert u in h.dirs ==> InUse(h, u, p);
    }
    forall t, p, u, q | t in h'.dirs && u in h'.dirs && OkPos(p) && OkPos(q) ensures Apart(h', t, p, u, q) {
      assert t in h.dirs && u in h.dirs ==> Apart(h, t, p, u, q);
    }
  }

  lemma EmptyNode(m: Memory, d: nat, p: Pos)
    requires 0 < d < |m| && m[d] == ZeroPage() && OkPos(p)
    ensures Node(m, d, p) == if p == Dir then d else 0
  {
  }

  // freevm

  /** Every node of the spaces in D is the same frame with the same contents. */
  ghost predicate SpacesKept(m: Memory, m': Memory, D: set<nat>) {
    |m'| == |m| && forall u, p :: u in D && OkPos(p) ==> SameNode(m, m', u, p)
  }

  lemma SpacesKeptThen(m: Memory, m1: Memory, m2: Memory, D: set<nat>)
    requires SpacesKept(m, m1, D) && SpacesKept(m1, m2, D)
    ensures SpacesKept(m, m2, D)
  {
    hide Node;
    forall u, p | u in D && OkPos(p) ensures SameNode(m, m2, u, p) {
      assert SameNode(m, m1, u, p) && SameNode(m1, m2, u, p);
    }
  }

  ghost predicate TabFrame(m: Memory, s: nat, n: nat, f: nat)
    requires n <= NPT
  {
    f != 0 && exists i: nat :: i < n && Node(m, s, Tab(i)) == f
  }

  /** The page-table frames at the first n indices. */
  ghost function TabFrames(m: Memory, s: nat, n: nat): (r: set<nat>)
    requires n <= NPT
    ensures forall f: nat :: f in r <==> f < |m| && TabFrame(m, s, n, f)
  {
    set f: nat | f < |m| && TabFrame(m, s, n, f)
  }

  /** freevm's loop after n directory entries: their page tables are free, the rest of the space is in hand. */
  ghost predicate Freeing(h: Phys, h': Phys, s: nat, n: nat) {
    && Sound(h) && s in h.dirs && n <= NPT
    && Sound(h') && h'.dirs == h.dirs - {s} && SpacesKept(h.m, h'.m, h'.dirs)
    && h'.free == h.free + TabFrames(h.m, s, n)
    && Loose(h', s) && h'.m[s] == h.m[s]
    && (forall i :: n <= i < NPT && Node(h.m, s, Tab(i)) != 0 ==> Loose(h', Node(h.m, s, Tab(i))))
    && (forall c: nat :: Loose(h, c) ==> Loose(h', c) && h'.m[c] == h.m[c])
    && (forall c: nat :: Loose(h', c) ==> Loose(h, c) || Owns(h.m, s, c))
  }

  lemma FreeingStart(h: Phys, s: nat)
    requires Sound(h) && s in h.dirs
    ensures Freeing(h, h.(dirs := h.dirs - {s}), s, 0)
  {
    DropSpace(h, s);
    hide Node, Sound, Loose;
    assert Owns(h.m, s, Node(h.m, s, Dir)) by { assert h.dirs == h.dirs; DirIs(h, s); }
    DirIs(h, s);
    forall i | 0 <= i < NPT && Node(h.m, s, Tab(i)) != 0 ensures Owns(h.m, s, Node(h.m, s, Tab(i))) {
    }
    assert TabFrames(h.m, s, 0) == {};
  }

  lemma DirIs(h: Phys, s: nat)
    requires Sound(h) && s in h.dirs
    ensures Node(h.m, s, Dir) == s && 0 < s < |h.m|
  {
    assert InUse(h, s, Dir);
  }

  lemma FreeingNext(h: Phys, h1: Phys, s: nat, n: nat)
    requires Freeing(h, h1, s, n) && n < NPT
    ensures var f := Node(h.m, s, Tab(n));
            if f == 0 then Freeing(h, h1, s, n + 1)
            else 0 < f < |h1.m| && f !in h1.free && Freeing(h, Phys(h1.m[f := JunkPage()], h1.dirs, h1.free + {f}), s, n + 1)
  {
    hide Node, Sound, JunkPage, Loose, Owns;
    var f := Node(h.m, s, Tab(n));
    NextTab(h.m, s, n);
    if f != 0 {
      LooseFacts(h1, f);
      FreeLoose(h1, f);
      var h2 := Phys(h1.m[f := JunkPage()], h1.dirs, h1.free + {f});
      SpacesKeptThen(h.m, h1.m, h2.m, h2.dirs);
      TabsDiffer(h, s, n);
      assert h2.free == h.free + TabFrames(h.m, s, n + 1);
    } else {
      assert TabFrames(h.m, s, n + 1) == TabFrames(h.m, s, n);
    }
  }

  lemma LooseFacts(h: Phys, b: nat)
    requires Loose(h, b)
    ensures 0 < b < |h.m| && b !in h.free
  {
  }

  lemma NextTab(m: Memory, s: nat, n: nat)
    requires n < NPT
    ensures forall f: nat :: TabFrame(m, s, n + 1, f) <==> TabFrame(m, s, n, f) || (f != 0 && f == Node(m, s, Tab(n)))
  {
    hide Node;
    forall f: nat ensures TabFrame(m, s, n + 1, f) <==> TabFrame(m, s, n, f) || (f != 0 && f == Node(m, s, Tab(n))) {
      if TabFrame(m, s, n, f) {
        var i: nat :| i < n && Node(m, s, Tab(i)) == f;
        assert i < n + 1;
      }
      if f != 0 && f == Node(m, s, Tab(n)) {
        assert n < n + 1;
      }
    }
  }

  /** The table at n is no other page table, nor the directory, nor a frame in hand. */
  lemma TabsDiffer(h: Phys, s: nat, n: nat)
    requires Sound(h) && s in h.dirs && n < NPT && Node(h.m, s, Tab(n)) != 0
    ensures Node(h.m, s, Tab(n)) != s && !Loose(h, Node(h.m, s, Tab(n)))
    ensures forall i :: n < i < NPT ==> Node(h.m, s, Tab(i)) != Node(h.m, s, Tab(n))
  {
    assert Apart(h, s, Tab(n), s, Dir);
    forall i | n < i < NPT ensures Node(h.m, s, Tab(i)) != Node(h.m, s, Tab(n)) {
      assert Apart(h, s, Tab(n), s, Tab(i));
    }
  }

  /** The frames of a space are its directory, its page tables and its pages. */
  ghost function OwnedFrames(m: Memory, s: nat): (r: set<nat>)
    ensures forall f: nat :: f in r <==> f < |m| && Owns(m, s, f)
  {
    set f: nat | f < |m| && Owns(m, s, f)
  }

  lemma SameTabFrames(m: Memory, m': Memory, s: nat)
    requires |m'| == |m| && forall i :: 0 <= i < NPT ==> Node(m', s, Tab(i)) == Node(m, s, Tab(i))
    ensures TabFrames(m', s, NPT) == TabFrames(m, s, NPT)
  {
    hide Node;
    forall f: nat ensures TabFrame(m', s, NPT, f) <==> TabFrame(m, s, NPT, f) {
      if TabFrame(m, s, NPT, f) {
        var i: nat :| i < NPT && Node(m, s, Tab(i)) == f;
        assert Node(m', s, Tab(i)) == f;
      }
    }
  }

  lemma AllFrames(h: Phys, h1: Phys, s: nat)
    requires Shrunk(h, h1, s, 0, KERNPAGE)
    ensures OwnedFrames(h.m, s) == GoneFrames(h.m, s, 0, KERNPAGE) + TabFrames(h1.m, s, NPT) + {s}
  {
    hide LooseBut, EntryAfter, Node, Sound, GoneFrame, TabFrame, Owns;
    DirIs(h, s);
    SameTabFrames(h.m, h1.m, s);
    forall f: nat | f < |h.m| ensures Owns(h.m, s, f) <==> GoneFrame(h.m, s, 0, KERNPAGE, f) || TabFrame(h.m, s, NPT, f) || f == s {
      FrameKinds(h, s, f);
    }
  }

  lemma FrameKinds(h: Phys, s: nat, f: nat)
    requires Sound(h) && s in h.dirs
    ensures Owns(h.m, s, f) <==> GoneFrame(h.m, s, 0, KERNPAGE, f) || TabFrame(h.m, s, NPT, f) || f == s
  {
    hide Node, Skipped, Pte, Present;
    DirIs(h, s);
    if Owns(h.m, s, f) {
      var p :| OkPos(p) && Node(h.m, s, p) == f;
      if p.Tab? {
        assert Node(h.m, s, Tab(p.i)) == f;
      } else if p.Leaf? {
        var vp := p.i * NPT + p.j;
        assert LeafAt(vp) == p;
        LeafPresent(h.m, s, vp);
        AlignedSkipsNothing(h.m, s, 0, vp);
        assert Gone(h.m, s, 0, KERNPAGE, vp);
      }
    }
    if GoneFrame(h.m, s, 0, KERNPAGE, f) {
      var vp :| 0 <= vp < KERNPAGE && Gone(h.m, s, 0, KERNPAGE, vp) && Node(h.m, s, LeafAt(vp)) == f;
      PresentHolds(h, s, vp);
    }
    if f == s {
      assert Node(h.m, s, Dir) == f;
    }
    if TabFrame(h.m, s, NPT, f) {
      var i: nat :| i < NPT && Node(h.m, s, Tab(i)) == f;
      assert OkPos(Tab(i));
    }
  }

  lemma LeafPresent(m: Memory, s: nat, vp: nat)
    requires vp < KERNPAGE && Node(m, s, LeafAt(vp)) != 0
    ensures Present(Pte(m, s, vp))
  {
    PteIsEntry(m, s, vp);
  }
}
