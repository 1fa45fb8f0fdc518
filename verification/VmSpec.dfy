/** What the operations of src/vm.c mean for page-table entries and page contents. */
module VmSpec {
  import opened PageTree

  const NVP: nat := NPT * NPT
  const KERNPAGE: nat := UPD * NPT
  const PTE_W: nat := 2
  const PTE_U: nat := 4

  /** The entry for virtual page vp, 0 if its page table is absent. */
  /** The entry leads to frame b with the present, write and user bits set: 1, 2 and 4. */
  predicate UserEntry(w: Word, b: nat) {
    w / 4096 == b && w % 2 == 1 && w / 2 % 2 == 1 && w / 4 % 2 == 1
  }

  function Pte(m: Memory, s: nat, vp: nat): (w: Word)
    requires vp < NVP
  {
    var t := Node(m, s, Tab(vp / NPT));
    if 0 < t < |m| then m[t].at[vp % NPT] else 0
  }

  function LeafAt(vp: nat): (p: Pos)
    requires vp < KERNPAGE
    ensures OkPos(p) && p.Leaf?
  {
    Leaf(vp / NPT, vp % NPT)
  }

  /** Below KERNBASE the entries are those of the tree. */
  lemma PteIsEntry(m: Memory, s: nat, vp: nat)
    requires vp < KERNPAGE
    ensures Pte(m, s, vp) == EntryOf(m, s, LeafAt(vp))
    ensures Node(m, s, LeafAt(vp)) == Target(Pte(m, s, vp))
  {
  }

  lemma SameSlot(vp: nat, vq: nat)
    requires vp / NPT == vq / NPT && vp % NPT == vq % NPT
    ensures vp == vq
  {
  }

  /** Every node of every other space is the same frame with the same contents. */
  ghost predicate OthersKept(h: Phys, h': Phys, s: nat) {
    && |h'.m| == |h.m| && h'.dirs == h.dirs
    && forall u, p :: u in h.dirs && u != s && OkPos(p) ==> SameNode(h.m, h'.m, u, p)
  }

  ghost predicate SameNode(m: Memory, m': Memory, u: nat, p: Pos)
    requires OkPos(p)
  {
    Node(m', u, p) == Node(m, u, p) && (0 < Node(m, u, p) < |m| == |m'| ==> m'[Node(m, u, p)] == m[Node(m, u, p)])
  }

  lemma OthersKeptThen(h: Phys, h1: Phys, h2: Phys, s: nat)
    requires OthersKept(h, h1, s) && OthersKept(h1, h2, s)
    ensures OthersKept(h, h2, s)
  {
    hide Node;
    forall u, p | u in h.dirs && u != s && OkPos(p) ensures SameNode(h.m, h2.m, u, p) {
      assert SameNode(h.m, h1.m, u, p) && SameNode(h1.m, h2.m, u, p);
    }
  }

  /** The page tables of space s are where they were, or are new. */
  ghost predicate TabsKept(h: Phys, h': Phys, s: nat) {
    forall i :: 0 <= i < NPT && Node(h.m, s, Tab(i)) != 0 ==> Node(h'.m, s, Tab(i)) == Node(h.m, s, Tab(i))
  }

  /** Every mapped user page of s stays mapped, to the same frame with the same contents. */
  ghost predicate PagesStay(h: Phys, h': Phys, s: nat) {
    |h'.m| == |h.m|
    && forall vp :: 0 <= vp < KERNPAGE && Node(h.m, s, LeafAt(vp)) != 0 ==> SameNode(h.m, h'.m, s, LeafAt(vp))
  }

  /** Frames in hand, other than X, stay in hand and keep their contents. */
  ghost predicate LooseBut(h: Phys, h': Phys, X: set<nat>) {
    |h'.m| == |h.m|
    && forall c: nat :: Loose(h, c) && c !in X ==> Loose(h', c) && h'.m[c] == h.m[c]
  }

  /** Every frame in hand was in hand before, or is in X: none is lost. */
  ghost predicate NoLeak(h: Phys, h': Phys, X: set<nat>) {
    forall c: nat :: Loose(h', c) ==> Loose(h, c) || c in X
  }

  lemma NoLeakThen(h: Phys, h1: Phys, h2: Phys, X: set<nat>, Y: set<nat>)
    requires NoLeak(h, h1, X) && NoLeak(h1, h2, Y)
    ensures NoLeak(h, h2, X + Y)
  {
    hide Loose;
  }

  /** What the growing operations on space s keep: everything that was there. */
  ghost predicate Step(h: Phys, h': Phys, s: nat, X: set<nat>) {
    && Sound(h') && OthersKept(h, h', s) && TabsKept(h, h', s) && PagesStay(h, h', s) && LooseBut(h, h', X)
    && h'.free <= h.free
  }

  lemma StepThen(h: Phys, h1: Phys, h2: Phys, s: nat, X: set<nat>, Y: set<nat>)
    requires Step(h, h1, s, X) && Step(h1, h2, s, Y)
    ensures Step(h, h2, s, X + Y)
  {
    hide Node, Sound, Loose;
    OthersKeptThen(h, h1, h2, s);
    forall vp | 0 <= vp < KERNPAGE && Node(h.m, s, LeafAt(vp)) != 0 ensures SameNode(h.m, h2.m, s, LeafAt(vp)) {
      assert SameNode(h.m, h1.m, s, LeafAt(vp)) && SameNode(h1.m, h2.m, s, LeafAt(vp));
    }
  }

  /** Frames that were free at the start need no exception. */
  lemma StepFresh(h: Phys, h': Phys, s: nat, X: set<nat>, Y: set<nat>)
    requires Step(h, h', s, X) && forall c :: c in X && c !in Y ==> c in h.free
    ensures Step(h, h', s, Y)
  {
    hide Node, Sound, OthersKept, TabsKept, PagesStay;
  }

  /** Writing the page of one node of space s touches no other space. */
  lemma OneFrameOthers(h: Phys, m': Memory, s: nat, f: nat, p: Pos)
    requires Sound(h) && s in h.dirs && OkPos(p) && Steers(p) && f == Node(h.m, s, p) && |m'| == |h.m|
    requires forall x :: 0 <= x < |h.m| && x != f ==> m'[x] == h.m[x]
    ensures OthersKept(h, h.(m := m'), s)
  {
    forall u, q | u in h.dirs && u != s && OkPos(q) ensures SameNode(h.m, m', u, q) {
      assert Apart(h, s, p, u, q) && Apart(h, s, p, u, Dir);
      if q.Leaf? {
        assert Apart(h, s, p, u, Tab(q.i));
      }
    }
  }

  // walkpgdir

  /** A new, empty page table for index i of space s. */
  function LinkTable(m: Memory, s: nat, i: nat, b: nat): (r: Memory)
    requires s < |m| && i < NPT && b < 0x10_0000
    ensures |r| == |m| && UserEntry(r[s].at[i], b)
  {
    SetEntry(m, s, i, Entry(b, 7))
  }

  lemma LinkTableCan(h: Phys, s: nat, i: nat, b: nat)
    requires Sound(h) && s in h.dirs && i < NPT && Node(h.m, s, Tab(i)) == 0 && Loose(h, b) && h.m[b] == ZeroPage()
    ensures 0 < s < |h.m| && b < 0x10_0000
    ensures CanRelink(h, s, Tab(i), Entry(b, 7)) && Relink(h.m, s, Tab(i), Entry(b, 7)) == LinkTable(h.m, s, i, b)
    ensures LinkTable(h.m, s, i, b)[b] == ZeroPage()
  {
    assert InUse(h, s, Dir);
    assert Node(h.m, s, Dir) != b;
  }

  lemma LinkTableEntries(h: Phys, s: nat, i: nat, b: nat)
    requires Sound(h) && s in h.dirs && i < NPT && Node(h.m, s, Tab(i)) == 0 && Loose(h, b) && h.m[b] == ZeroPage()
    ensures s < |h.m| && b < 0x10_0000
    ensures forall vp :: 0 <= vp < NVP ==> Pte(LinkTable(h.m, s, i, b), s, vp) == Pte(h.m, s, vp)
  {
    LinkTableCan(h, s, i, b);
    var m' := LinkTable(h.m, s, i, b);
    forall vp | 0 <= vp < NVP ensures Pte(m', s, vp) == Pte(h.m, s, vp) {
      RelinkNode(h, s, Tab(i), Entry(b, 7), s, Tab(vp / NPT));
      assert Apart(h, s, Dir, s, Tab(vp / NPT));
      hide Node;
    }
  }

  lemma LinkTableStep(h: Phys, s: nat, i: nat, b: nat)
    requires Sound(h) && s in h.dirs && i < NPT && Node(h.m, s, Tab(i)) == 0 && Loose(h, b) && h.m[b] == ZeroPage()
    ensures s < |h.m| && b < 0x10_0000
    ensures Step(h, h.(m := LinkTable(h.m, s, i, b)), s, {b}) && Node(LinkTable(h.m, s, i, b), s, Tab(i)) == b
  {
    LinkTableCan(h, s, i, b);
    var w, m' := Entry(b, 7), LinkTable(h.m, s, i, b);
    RelinkSound(h, s, Tab(i), w);
    OneFrameOthers(h, m', s, s, Dir);
    forall k | 0 <= k < NPT ensures Node(m', s, Tab(k)) == if k == i then b else Node(h.m, s, Tab(k)) {
      RelinkNode(h, s, Tab(i), w, s, Tab(k));
    }
    forall vp | 0 <= vp < KERNPAGE ensures SameNode(h.m, m', s, LeafAt(vp)) {
      RelinkNode(h, s, Tab(i), w, s, LeafAt(vp));
      assert Apart(h, s, Dir, s, LeafAt(vp));
    }
    forall c: nat | Loose(h, c) && c != b ensures Loose(h.(m := m'), c) && m'[c] == h.m[c] {
      RelinkLoose(h, s, Tab(i), w, c);
      assert Node(h.m, s, Dir) != c;
    }
  }

  /** kalloc: a frame leaves the free list for the kernel's hand. */
  lemma TakeStep(h: Phys, s: nat, b: nat)
    requires Sound(h) && s in h.dirs && b in h.free
    ensures Step(h, h.(free := h.free - {b}), s, {}) && Loose(h.(free := h.free - {b}), b)
  {
    var h' := h.(free := h.free - {b});
    forall u, p | u in h.dirs && OkPos(p) ensures InUse(h', u, p) && Node(h.m, u, p) != b {
      assert InUse(h, u, p);
    }
    hide Node, EntryOf;
    forall t, p, u, q | t in h.dirs && u in h.dirs && OkPos(p) && OkPos(q) ensures Apart(h', t, p, u, q) {
      assert Apart(h, t, p, u, q);
    }
  }

  /** Filling a frame in hand changes no address space. */
  lemma FillStep(h: Phys, s: nat, b: nat, page: Page)
    requires Sound(h) && s in h.dirs && Loose(h, b)
    ensures Step(h, h.(m := h.m[b := page]), s, {b}) && Loose(h.(m := h.m[b := page]), b)
    ensures forall u, p :: u in h.dirs && OkPos(p) ==> Node(h.m[b := page], u, p) == Node(h.m, u, p)
    ensures forall vp :: 0 <= vp < NVP ==> Pte(h.m[b := page], s, vp) == Pte(h.m, s, vp)
  {
    var m' := h.m[b := page];
    assert TablesKept(h, m');
    forall u, p | u in h.dirs && OkPos(p) && Node(h.m, u, p) != 0 ensures Node(h.m, u, p) !in h.free {
      assert InUse(h, u, p);
    }
    TablesKeepSound(h, m', h.free);
    hide Node;
    forall vp | 0 <= vp < NVP ensures Pte(m', s, vp) == Pte(h.m, s, vp) {
      assert Node(h.m, s, Tab(vp / NPT)) != b;
    }
  }

  /** walkpgdir with alloc: a free frame becomes an empty page table; no entry changes. */
  ghost function WithTable(h: Phys, s: nat, i: nat, b: nat): (r: Phys)
    requires s < |h.m| && i < NPT && b < |h.m| <= 0x10_0000
  {
    Phys(LinkTable(h.m[b := ZeroPage()], s, i, b), h.dirs, h.free - {b})
  }

  lemma WithTableStep(h: Phys, s: nat, i: nat, b: nat)
    requires Sound(h) && s in h.dirs && i < NPT && Node(h.m, s, Tab(i)) == 0 && b in h.free
    ensures s < |h.m| && 0 < b < |h.m|
    ensures Step(h, WithTable(h, s, i, b), s, {}) && Node(WithTable(h, s, i, b).m, s, Tab(i)) == b
    ensures forall vp :: 0 <= vp < NVP ==> Pte(WithTable(h, s, i, b).m, s, vp) == Pte(h.m, s, vp)
  {
    hide Node, Step, Loose, LinkTable, Pte;
    assert InUse(h, s, Dir);
    TakeStep(h, s, b);
    var h1 := h.(free := h.free - {b});
    assert Sound(h1) by { StepSound(h, h1, s, {}); }
    FillStep(h1, s, b, ZeroPage());
    var h2 := h1.(m := h.m[b := ZeroPage()]);
    StepSound(h1, h2, s, {b});
    StepThen(h, h1, h2, s, {}, {b});
    LinkTableStep(h2, s, i, b);
    LinkTableEntries(h2, s, i, b);
    var h3 := WithTable(h, s, i, b);
    StepThen(h, h2, h3, s, {} + {b}, {b});
    StepFresh(h, h3, s, {} + {b} + {b}, {});
  }

  lemma StepSound(h: Phys, h': Phys, s: nat, X: set<nat>)
    requires Step(h, h', s, X)
    ensures Sound(h') && |h'.m| == |h.m| && h'.dirs == h.dirs && h'.free <= h.free
  {
  }

  /** The new page table is not left in hand. */
  lemma WithTableNoLeak(h: Phys, s: nat, i: nat, b: nat)
    requires Sound(h) && s in h.dirs && i < NPT && Node(h.m, s, Tab(i)) == 0 && b in h.free
    ensures 0 < s < |h.m| && 0 < b < |h.m| && NoLeak(h, WithTable(h, s, i, b), {})
  {
    hide LinkTable, Step;
    assert InUse(h, s, Dir);
    WithTableStep(h, s, i, b);
    var h3 := WithTable(h, s, i, b);
    StepSound(h, h3, s, {});
    forall c: nat | Loose(h3, c) ensures Loose(h, c) {
      assert Node(h3.m, s, Tab(i)) == b;
      forall u, p | u in h.dirs && OkPos(p) ensures Node(h.m, u, p) != c {
        WithTableNode(h, s, i, b, u, p);
      }
    }
  }

  lemma WithTableNode(h: Phys, s: nat, i: nat, b: nat, u: nat, p: Pos)
    requires Sound(h) && s in h.dirs && i < NPT && Node(h.m, s, Tab(i)) == 0 && b in h.free && u in h.dirs && OkPos(p)
    ensures 0 < s < |h.m| && 0 < b < |h.m|
    ensures Node(WithTable(h, s, i, b).m, u, p) == if u == s && p == Tab(i) then b else Node(h.m, u, p)
  {
    hide Step, Loose, LinkTable;
    assert InUse(h, s, Dir);
    TakeStep(h, s, b);
    var h1 := h.(free := h.free - {b});
    StepSound(h, h1, s, {});
    FillStep(h1, s, b, ZeroPage());
    var h2 := h1.(m := h.m[b := ZeroPage()]);
    StepSound(h1, h2, s, {b});
    LinkTableCan(h2, s, i, b);
    RelinkNode(h2, s, Tab(i), Entry(b, 7), u, p);
  }

  // Writing one page-table entry

  function PutPte(m: Memory, s: nat, vp: nat, w: Word): (r: Memory)
    requires vp < NVP && Node(m, s, Tab(vp / NPT)) < |m|
    ensures |r| == |m|
  {
    SetEntry(m, Node(m, s, Tab(vp / NPT)), vp % NPT, w)
  }

  /** The page table is there; a user page is mapped only to a frame in hand. */
  ghost predicate CanPut(h: Phys, s: nat, vp: nat, w: Word) {
    && Sound(h) && s in h.dirs && vp < NVP && Node(h.m, s, Tab(vp / NPT)) != 0
    && (vp < KERNPAGE && Present(w) ==> Loose(h, Target(w)))
  }

  lemma PutUser(h: Phys, s: nat, vp: nat, w: Word)
    requires CanPut(h, s, vp, w) && vp < KERNPAGE
    ensures CanRelink(h, s, LeafAt(vp), w) && Node(h.m, s, Tab(vp / NPT)) < |h.m|
    ensures Relink(h.m, s, LeafAt(vp), w) == PutPte(h.m, s, vp, w)
  {
    assert InUse(h, s, Tab(vp / NPT));
  }

  lemma PutKernel(h: Phys, s: nat, vp: nat, w: Word)
    requires CanPut(h, s, vp, w) && vp >= KERNPAGE
    ensures Node(h.m, s, Tab(vp / NPT)) < |h.m| && TablesKept(h, PutPte(h.m, s, vp, w))
  {
    var p := Tab(vp / NPT);
    assert InUse(h, s, p);
    var m' := PutPte(h.m, s, vp, w);
    hide Node;
    forall u, q | u in h.dirs && OkPos(q) && Steers(q) && 0 < Node(h.m, u, q) < |h.m|
      ensures m'[Node(h.m, u, q)] == h.m[Node(h.m, u, q)]
    {
      assert Apart(h, s, p, u, q);
    }
  }

  /** One entry changes one node at most: the page it maps. */
  lemma PutNode(h: Phys, s: nat, vp: nat, w: Word, u: nat, q: Pos)
    requires CanPut(h, s, vp, w) && u in h.dirs && OkPos(q)
    ensures Node(h.m, s, Tab(vp / NPT)) < |h.m|
    ensures Node(PutPte(h.m, s, vp, w), u, q)
              == if u == s && vp < KERNPAGE && q == LeafAt(vp) then Target(w) else Node(h.m, u, q)
  {
    if vp < KERNPAGE {
      PutUser(h, s, vp, w);
      RelinkNode(h, s, LeafAt(vp), w, u, q);
    } else {
      PutKernel(h, s, vp, w);
      TablesKeepNode(h, PutPte(h.m, s, vp, w), u, q);
    }
  }

  lemma PutSound(h: Phys, s: nat, vp: nat, w: Word)
    requires CanPut(h, s, vp, w)
    ensures Node(h.m, s, Tab(vp / NPT)) < |h.m| && Sound(h.(m := PutPte(h.m, s, vp, w)))
  {
    if vp < KERNPAGE {
      PutUser(h, s, vp, w);
      RelinkSound(h, s, LeafAt(vp), w);
    } else {
      PutKernel(h, s, vp, w);
      forall u, q | u in h.dirs && OkPos(q) && Node(h.m, u, q) != 0 ensures Node(h.m, u, q) !in h.free {
        assert InUse(h, u, q);
      }
      TablesKeepSound(h, PutPte(h.m, s, vp, w), h.free);
    }
  }

  lemma PutEntries(h: Phys, s: nat, vp: nat, w: Word)
    requires CanPut(h, s, vp, w)
    ensures Node(h.m, s, Tab(vp / NPT)) < |h.m|
    ensures forall vq :: 0 <= vq < NVP ==> Pte(PutPte(h.m, s, vp, w), s, vq) == if vq == vp then w else Pte(h.m, s, vq)
  {
    assert InUse(h, s, Tab(vp / NPT));
    var m' := PutPte(h.m, s, vp, w);
    hide Node;
    forall vq | 0 <= vq < NVP ensures Pte(m', s, vq) == if vq == vp then w else Pte(h.m, s, vq) {
      PutNode(h, s, vp, w, s, Tab(vq / NPT));
      assert Apart(h, s, Tab(vp / NPT), s, Tab(vq / NPT));
      if vp / NPT == vq / NPT && vp % NPT == vq % NPT {
        SameSlot(vp, vq);
      }
    }
  }

  /** Writing an entry touches no other space and moves no page table. */
  lemma PutOthers(h: Phys, s: nat, vp: nat, w: Word)
    requires CanPut(h, s, vp, w)
    ensures Node(h.m, s, Tab(vp / NPT)) < |h.m|
    ensures OthersKept(h, h.(m := PutPte(h.m, s, vp, w)), s)
    ensures forall i :: 0 <= i < NPT ==> Node(PutPte(h.m, s, vp, w), s, Tab(i)) == Node(h.m, s, Tab(i))
  {
    assert InUse(h, s, Tab(vp / NPT));
    var m' := PutPte(h.m, s, vp, w);
    hide Node;
    forall u, q | u in h.dirs && OkPos(q) && u != s ensures SameNode(h.m, m', u, q) {
      PutNode(h, s, vp, w, u, q);
      assert Apart(h, s, Tab(vp / NPT), u, q);
    }
    forall i | 0 <= i < NPT ensures Node(m', s, Tab(i)) == Node(h.m, s, Tab(i)) {
      PutNode(h, s, vp, w, s, Tab(i));
    }
  }

  /** Nor any other mapped page of its own. */
  lemma PutPage(h: Phys, s: nat, vp: nat, w: Word, vq: nat)
    requires CanPut(h, s, vp, w) && vq < KERNPAGE && vq != vp
    ensures Node(h.m, s, Tab(vp / NPT)) < |h.m| && SameNode(h.m, PutPte(h.m, s, vp, w), s, LeafAt(vq))
  {
    assert InUse(h, s, Tab(vp / NPT));
    hide Node;
    PutNode(h, s, vp, w, s, LeafAt(vq));
    assert Apart(h, s, Tab(vp / NPT), s, LeafAt(vq));
    if vp < KERNPAGE && LeafAt(vp) == LeafAt(vq) {
      SameSlot(vp, vq);
    }
  }

  lemma PutLoose(h: Phys, s: nat, vp: nat, w: Word, c: nat)
    requires CanPut(h, s, vp, w) && Loose(h, c) && !(vp < KERNPAGE && Target(w) == c)
    ensures Node(h.m, s, Tab(vp / NPT)) < |h.m|
    ensures Loose(h.(m := PutPte(h.m, s, vp, w)), c) && PutPte(h.m, s, vp, w)[c] == h.m[c]
  {
    assert InUse(h, s, Tab(vp / NPT));
    assert Node(h.m, s, Tab(vp / NPT)) != c;
    hide Node;
    forall u, q | u in h.dirs && OkPos(q) ensures Node(PutPte(h.m, s, vp, w), u, q) != c {
      PutNode(h, s, vp, w, u, q);
    }
  }

  /** Mapping a page where none is. */
  lemma PutStep(h: Phys, s: nat, vp: nat, w: Word)
    requires CanPut(h, s, vp, w) && !Present(Pte(h.m, s, vp)) && Present(w)
    ensures Node(h.m, s, Tab(vp / NPT)) < |h.m|
    ensures Step(h, h.(m := PutPte(h.m, s, vp, w)), s, if vp < KERNPAGE then {Target(w)} else {})
  {
    assert InUse(h, s, Tab(vp / NPT));
    hide Node, Present, PutPte;
    PutSound(h, s, vp, w);
    PutOthers(h, s, vp, w);
    forall vq | 0 <= vq < KERNPAGE && Node(h.m, s, LeafAt(vq)) != 0 ensures SameNode(h.m, PutPte(h.m, s, vp, w), s, LeafAt(vq)) {
      PteIsEntry(h.m, s, vq);
      PutPage(h, s, vp, w, vq);
    }
    forall c: nat | Loose(h, c) && !(vp < KERNPAGE && c == Target(w)) ensures Loose(h.(m := PutPte(h.m, s, vp, w)), c) && PutPte(h.m, s, vp, w)[c] == h.m[c] {
      PutLoose(h, s, vp, w, c);
    }
  }

  /** An entry written leaves no frame in hand but one whose page it unmaps. */
  lemma PutNoLeak(h: Phys, s: nat, vp: nat, w: Word)
    requires CanPut(h, s, vp, w)
    ensures Node(h.m, s, Tab(vp / NPT)) < |h.m|
    ensures NoLeak(h, h.(m := PutPte(h.m, s, vp, w)), if vp < KERNPAGE then {Node(h.m, s, LeafAt(vp))} else {})
    ensures vp < KERNPAGE && Present(w) ==> !Loose(h.(m := PutPte(h.m, s, vp, w)), Target(w))
  {
    assert InUse(h, s, Tab(vp / NPT));
    hide Node, PutPte;
    var h' := h.(m := PutPte(h.m, s, vp, w));
    forall c: nat | Loose(h', c) && !(vp < KERNPAGE && c == Node(h.m, s, LeafAt(vp))) ensures Loose(h, c) {
      forall u, p | u in h.dirs && OkPos(p) ensures Node(h.m, u, p) != c {
        PutNode(h, s, vp, w, u, p);
      }
    }
    if vp < KERNPAGE && Present(w) {
      PutNode(h, s, vp, w, s, LeafAt(vp));
    }
  }

  /** Clearing the entry of a mapped user page leaves its frame in hand. */
  lemma ClearLoose(h: Phys, s: nat, vp: nat)
    requires CanPut(h, s, vp, 0) && vp < KERNPAGE && Present(Pte(h.m, s, vp))
    ensures Node(h.m, s, Tab(vp / NPT)) < |h.m|
    ensures Loose(h.(m := PutPte(h.m, s, vp, 0)), Node(h.m, s, LeafAt(vp)))
    ensures Node(h.m, s, LeafAt(vp)) == Pte(h.m, s, vp) / PGSIZE
  {
    PutUser(h, s, vp, 0);
    PteIsEntry(h.m, s, vp);
    UnlinkLoose(h, s, LeafAt(vp));
  }

  // mappages

  /** flags | PTE_P */
  function WithP(perm: nat): (r: nat)
    requires perm < PGSIZE
    ensures r < PGSIZE && r % 2 == 1 && r / 2 == perm / 2
  {
    if perm % 2 == 1 then perm else perm + 1
  }

  ghost function Range(lo: nat, n: nat): (r: set<nat>)
    ensures forall c: nat :: c in r <==> lo <= c < lo + n
  {
    if n == 0 then {} else Range(lo, n - 1) + {lo + n - 1}
  }

  ghost predicate FrameKept(m: Memory, m': Memory, c: nat) {
    0 < c < |m| && |m'| == |m| && m'[c] == m[c]
  }

  /** n pages from virtual page a on have become frames fr, fr + 1, ...; every other entry is as it was. */
  ghost predicate Mapped(h: Phys, h': Phys, s: nat, a: nat, n: nat, fr: nat, flags: nat) {
    && a + n <= NVP && fr + n <= 0x10_0000 && flags < PGSIZE && flags % 2 == 1 && (a < KERNPAGE ==> a + n <= KERNPAGE)
    && Step(h, h', s, if a < KERNPAGE then Range(fr, n) else {})
    && (forall vp :: a <= vp < a + n ==> !Present(Pte(h.m, s, vp)))
    && (a < KERNPAGE ==> forall c: nat :: fr <= c < fr + n ==> FrameKept(h.m, h'.m, c) && !Loose(h', c))
    && NoLeak(h, h', {})
    && (forall vp :: 0 <= vp < NVP ==> Pte(h'.m, s, vp) == if a <= vp < a + n then Entry(fr + vp - a, flags) else Pte(h.m, s, vp))
  }

  /** A page table may have been made; no entry has changed. */
  ghost predicate Walked(h: Phys, h': Phys, s: nat) {
    Step(h, h', s, {}) && forall vp :: 0 <= vp < NVP ==> Pte(h'.m, s, vp) == Pte(h.m, s, vp)
  }

  /** n frames in hand from fr on. */
  ghost predicate InHand(h: Phys, fr: nat, n: nat) {
    forall c: nat :: fr <= c < fr + n ==> Loose(h, c)
  }

  /** The page table for vp is there and the entry is not present. */
  ghost predicate Vacant(m: Memory, s: nat, vp: nat) {
    vp < NVP && 0 < Node(m, s, Tab(vp / NPT)) < |m| && !Present(Pte(m, s, vp))
  }

  /** One turn of the loop: the page table is found or made, then the entry written. */
  lemma MappedOne(h: Phys, h1: Phys, h2: Phys, h3: Phys, s: nat, a: nat, n: nat, fr: nat, flags: nat)
    requires s in h.dirs && flags < PGSIZE && flags % 2 == 1 && fr + n < 0x10_0000 && Vacant(h2.m, s, a + n)
    requires h3 == h2.(m := PutPte(h2.m, s, a + n, Entry(fr + n, flags)))
    requires a < KERNPAGE ==> a + n < KERNPAGE && Loose(h, fr + n)
    requires Mapped(h, h1, s, a, n, fr, flags) && Walked(h1, h2, s) && NoLeak(h1, h2, {})
    ensures Mapped(h, h3, s, a, n + 1, fr, flags)
    ensures forall i :: 0 <= i < NPT ==> Node(h3.m, s, Tab(i)) == Node(h2.m, s, Tab(i))
  {
    hide Node, Step, Loose, PutPte, Pte, Present, Sound, OthersKept;
    var vp, w := a + n, Entry(fr + n, flags);
    var X := if a < KERNPAGE then Range(fr, n) else {};
    StepThen(h, h1, h2, s, X, {});
    StepSound(h, h2, s, X + {});
    if a < KERNPAGE {
      StepLoose(h, h2, s, X + {}, fr + n);
    }
    assert CanPut(h2, s, vp, w);
    PutStep(h2, s, vp, w);
    PutEntries(h2, s, vp, w);
    PutOthers(h2, s, vp, w);
    var Y := if vp < KERNPAGE then {Target(w)} else {};
    StepThen(h, h2, h3, s, X + {}, Y);
    assert X + {} + Y == if a < KERNPAGE then Range(fr, n + 1) else {};
    PutNoLeak(h2, s, vp, w);
    VacantLeaf(h2.m, s, vp);
    NoLeakChain(h, h1, h2, h3);
    if a < KERNPAGE {
      forall c: nat | fr <= c < fr + n ensures !Loose(h3, c) {
        assert !Loose(h1, c);
      }
      forall c: nat | fr <= c < fr + n + 1 ensures FrameKept(h.m, h3.m, c) {
        if c < fr + n {
          MappedContent(h, h1, h2, s, a, n, fr, flags, {}, c);
          StepContent(h2, h3, s, Y, a + c - fr, c);
        } else {
          PutLooseContent(h2, s, vp, w, c);
        }
      }
    }
  }

  /** Nothing is unmapped where nothing is mapped. */
  lemma VacantLeaf(m: Memory, s: nat, vp: nat)
    requires Vacant(m, s, vp)
    ensures vp < KERNPAGE ==> Node(m, s, LeafAt(vp)) == 0
  {
    if vp < KERNPAGE {
      PteIsEntry(m, s, vp);
    }
  }

  lemma NoLeakChain(h: Phys, h1: Phys, h2: Phys, h3: Phys)
    requires NoLeak(h, h1, {}) && NoLeak(h1, h2, {}) && NoLeak(h2, h3, {0})
    ensures NoLeak(h, h3, {}) && NoLeak(h1, h3, {})
  {
    forall c: nat | Loose(h3, c) ensures Loose(h1, c) {
      assert c != 0;
    }
  }

  /** A page mapped so far keeps its contents through a further step. */
  lemma MappedContent(h: Phys, h1: Phys, h2: Phys, s: nat, a: nat, n: nat, fr: nat, flags: nat, X: set<nat>, c: nat)
    requires Mapped(h, h1, s, a, n, fr, flags) && Step(h1, h2, s, X) && a < KERNPAGE && fr <= c < fr + n
    ensures a + c - fr < KERNPAGE && Target(Pte(h1.m, s, a + c - fr)) == c && FrameKept(h.m, h2.m, c)
  {
    hide Node, Step, Pte;
    StepSound(h1, h2, s, X);
    assert Pte(h1.m, s, a + c - fr) == Entry(c, flags);
    assert FrameKept(h.m, h1.m, c);
    StepContent(h1, h2, s, X, a + c - fr, c);
  }

  lemma PutLooseContent(h: Phys, s: nat, vp: nat, w: Word, c: nat)
    requires CanPut(h, s, vp, w) && Loose(h, c)
    ensures Node(h.m, s, Tab(vp / NPT)) < |h.m| && PutPte(h.m, s, vp, w)[c] == h.m[c]
  {
    assert InUse(h, s, Tab(vp / NPT));
    assert Node(h.m, s, Tab(vp / NPT)) != c;
  }

  /** A page mapped before the step keeps its contents. */
  lemma StepContent(h: Phys, h': Phys, s: nat, X: set<nat>, vp: nat, c: nat)
    requires Step(h, h', s, X) && vp < KERNPAGE && Target(Pte(h.m, s, vp)) == c && 0 < c < |h.m|
    ensures |h'.m| == |h.m| && h'.m[c] == h.m[c]
  {
    PteIsEntry(h.m, s, vp);
    assert SameNode(h.m, h'.m, s, LeafAt(vp));
  }

  lemma StepLoose(h: Phys, h': Phys, s: nat, X: set<nat>, c: nat)
    requires Step(h, h', s, X) && Loose(h, c) && c !in X
    ensures Loose(h', c) && c < |h.m| == |h'.m| && h'.m[c] == h.m[c]
  {
  }
}
