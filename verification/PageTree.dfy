/**
 Two-level page tables in physical memory (src/vm.c, src/mmu.h).  Memory is a sequence of page
 frames of 1024 words; an address space is a directory frame, its page-table frames, and the
 frames mapped below KERNBASE.  Frame 0 is never handed out, so 0 stands for "absent".
 */
module PageTree {
  const NPT: nat := 1024
  const UPD: nat := 512
  const PGSIZE: nat := 4096
  const PTE_P: nat := 1

  type Word = x: int | 0 <= x < 0x1_0000_0000
  datatype Words = Words(at: seq<Word>)
  type Page = w: Words | |w.at| == NPT witness Words(seq(NPT, _ => 0))
  type Memory = seq<Page>

  function ZeroPage(): (r: Page)
    ensures forall k :: 0 <= k < NPT ==> r.at[k] == 0
  {
    Words(seq(NPT, _ => 0))
  }

  /** The page after kfree: every byte 1. */
  function JunkPage(): (r: Page) {
    Words(seq(NPT, _ => 0x0101_0101))
  }

  predicate Present(w: Word) {
    w % 2 == 1
  }

  /** A page-table entry for frame b with these flag bits. */
  function Entry(b: nat, flags: nat): (w: Word)
    requires b < 0x10_0000 && flags < PGSIZE
    ensures w / PGSIZE == b && w % PGSIZE == flags && (Present(w) <==> flags % 2 == 1)
  {
    b * PGSIZE + flags
  }

  datatype Pos = Dir | Tab(i: nat) | Leaf(i: nat, j: nat)

  /** The positions an address space owns: user pages only, but the page tables of the kernel half too. */
  predicate OkPos(p: Pos) {
    match p
    case Dir => true
    case Tab(i) => i < NPT
    case Leaf(i, j) => i < UPD && j < NPT
  }

  /** The frame entry k of page f leads to, 0 if it is not present. */
  function Link(m: Memory, f: nat, k: nat): (r: nat)
    requires k < NPT
  {
    if 0 < f < |m| && Present(m[f].at[k]) then m[f].at[k] / PGSIZE else 0
  }

  function Node(m: Memory, dir: nat, p: Pos): (r: nat)
    requires OkPos(p)
  {
    match p
    case Dir => dir
    case Tab(i) => Link(m, dir, i)
    case Leaf(i, j) => Link(m, Link(m, dir, i), j)
  }

  // Address spaces sharing a memory

  /** Memory, the directory frames of all address spaces, and the free frames. */
  datatype Phys = Phys(m: Memory, dirs: set<nat>, free: set<nat>)

  /** A present node is a frame of memory in use. */
  ghost predicate InUse(h: Phys, s: nat, p: Pos)
    requires OkPos(p)
  {
    Node(h.m, s, p) != 0 ==> Node(h.m, s, p) < |h.m| && Node(h.m, s, p) !in h.free
  }

  ghost predicate Apart(h: Phys, s: nat, p: Pos, t: nat, q: Pos)
    requires OkPos(p) && OkPos(q)
  {
    Node(h.m, s, p) != 0 && Node(h.m, s, p) == Node(h.m, t, q) ==> s == t && p == q
  }

  /** The entry for position p: 0 if its page table is absent. */
  function EntryOf(m: Memory, s: nat, p: Pos): (w: Word)
    requires OkPos(p) && !p.Dir?
  {
    var f := Node(m, s, ParentOf(p));
    if 0 < f < |m| then m[f].at[Slot(p)] else 0
  }

  /** Every address space is a tree of frames in use, and no frame belongs to two places. */
  ghost predicate Sound(h: Phys) {
    && |h.m| <= 0x10_0000 && 0 !in h.dirs
    && (forall f :: f in h.free ==> 0 < f < |h.m|)
    && (forall s, p :: s in h.dirs && OkPos(p) ==> InUse(h, s, p))
    && (forall s, p :: s in h.dirs && OkPos(p) && !p.Dir? && Present(EntryOf(h.m, s, p)) ==> Node(h.m, s, p) != 0)
    && (forall s, p, t, q :: s in h.dirs && t in h.dirs && OkPos(p) && OkPos(q) ==> Apart(h, s, p, t, q))
  }

  /** Frame b is in hand: allocated, but not part of any address space. */
  ghost predicate Loose(h: Phys, b: nat) {
    && 0 < b < |h.m| && b !in h.free
    && forall s, p :: s in h.dirs && OkPos(p) ==> Node(h.m, s, p) != b
  }

  function ParentOf(p: Pos): (q: Pos)
    requires OkPos(p) && !p.Dir?
    ensures OkPos(q) && !q.Leaf?
  {
    if p.Tab? then Dir else Tab(p.i)
  }

  function Slot(p: Pos): (k: nat)
    requires OkPos(p) && !p.Dir?
    ensures k < NPT
  {
    if p.Tab? then p.i else p.j
  }

  /** The page that decides where user addresses lead: the directory or a page table of the user half. */
  predicate Steers(p: Pos) {
    p.Dir? || (p.Tab? && p.i < UPD)
  }

  /** The directories and the user page tables of every space read as before. */
  ghost predicate TablesKept(h: Phys, m': Memory) {
    && |m'| == |h.m|
    && forall s, p :: s in h.dirs && OkPos(p) && Steers(p) && 0 < Node(h.m, s, p) < |h.m| ==>
         m'[Node(h.m, s, p)] == h.m[Node(h.m, s, p)]
  }

  lemma TablesKeepNode(h: Phys, m': Memory, s: nat, p: Pos)
    requires TablesKept(h, m') && s in h.dirs && OkPos(p)
    ensures Node(m', s, p) == Node(h.m, s, p)
    ensures !p.Dir? ==> EntryOf(m', s, p) == EntryOf(h.m, s, p)
  {
    assert 0 < Node(h.m, s, Dir) < |h.m| ==> m'[Node(h.m, s, Dir)] == h.m[Node(h.m, s, Dir)];
    if p.Leaf? {
      assert 0 < Node(h.m, s, Tab(p.i)) < |h.m| ==> m'[Node(h.m, s, Tab(p.i))] == h.m[Node(h.m, s, Tab(p.i))];
    }
  }

  /** Changing pages that are not tables, and the free set away from the nodes, keeps every space. */
  lemma TablesKeepSound(h: Phys, m': Memory, free': set<nat>)
    requires Sound(h) && TablesKept(h, m')
    requires forall f :: f in free' ==> 0 < f < |h.m|
    requires forall s, p :: s in h.dirs && OkPos(p) && Node(h.m, s, p) != 0 ==> Node(h.m, s, p) !in free'
    ensures Sound(Phys(m', h.dirs, free'))
    ensures forall s, p :: s in h.dirs && OkPos(p) ==> Node(m', s, p) == Node(h.m, s, p)
  {
    var h' := Phys(m', h.dirs, free');
    forall s, p | s in h.dirs && OkPos(p) ensures Node(m', s, p) == Node(h.m, s, p) && InUse(h', s, p) {
      TablesKeepNode(h, m', s, p);
      assert InUse(h, s, p);
    }
    forall s, p | s in h.dirs && OkPos(p) && !p.Dir? && Present(EntryOf(m', s, p)) ensures Node(m', s, p) != 0 {
      TablesKeepNode(h, m', s, p);
    }
    hide Node, EntryOf;
    forall s, p, t, q | s in h.dirs && t in h.dirs && OkPos(p) && OkPos(q) ensures Apart(h', s, p, t, q) {
      assert Apart(h, s, p, t, q);
    }
  }

  // Linking and unlinking a frame

  function SetEntry(m: Memory, f: nat, k: nat, w: Word): (r: Memory)
    requires f < |m| && k < NPT
    ensures |r| == |m|
  {
    m[f := Words(m[f].at[k := w])]
  }

  /** Memory after the entry for position p of space s becomes w. */
  function Relink(m: Memory, s: nat, p: Pos, w: Word): (r: Memory)
    requires OkPos(p) && !p.Dir? && Node(m, s, ParentOf(p)) < |m|
    ensures |r| == |m|
  {
    SetEntry(m, Node(m, s, ParentOf(p)), Slot(p), w)
  }

  /** What w leads to. */
  function Target(w: Word): (r: nat) {
    if Present(w) then w / PGSIZE else 0
  }

  /** The parent is there; a page table is linked only where none was, and holds no present entry. */
  ghost predicate CanRelink(h: Phys, s: nat, p: Pos, w: Word) {
    && Sound(h) && s in h.dirs && OkPos(p) && !p.Dir? && Node(h.m, s, ParentOf(p)) != 0
    && (Present(w) ==> Loose(h, Target(w)))
    && (p.Tab? ==> Node(h.m, s, p) == 0 && Present(w) && h.m[Target(w)] == ZeroPage())
  }

  /** Writing one entry changes one link of one page. */
  lemma RelinkLink(h: Phys, s: nat, p: Pos, w: Word, f: nat, k: nat)
    requires CanRelink(h, s, p, w) && k < NPT
    ensures Node(h.m, s, ParentOf(p)) < |h.m|
    ensures Link(Relink(h.m, s, p, w), f, k)
              == if f == Node(h.m, s, ParentOf(p)) && k == Slot(p) then Target(w) else Link(h.m, f, k)
  {
    assert InUse(h, s, ParentOf(p));
  }

  /** The heart of mappages and deallocuvm: the entry changes that node, and no other node of any space. */
  lemma RelinkNode(h: Phys, s: nat, p: Pos, w: Word, t: nat, q: Pos)
    requires CanRelink(h, s, p, w) && t in h.dirs && OkPos(q)
    ensures Node(h.m, s, ParentOf(p)) < |h.m|
    ensures Node(Relink(h.m, s, p, w), t, q) == if t == s && q == p then Target(w) else Node(h.m, t, q)
  {
    assert InUse(h, s, ParentOf(p));
    hide Relink, SetEntry, Present;
    if q.Tab? {
      RelinkLink(h, s, p, w, t, q.i);
      assert Apart(h, s, ParentOf(p), t, Dir);
    } else if q.Leaf? {
      RelinkLink(h, s, p, w, t, q.i);
      assert Apart(h, s, ParentOf(p), t, Dir);
      RelinkLink(h, s, p, w, Node(h.m, t, Tab(q.i)), q.j);
      assert Apart(h, s, ParentOf(p), t, Tab(q.i));
      if p.Tab? {
        RelinkLink(h, s, p, w, Target(w), q.j);
        assert Node(h.m, s, Dir) != Target(w);
      }
    }
  }

  /** The same for the entries themselves. */
  lemma RelinkEntry(h: Phys, s: nat, p: Pos, w: Word, t: nat, q: Pos)
    requires CanRelink(h, s, p, w) && t in h.dirs && OkPos(q) && !q.Dir?
    ensures Node(h.m, s, ParentOf(p)) < |h.m|
    ensures EntryOf(Relink(h.m, s, p, w), t, q) == if t == s && q == p then w else EntryOf(h.m, t, q)
  {
    assert InUse(h, s, ParentOf(p)) && InUse(h, t, ParentOf(q));
    RelinkNode(h, s, p, w, t, ParentOf(q));
    assert Apart(h, s, ParentOf(p), t, ParentOf(q));
    hide Node;
  }

  /** The spaces stay trees of distinct frames. */
  lemma RelinkSound(h: Phys, s: nat, p: Pos, w: Word)
    requires CanRelink(h, s, p, w)
    ensures Node(h.m, s, ParentOf(p)) < |h.m| && Sound(h.(m := Relink(h.m, s, p, w)))
  {
    assert InUse(h, s, ParentOf(p));
    var m' := Relink(h.m, s, p, w);
    var h' := h.(m := m');
    forall t, q | t in h.dirs && OkPos(q)
      ensures Node(m', t, q) == if t == s && q == p then Target(w) else Node(h.m, t, q)
      ensures InUse(h', t, q)
    {
      RelinkNode(h, s, p, w, t, q);
      assert InUse(h, t, q);
    }
    hide Node, EntryOf, Relink;
    forall t, q | t in h.dirs && OkPos(q) && !q.Dir? && Present(EntryOf(m', t, q)) ensures Node(m', t, q) != 0 {
      RelinkEntry(h, s, p, w, t, q);
    }
    forall t, q, u, r | t in h.dirs && u in h.dirs && OkPos(q) && OkPos(r) ensures Apart(h', t, q, u, r) {
      assert Apart(h, t, q, u, r);
    }
  }

  /** A frame in hand stays in hand while another is linked. */
  lemma RelinkLoose(h: Phys, s: nat, p: Pos, w: Word, b: nat)
    requires CanRelink(h, s, p, w) && Loose(h, b) && Target(w) != b
    ensures Node(h.m, s, ParentOf(p)) < |h.m| && Loose(h.(m := Relink(h.m, s, p, w)), b)
  {
    assert InUse(h, s, ParentOf(p));
    hide Node, Relink;
    forall t, q | t in h.dirs && OkPos(q) ensures Node(Relink(h.m, s, p, w), t, q) != b {
      RelinkNode(h, s, p, w, t, q);
    }
  }

  /** Unlinking a page leaves its frame in hand. */
  lemma UnlinkLoose(h: Phys, s: nat, p: Pos)
    requires CanRelink(h, s, p, 0) && Node(h.m, s, p) != 0
    ensures Node(h.m, s, ParentOf(p)) < |h.m| && Loose(h.(m := Relink(h.m, s, p, 0)), Node(h.m, s, p))
  {
    assert InUse(h, s, ParentOf(p)) && InUse(h, s, p);
    hide Node, Relink;
    forall t, q | t in h.dirs && OkPos(q) ensures Node(Relink(h.m, s, p, 0), t, q) != Node(h.m, s, p) {
      RelinkNode(h, s, p, 0, t, q);
      assert Apart(h, s, p, t, q);
    }
  }
}
