/** src/vm.c over src/kalloc.c: page tables built and torn down in physical memory. */
module Vm {
  import opened PageTree
  import opened VmSpec
  import opened VmShrink
  import opened VmGrow
  import opened VmDemand

  const KERNBASE: nat := 0x8000_0000

  datatype MapResult = Done | NoMemory | Remap

  ghost function Elems(l: seq<nat>): (r: set<nat>)
    ensures forall c :: c in r <==> c in l
  {
    set c | c in l
  }

  predicate Distinct(l: seq<nat>) {
    forall i, j :: 0 <= i < j < |l| ==> l[i] != l[j]
  }

  class Machine {
    var mem: Memory
    var freelist: seq<nat>
    ghost var dirs: set<nat>

    ghost function H(): (h: Phys)
      reads this
      ensures h.m == mem && h.dirs == dirs
    {
      Phys(mem, dirs, Elems(freelist))
    }

    ghost predicate Valid()
      reads this
    {
      Sound(H()) && Distinct(freelist)
    }

    /** kinit1 and kinit2: the frames from the end of the kernel up to PHYSTOP, freed one by one. */
    constructor Kinit(first: nat, top: nat)
      requires 0 < first <= top <= 0x10_0000
      ensures Valid() && |mem| == top && dirs == {} && H().free == Range(first, top - first) && |freelist| == top - first
    {
      mem := seq(top, _ => ZeroPage());
      freelist := [];
      dirs := {};
      new;
      var p := first;
      while p < top
        invariant first <= p <= top && |mem| == top && dirs == {} && Distinct(freelist)
        invariant H().free == Range(first, p - first) && |freelist| == p - first
      {
        Kfree(p);
        assert Range(first, p + 1 - first) == Range(first, p - first) + {p};
        p := p + 1;
      }
    }

    /** kalloc: the head of the free list. */
    method Kalloc() returns (ok: bool, b: nat)
      requires Valid()
      modifies `freelist
      ensures ok <==> old(freelist) != []
      ensures !ok ==> freelist == old(freelist)
      ensures ok ==> b in old(H().free) && H() == old(H()).(free := old(H().free) - {b}) && Distinct(freelist)
      ensures ok ==> |freelist| == |old(freelist)| - 1
    {
      if freelist == [] {
        return false, 0;
      }
      b := freelist[0];
      freelist := freelist[1..];
      assert old(freelist) == [b] + freelist;
      return true, b;
    }

    /** walkpgdir: the page table for virtual page vp, made if asked for. */
    method Walkpgdir(s: nat, vp: nat, alloc: bool) returns (ok: bool, t: nat)
      requires Valid() && s in dirs && vp < NVP
      modifies `mem, `freelist
      ensures Valid() && (ok ==> t == Node(mem, s, Tab(vp / NPT)) != 0)
      ensures !ok ==> mem == old(mem) && freelist == old(freelist) && (alloc ==> freelist == [])
      ensures !ok ==> old(Node(mem, s, Tab(vp / NPT))) == 0
      ensures ok && !alloc ==> mem == old(mem) && freelist == old(freelist)
      ensures Walked(old(H()), H(), s) && NoLeak(old(H()), H(), {})
      ensures ok <==> vp / NPT in Tabs(old(mem), s) || (alloc && old(freelist) != [])
      ensures ok ==> Opened(Tabs(old(mem), s), |old(freelist)|, Tabs(mem, s), |freelist|, {vp / NPT})
    {
      hide Step, Sound, Pte, Loose;
      DirThere(H(), s, vp / NPT);
      StepSame(H(), s);
      var pde := mem[s].at[vp / NPT];
      if Present(pde) {
        return true, pde / PGSIZE;
      }
      if !alloc {
        return false, 0;
      }
      ok, t := Kalloc();
      if !ok {
        return false, 0;
      }
      WithTableStep(old(H()), s, vp / NPT, t);
      WithTableNoLeak(old(H()), s, vp / NPT, t);
      WithTableTabs(old(H()), s, vp / NPT, t);
      StepSound(old(H()), WithTable(old(H()), s, vp / NPT, t), s, {});
      mem := mem[t := ZeroPage()];
      mem := SetEntry(mem, s, vp / NPT, Entry(t, 7));
    }

    /** One turn of mappages' loop, k pages into a run that started at `first` on memory h with `frames` free. */
    method MapNext(s: nat, vp: nat, b: nat, flags: nat, ghost h: Phys, ghost frames: nat, ghost first: nat, ghost k: nat) returns (r: MapResult)
      requires Valid() && Sound(h) && s in h.dirs && vp == first + k < NVP && k <= b < 0x10_0000 && flags < PGSIZE && flags % 2 == 1
      requires first < KERNPAGE ==> vp < KERNPAGE && Loose(h, b)
      requires Mapped(h, H(), s, first, k, b - k, flags) && Opened(Tabs(h.m, s), frames, Tabs(mem, s), |freelist|, Indices(first, vp))
      modifies `mem, `freelist
      ensures Valid() && Mapped(h, H(), s, first, if r.Done? then k + 1 else k, b - k, flags)
      ensures Opened(Tabs(h.m, s), frames, Tabs(mem, s), |freelist|, Indices(first, if r.NoMemory? then vp else vp + 1))
      ensures r.NoMemory? ==> freelist == [] && vp / NPT !in Tabs(mem, s)
      ensures r.Remap? ==> Present(Pte(h.m, s, vp))
    {
      hide Step, Sound, Pte, Present, Loose, PutPte, Mapped, Walked, Node, Tabs, Indices, Opened;
      MappedSound(h, H(), s, first, k, b - k, flags);
      ghost var h1, f1 := H(), |freelist|;
      var ok, t := Walkpgdir(s, vp, true);
      if !ok {
        assert H() == h1;
        return NoMemory;
      }
      TableThere(H(), s, vp);
      OpenedNext(Tabs(h.m, s), frames, Tabs(h1.m, s), f1, Tabs(mem, s), |freelist|, first, vp);
      if Present(mem[t].at[vp % NPT]) {
        MappedWalk(h, h1, H(), s, first, k, b - k, flags);
        return Remap;
      }
      ghost var h2 := H();
      mem := SetEntry(mem, t, vp % NPT, Entry(b, flags));
      MappedOne(h, h1, h2, H(), s, first, k, b - k, flags);
      TabsSame(h2.m, mem, s);
      MappedSound(h, H(), s, first, k + 1, b - k, flags);
      return Done;
    }

    /** mappages: entries for consecutive pages and frames, as far as page tables can be had. */
    method Mappages(s: nat, va: Word, size: Word, pa: Word, perm: nat) returns (r: MapResult, ghost k: nat)
      requires Valid() && s in dirs && 1 <= size && va + size <= 0x1_0000_0000 && pa % PGSIZE == 0 && perm < PGSIZE
      requires pa / PGSIZE + ((va + size - 1) / PGSIZE - va / PGSIZE) < 0x10_0000
      requires va < KERNBASE ==> va + size <= KERNBASE && InHand(H(), pa / PGSIZE, (va + size - 1) / PGSIZE - va / PGSIZE + 1)
      modifies `mem, `freelist
      ensures Valid() && Mapped(old(H()), H(), s, va / PGSIZE, k, pa / PGSIZE, WithP(perm))
      ensures k <= (va + size - 1) / PGSIZE - va / PGSIZE + 1
      ensures r.Done? <==> k == (va + size - 1) / PGSIZE - va / PGSIZE + 1
      ensures r.NoMemory? ==> freelist == [] && (va / PGSIZE + k) / NPT !in Tabs(mem, s)
      ensures r.Remap? ==> va / PGSIZE + k < NVP && Present(Pte(old(mem), s, va / PGSIZE + k))
      ensures Opened(Tabs(old(mem), s), |old(freelist)|, Tabs(mem, s), |freelist|,
                     Indices(va / PGSIZE, va / PGSIZE + k + if r.Remap? then 1 else 0))
    {
      hide Step, Sound, Pte, Present, Loose, Mapped, Walked, Node, Tabs, Indices, Opened;
      ghost var first, end, fr, flags := va / PGSIZE, (va + size - 1) / PGSIZE, pa / PGSIZE, WithP(perm);
      var a, last, p := va / PGSIZE * PGSIZE, (va + size - 1) / PGSIZE * PGSIZE, pa;
      k := 0;
      MappedStart(H(), s, first, fr, flags);
      OpenedNone(Tabs(mem, s), |freelist|, first);
      while true
        invariant Valid() && first + k <= end && a == (first + k) * PGSIZE && p == (fr + k) * PGSIZE
        invariant Mapped(old(H()), H(), s, first, k, fr, flags)
        invariant Opened(Tabs(old(mem), s), |old(freelist)|, Tabs(mem, s), |freelist|, Indices(first, first + k))
        decreases end - k
      {
        r := MapNext(s, a / PGSIZE, p / PGSIZE, WithP(perm), old(H()), |old(freelist)|, first, k);
        if !r.Done? {
          return r, k;
        }
        k := k + 1;
        if a == last {
          return Done, k;
        }
        a, p := a + PGSIZE, p + PGSIZE;
      }
    }

    /** mappages of one user page to one frame, as allocuvm and copyuvm use it. */
    method MapPage(s: nat, vp: nat, b: nat, perm: nat) returns (r: MapResult, ghost k: nat)
      requires Valid() && s in dirs && vp < KERNPAGE && perm < PGSIZE && Loose(H(), b)
      modifies `mem, `freelist
      ensures Valid() && k <= 1 && Mapped(old(H()), H(), s, vp, k, b, WithP(perm)) && (r.Done? <==> k == 1)
      ensures r.Remap? ==> Present(Pte(old(mem), s, vp))
      ensures r.NoMemory? <==> vp / NPT !in Tabs(old(mem), s) && old(freelist) == []
      ensures !r.NoMemory? ==> Tabs(mem, s) == Tabs(old(mem), s) + {vp / NPT}
      ensures |freelist| == |old(freelist)| - (if !r.NoMemory? && vp / NPT !in Tabs(old(mem), s) then 1 else 0)
    {
      hide Sound, Loose, Mapped, Pte, Present, Node, Tabs, Indices, Opened;
      MemoryBound(H(), b);
      assert InHand(H(), b, 1);
      assert vp * PGSIZE / PGSIZE == vp && (vp * PGSIZE + PGSIZE - 1) / PGSIZE == vp && b * PGSIZE / PGSIZE == b;
      r, k := Mappages(s, vp * PGSIZE, PGSIZE, b * PGSIZE, perm);
      ghost var n := k + if r.Remap? then 1 else 0;
      OpenedSingle(Tabs(old(mem), s), |old(freelist)|, Tabs(mem, s), |freelist|, vp, n);
      if n == 1 {
        OpenedOne(Tabs(old(mem), s), |old(freelist)|, Tabs(mem, s), |freelist|, vp / NPT);
      }
    }

    /** kfree: junk in the page, the frame at the head of the free list. */
    method Kfree(b: nat)
      requires 0 < b < |mem|
      modifies `mem, `freelist
      ensures mem == old(mem)[b := JunkPage()] && freelist == [b] + old(freelist)
      ensures H().free == old(H().free) + {b}
      ensures old(Distinct(freelist)) && b !in old(freelist) ==> Distinct(freelist)
    {
      mem := mem[b := JunkPage()];
      freelist := [b] + freelist;
    }

    /** The body of deallocuvm's loop where there is a page table: a mapped page is unmapped and freed. */
    method DropPage(s: nat, vp: nat, t: nat)
      requires Valid() && s in dirs && vp < KERNPAGE && t == Node(mem, s, Tab(vp / NPT)) != 0
      modifies `mem, `freelist
      ensures if old(Present(Pte(mem, s, vp))) then old(Holds(H(), s, vp)) && H() == Removed(old(H()), s, vp) && Distinct(freelist)
              else mem == old(mem) && freelist == old(freelist)
    {
      hide Sound, Node, Pte, Present, SetEntry, JunkPage, Removed;
      TableThere(H(), s, vp);
      var pte := mem[t].at[vp % NPT];
      if Present(pte) {
        PresentHolds(H(), s, vp);
        ghost var h := H();
        FrameInUse(h, s, vp);
        Kfree(pte / PGSIZE);
        mem := SetEntry(mem, t, vp % NPT, 0);
        RemovedIs(h, s, vp, mem);
      }
    }

    /** deallocuvm: the pages from newsz up to oldsz, their frames freed once each. */
    method Deallocuvm(s: nat, oldsz: Word, newsz: Word) returns (r: Word)
      requires Valid() && s in dirs && oldsz <= KERNBASE
      modifies `mem, `freelist
      ensures Valid()
      ensures newsz >= oldsz ==> r == oldsz && mem == old(mem) && freelist == old(freelist)
      ensures newsz < oldsz ==> r == newsz && Shrunk(old(H()), H(), s, RoundUp(newsz), RoundUp(oldsz))
      ensures NoLeak(old(H()), H(), {})
    {
      hide Sound, Shrunk, Node, Pte, Present, Skipped, Cursor, SetEntry, JunkPage;
      if newsz >= oldsz {
        return oldsz;
      }
      ghost var h, a0, end := H(), RoundUp(newsz), RoundUp(oldsz);
      ShrunkStart(h, s, a0);
      CursorStart(h.m, s, a0);
      var a := RoundUp(newsz) * PGSIZE;
      while a < oldsz
        invariant a % PGSIZE == 0 && a0 <= a / PGSIZE && Valid() && Cursor(h.m, s, a0, a / PGSIZE)
        invariant Shrunk(h, H(), s, a0, if a / PGSIZE < end then a / PGSIZE else end)
      {
        ghost var v := a / PGSIZE;
        ShrunkTabs(h, H(), s, a0, v);
        var ok, t := Walkpgdir(s, a / PGSIZE, false);
        if !ok {
          JumpOver(h, H(), s, a0, v, end);
          a := a + (NPT - 1) * PGSIZE;
        } else {
          CursorStep(h.m, s, a0, v);
          ghost var h1 := H();
          DropPage(s, a / PGSIZE, t);
          Dropped(h, h1, H(), s, a0, v);
        }
        a := a + PGSIZE;
      }
      ShrunkSound(h, H(), s, a0, end);
      return newsz;
    }

    /** What allocuvm's loop does with the frame kalloc gave it; the result of mappages is ignored. */
    method FillAndMap(s: nat, vp: nat, b: nat, ghost h: Phys, ghost frames: nat, ghost h1: Phys, ghost lo: nat, ghost hi: nat) returns (ghost hole: bool)
      requires Sound(h) && s in h.dirs && lo <= vp < hi <= KERNPAGE && Clear(h.m, s, lo, hi)
      requires Grows(h, frames, h1, |freelist| + 1, s, lo, vp)
      requires b in h1.free && H() == h1.(free := h1.free - {b}) && Distinct(freelist)
      modifies `mem, `freelist
      ensures Valid()
      ensures !hole ==> Grows(h, frames, H(), |freelist|, s, lo, vp + 1)
      ensures hole ==> Holed(h, frames, H(), s, lo, vp, b) && freelist == []
    {
      hide Sound, Growing, Grows, Holed, Clear, Pte, Present, Mapped, Node, Loose, Step, Filled, NoLeak, Tabs, Indices;
      ghost var f1 := |freelist| + 1;
      GrowsFacts(h, frames, h1, f1, s, lo, vp);
      FilledStep(h1, s, b, ZeroPage());
      FilledTabs(h1, b, ZeroPage(), s);
      mem := mem[b := ZeroPage()];
      ghost var h2 := H();
      FilledIs(h1, b, ZeroPage(), h2);
      WalkedSound(h1, h2, s);
      var res;
      ghost var k;
      res, k := MapPage(s, vp, b, PTE_W + PTE_U);
      GrowsClear(h, frames, h1, f1, h2, s, lo, vp, hi);
      hole := k != 1;
      if k == 1 {
        GrowsNext(h, frames, h1, f1, h2, H(), |freelist|, s, lo, vp, b);
      } else {
        GrowsHoled(h, frames, h1, h2, H(), s, lo, vp, b, hi);
      }
    }

    /**
     allocuvm: zeroed pages from oldsz up to newsz if there are frames for them and their page tables.
     One frame short with the last page opening a page table, it reports success with that page unmapped.
     A frame is lost exactly when the list runs out between a page and the page table it opens.
     */
    method Allocuvm(s: nat, oldsz: Word, newsz: Word) returns (r: Word)
      requires Valid() && s in dirs && Clear(mem, s, RoundUp(oldsz), RoundUp(newsz))
      modifies `mem, `freelist
      ensures Valid()
      ensures newsz >= KERNBASE ==> r == 0 && mem == old(mem) && freelist == old(freelist)
      ensures newsz < KERNBASE && newsz < oldsz ==> r == oldsz && mem == old(mem) && freelist == old(freelist)
      ensures oldsz <= newsz < KERNBASE ==>
                var T, frames, lo, hi := Tabs(old(mem), s), |old(freelist)|, RoundUp(oldsz), RoundUp(newsz);
                && (Demand(T, lo, hi) <= frames ==> r == newsz && Grows(old(H()), frames, H(), |freelist|, s, lo, hi))
                && (lo < hi && LosesAt(T, frames, lo, hi - 1) ==>
                      r == newsz && Growing(old(H()), H(), s, lo, hi - 1) && !Present(Pte(mem, s, hi - 1)) && freelist == [])
                && (Demand(T, lo, hi) > frames && !LosesAt(T, frames, lo, hi - 1) ==> r == 0 && UserSame(old(H()), H(), s))
                && (if Loses(T, frames, lo, hi) then OneLost(old(H()), H()) else NoLeak(old(H()), H(), {}))
    {
      hide Sound, Growing, Grows, Holed, UserSame, Clear, Pte, Present, Node, Loose, Step, NoLeak, Tabs, Indices, Demand, Loses, LosesAt, OneLost;
      if newsz >= KERNBASE {
        return 0;
      }
      if newsz < oldsz {
        return oldsz;
      }
      ghost var h, lo, hi, T, frames := H(), RoundUp(oldsz), RoundUp(newsz), Tabs(mem, s), |freelist|;
      ghost var hole, b := false, 0;
      GrowsStart(h, frames, s, lo);
      var a := RoundUp(oldsz) * PGSIZE;
      while a < newsz
        invariant a % PGSIZE == 0 && lo <= a / PGSIZE <= hi && Valid()
        invariant !hole ==> Grows(h, frames, H(), |freelist|, s, lo, a / PGSIZE)
        invariant hole ==> lo < a / PGSIZE && Holed(h, frames, H(), s, lo, a / PGSIZE - 1, b) && freelist == []
      {
        ghost var v, h1 := a / PGSIZE, H();
        if hole {
          HoledFacts(h, frames, h1, s, lo, v - 1, b);
        } else {
          GrowsFacts(h, frames, h1, |freelist|, s, lo, v);
        }
        var ok, frame := Kalloc();
        if !ok {
          var _ := Deallocuvm(s, newsz, oldsz);
          RollBack(h, h1, H(), s, lo, if hole then v - 1 else v, hi);
          if hole {
            HoledBack(h, frames, h1, H(), s, lo, v - 1, hi, b);
          } else {
            GrowsBack(h, frames, h1, H(), s, lo, v, hi);
          }
          return 0;
        }
        b := frame;
        hole := FillAndMap(s, a / PGSIZE, frame, h, frames, h1, lo, hi);
        a := a + PGSIZE;
      }
      if hole {
        HoledEnd(h, frames, H(), s, lo, hi, b);
      } else {
        GrowsEnd(h, frames, H(), |freelist|, s, lo, hi);
      }
      return newsz;
    }

    /** freevm: every frame of the space goes back on the free list, once. */
    method Freevm(s: nat)
      requires Valid() && s in dirs
      modifies this
      ensures Valid() && dirs == old(dirs) - {s} && SpacesKept(old(mem), mem, dirs)
      ensures H().free == old(H().free) + OwnedFrames(old(mem), s)
      ensures NoLeak(old(H()), H(), {})
      ensures forall c: nat :: old(Loose(H(), c)) ==> Loose(H(), c)
    {
      hide Sound, Shrunk, Freeing, Node, Present, JunkPage, Loose, SpacesKept, Owns, GoneFrame, TabFrame;
      ghost var h := H();
      var _ := Deallocuvm(s, KERNBASE, 0);
      ghost var h1 := H();
      FreevmMiddle(h, h1, s);
      dirs := dirs - {s};
      FreeingStart(h1, s);
      var i := 0;
      while i < NPT
        invariant 0 <= i <= NPT && Freeing(h1, H(), s, i) && Distinct(freelist) && dirs == old(dirs) - {s}
      {
        FreeingNext(h1, H(), s, i);
        FreeingDir(h1, H(), s, i);
        if Present(mem[s].at[i]) {
          Kfree(mem[s].at[i] / PGSIZE);
        }
        i := i + 1;
      }
      FreeingEnd(h, h1, H(), s);
      Kfree(s);
    }

    /** setupkvm: a new directory with the kernel's mappings and an empty user half. */
    method Setupkvm(kmap: seq<Kmap>) returns (ok: bool, d: nat)
      requires Valid() && KmapOk(kmap)
      modifies this
      ensures Valid() && SpacesKept(old(mem), mem, old(dirs)) && H().free <= old(H().free)
      ensures forall c: nat :: old(Loose(H(), c)) ==> Loose(H(), c)
      ensures !ok ==> dirs == old(dirs)
      ensures ok ==> d !in old(dirs) && dirs == old(dirs) + {d} && KmapDone(mem, d, kmap, |kmap|)
      ensures ok ==> forall vp :: 0 <= vp < KERNPAGE ==> Pte(mem, d, vp) == 0
      ensures ok ==> NoLeak(old(H()), H(), {})
      ensures ok <==> KernelFrames(kmap) <= |old(freelist)|
      ensures ok ==> |freelist| == |old(freelist)| - KernelFrames(kmap) && Tabs(mem, d) == KernelTabs(kmap, |kmap|)
      ensures !ok ==> freelist == []
    {
      hide Sound, Pte, Present, Mapped, Node, Loose, Step, SpacesKept, KmapDone, NoLeak, Tabs, Indices, Opened, KernelTabs, KernelHalf, KmapOk;
      ghost var h := H();
      SpacesSame(mem, dirs);
      ok, d := Kalloc();
      if !ok {
        return;
      }
      FreshDir(h, d);
      mem := mem[d := ZeroPage()];
      dirs := dirs + {d};
      ghost var h1 := H();
      KmapStart(mem, d, kmap);
      KernelStart(h, h1, d, kmap);
      NoTabs(mem, d, |freelist|, kmap);
      var k := 0;
      while k < |kmap|
        invariant 0 <= k <= |kmap| && Distinct(freelist) && KernelHalf(h, H(), d, kmap, k)
        invariant Opened({}, |old(freelist)| - 1, Tabs(mem, d), |freelist|, KernelTabs(kmap, k))
      {
        ghost var h2, f2 := H(), |freelist|;
        KernelSound(h, h2, d, kmap, k);
        RangeIsOk(kmap, k);
        var res;
        ghost var n;
        res, n := Mappages(d, kmap[k].va, kmap[k].size, kmap[k].pa, kmap[k].perm);
        KernelStep(h, h2, H(), d, kmap, k, n);
        if !res.Done? {
          NoRemap(h, h2, d, kmap, k, n);
          KernelStops(kmap, k, n, |old(freelist)| - 1, Tabs(h2.m, d), f2, Tabs(mem, d));
          DropKernel(h, H(), d);
          dirs := dirs - {d};
          return false, 0;
        }
        KernelOpens(kmap, k, |old(freelist)| - 1, Tabs(h2.m, d), f2, Tabs(mem, d), |freelist|);
        k := k + 1;
      }
      KernelSound(h, H(), d, kmap, k);
      KernelDone(kmap, |old(freelist)| - 1, Tabs(mem, d), |freelist|);
    }

    /** One page of copyuvm: a frame with the page's contents, mapped with the page's flags. */
    method CopyPage(s: nat, d: nat, vp: nat, pte: Word, ghost m0: Memory, ghost D: set<nat>, ghost K: set<nat>, ghost frames: nat)
      returns (ok: bool, ghost lost: set<nat>)
      requires Valid() && Copies(m0, H(), D, s, d, vp, K, frames, |freelist|) && vp < KERNPAGE && pte == Pte(mem, s, vp) && Present(pte)
      modifies `mem, `freelist
      ensures Valid() && H().free <= old(H().free)
      ensures ok ==> Copies(m0, H(), D, s, d, vp + 1, K, frames, |freelist|)
      ensures !ok ==> Copying(m0, H(), D, s, d, vp)
      ensures !ok ==> if LosesAt(K, frames, 0, vp) then LostOne(old(H()), H(), lost) else lost == {} && frames == Demand(K, 0, vp)
      ensures NoLeak(old(H()), H(), lost) && (ok ==> lost == {}) && LooseStay(old(H()), H())
    {
      hide Sound, Pte, Present, Copying, Copies, NoLeak, LooseStay, Tabs, LosesAt, Demand, LostOne, Node;
      lost := {};
      NoLeakSame(H());
      LooseSame(H());
      CopiesFacts(m0, H(), D, s, d, vp, K, frames, |freelist|);
      CopyingFacts(m0, H(), D, s, d, vp);
      ghost var h1 := H();
      var b;
      ok, b := Kalloc();
      if ok {
        ok, lost := CopyInto(s, d, vp, b, pte, h1, m0, D, K, frames);
      }
    }

    /** What copyuvm's loop does with the frame kalloc gave it. */
    method CopyInto(s: nat, d: nat, vp: nat, b: nat, pte: Word, ghost h1: Phys, ghost m0: Memory, ghost D: set<nat>, ghost K: set<nat>, ghost frames: nat)
      returns (ok: bool, ghost lost: set<nat>)
      requires Sound(h1) && Copies(m0, h1, D, s, d, vp, K, frames, |freelist| + 1) && vp < KERNPAGE && pte == Pte(h1.m, s, vp) && Present(pte)
      requires b in h1.free && H() == h1.(free := h1.free - {b}) && Distinct(freelist)
      modifies `mem, `freelist
      ensures Valid() && H().free <= h1.free
      ensures ok ==> lost == {} && Copies(m0, H(), D, s, d, vp + 1, K, frames, |freelist|)
      ensures !ok ==> Copying(m0, H(), D, s, d, vp) && LosesAt(K, frames, 0, vp) && LostOne(h1, H(), lost)
      ensures NoLeak(h1, H(), lost) && LooseStay(h1, H())
    {
      hide Sound, Pte, Present, Mapped, Node, Loose, Copying, Copies, Filled, Walked, Distinct, NoLeak, LooseStay, Tabs, LosesAt, Demand, LostOne;
      ghost var f1, flags := |freelist| + 1, WithP(pte % PGSIZE);
      CopiesFacts(m0, h1, D, s, d, vp, K, frames, f1);
      CopyingFacts(m0, h1, D, s, d, vp);
      PresentHolds(h1, s, vp);
      ghost var page := h1.m[pte / PGSIZE];
      CopyingFill(m0, h1, D, s, d, vp, b, page);
      FilledStep(h1, d, b, page);
      FilledTabs(h1, b, page, d);
      SourceKept(h1, s, vp, b);
      mem := mem[b := mem[pte / PGSIZE]];
      ghost var h2 := H();
      FilledIs(h1, b, page, h2);
      CopyingFacts(m0, h2, D, s, d, vp);
      var res;
      ghost var k;
      res, k := MapPage(d, vp, b, pte % PGSIZE);
      ok, lost := res.Done?, {};
      FlagsHaveP(pte);
      MappedSound(h2, H(), d, vp, k, b, flags);
      NotMappedYet(m0, h2, D, s, d, vp);
      if k == 1 {
        CopyingNext(m0, h2, H(), D, s, d, vp, b);
        MappedNoLeak(h1, h2, H(), d, vp, b, flags);
        CopiesNext(m0, h1, H(), D, s, d, vp, K, frames, f1, |freelist|);
      } else {
        CopyLost(m0, h1, h2, H(), D, s, d, vp, b, flags);
        lost := {b};
      }
      LooseThrough(h1, h2, H(), d, vp, k, b, flags);
    }

    /** copyuvm's bad: label. */
    method Undo(s: nat, d: nat, vp: nat, ghost m0: Memory, ghost D: set<nat>, ghost h0: Phys, ghost lost: set<nat>)
      requires Valid() && Copying(m0, H(), D, s, d, vp)
      requires Sound(h0) && h0.m == m0 && h0.dirs == D && NoLeak(h0, H(), lost) && LooseStay(h0, H())
      modifies this
      ensures Valid() && dirs == D && SpacesKept(m0, mem, D)
      ensures lost == {} ==> H().free == h0.free
      ensures LostOne(h0, old(H()), lost) ==> OneLost(h0, H()) && H().free != h0.free
    {
      hide Sound, Node, Loose, Copying, SpacesKept, Distinct, Owns, NoLeak;
      ghost var h1 := H();
      CopyingFacts(m0, H(), D, s, d, vp);
      ghost var m1 := mem;
      Freevm(d);
      DirsBack(D, d);
      SpacesKeptThen(m0, m1, mem, D);
      NoLeakThen(h0, h1, H(), lost, {});
      assert lost + {} == lost;
      if lost == {} {
        FreeRestored(h0, H());
      }
      if LostOne(h0, h1, lost) {
        LostStays(h0, h1, H(), lost);
      }
    }

    /** The body of copyuvm's loop: a page that is not there, a page copied, or no frame left. */
    method CopyNext(s: nat, d: nat, vp: nat, ghost m0: Memory, ghost D: set<nat>, ghost K: set<nat>, ghost frames: nat)
      returns (turn: Turn, ghost lost: set<nat>)
      requires Valid() && Copies(m0, H(), D, s, d, vp, K, frames, |freelist|) && vp < KERNPAGE
      modifies `mem, `freelist
      ensures Valid() && H().free <= old(H().free) && NoLeak(old(H()), H(), lost) && LooseStay(old(H()), H())
      ensures turn.Hole? ==> !Present(Pte(m0, s, vp))
      ensures turn.OnePage? ==> lost == {} && Copies(m0, H(), D, s, d, vp + 1, K, frames, |freelist|)
      ensures turn.Full? ==> Copying(m0, H(), D, s, d, vp)
      ensures turn.Full? ==> if LosesAt(K, frames, 0, vp) then LostOne(old(H()), H(), lost) else lost == {} && frames == Demand(K, 0, vp)
    {
      hide Sound, Pte, Present, Node, Loose, Copying, Copies, Distinct, Walked, NoLeak, LooseStay, Tabs, Demand, LosesAt, LostOne;
      lost := {};
      NoLeakSame(H());
      LooseSame(H());
      CopiesFacts(m0, H(), D, s, d, vp, K, frames, |freelist|);
      CopyingFacts(m0, H(), D, s, d, vp);
      SourcePte(m0, H(), D, s, d, vp);
      var there, t := Walkpgdir(s, vp, false);
      if !there {
        AbsentTable(mem, s, vp);
        return Hole, lost;
      }
      TableThere(H(), s, vp);
      var pte := mem[t].at[vp % NPT];
      if !Present(pte) {
        return Hole, lost;
      }
      var ok;
      ok, lost := CopyPage(s, d, vp, pte, m0, D, K, frames);
      turn := if ok then OnePage else Full;
    }

    /**
     copyuvm: a new space with the same user pages; a page missing below sz panics.  Without enough frames
     the free list is as it was, unless setupkvm failed half way or a page got its frame and no page table.
     */
    method Copyuvm(s: nat, sz: Word, kmap: seq<Kmap>) returns (r: CopyResult)
      requires Valid() && s in dirs && sz <= KERNBASE && KmapOk(kmap)
      modifies this
      ensures r.Copied? ==> Valid() && Copying(old(mem), H(), old(dirs), s, r.d, RoundUp(sz))
      ensures r.Copied? ==> NoLeak(old(H()), H(), {})
      ensures r.NoSpace? ==> Valid() && dirs == old(dirs) && SpacesKept(old(mem), mem, dirs)
      ensures r.Panicked? ==> exists vp :: 0 <= vp < RoundUp(sz) && !Present(Pte(old(mem), s, vp))
      ensures var K, frames, n := KernelTabs(kmap, |kmap|), |old(freelist)| - KernelFrames(kmap), RoundUp(sz);
              && (r.Copied? ==> Demand(K, 0, n) <= frames)
              && (r.NoSpace? ==> frames < Demand(K, 0, n))
              && (r.NoSpace? ==> (H().free == old(H().free) <==> old(freelist) == [] || (0 <= frames && !Loses(K, frames, 0, n))))
              && (r.NoSpace? && 0 <= frames && Loses(K, frames, 0, n) ==> OneLost(old(H()), H()))
    {
      hide Sound, Pte, Present, Node, Loose, Copying, SpacesKept, KmapDone, Distinct, NoLeak, Tabs, Indices, Demand, Loses, LosesAt, OneLost, KernelTabs, KmapOk, LostOne;
      ghost var m0, D, h0, K := mem, dirs, H(), KernelTabs(kmap, |kmap|);
      var ok, d := Setupkvm(kmap);
      if !ok {
        EmptyOrNot(old(freelist));
        return NoSpace;
      }
      ghost var frames := |freelist|;
      assert LooseStay(h0, H());
      CopyingStart(m0, H(), D, s, d);
      CopiesStart(m0, H(), D, s, d, K, frames);
      var i := 0;
      ghost var v := 0;
      while i < sz
        invariant i == v * PGSIZE && v <= RoundUp(sz) && Valid() && dirs == D + {d} && s in D
        invariant Copies(m0, H(), D, s, d, v, K, frames, |freelist|) && H().free <= h0.free
        invariant NoLeak(h0, H(), {}) && LooseStay(h0, H())
      {
        var vp := i / PGSIZE;
        assert vp == v;
        var turn;
        ghost var lost, h1 := {}, H();
        turn, lost := CopyNext(s, d, vp, m0, D, K, frames);
        if turn.Hole? {
          return Panicked;
        }
        NoLeakThen(h0, h1, H(), {}, lost);
        assert {} + lost == lost;
        if turn.Full? {
          CopyStops(K, frames, vp, RoundUp(sz));
          LostEarlier(h0, h1, H(), lost);
          Undo(s, d, vp, m0, D, h0, lost);
          return NoSpace;
        }
        i, v := i + PGSIZE, v + 1;
      }
      return Copied(d);
    }
  }

  datatype Turn = Hole | OnePage | Full

  datatype CopyResult = Copied(d: nat) | NoSpace | Panicked

  /** A range the kernel maps in every address space. */
  datatype Kmap = Kmap(va: Word, size: Word, pa: Word, perm: nat) {
    function First(): (r: nat) { va / PGSIZE }
    function Pages(): (r: int) { (va + size - 1) / PGSIZE - va / PGSIZE + 1 }
  }

  predicate RangeOk(e: Kmap) {
    KERNBASE <= e.va && 1 <= e.size && e.va + e.size <= 0x1_0000_0000 && e.pa % PGSIZE == 0 && e.perm < PGSIZE
    && e.pa / PGSIZE + e.Pages() <= 0x10_0000
  }

  /** The ranges share no page: mappages would panic on one. */
  predicate KmapOk(kmap: seq<Kmap>) {
    && (forall k :: 0 <= k < |kmap| ==> RangeOk(kmap[k]))
    && forall j, k :: 0 <= j < k < |kmap| ==>
         kmap[j].First() + kmap[j].Pages() <= kmap[k].First() || kmap[k].First() + kmap[k].Pages() <= kmap[j].First()
  }

  /** The page tables the first n ranges lie in. */
  ghost function KernelTabs(kmap: seq<Kmap>, n: nat): (r: set<nat>)
    requires n <= |kmap| && KmapOk(kmap)
  {
    if n == 0 then {} else
      assert RangeOk(kmap[n - 1]);
      KernelTabs(kmap, n - 1) + Indices(kmap[n - 1].First(), kmap[n - 1].First() + kmap[n - 1].Pages())
  }

  /** What setupkvm takes: the directory and the page tables of the kernel half. */
  ghost function KernelFrames(kmap: seq<Kmap>): (r: nat)
    requires KmapOk(kmap)
  {
    1 + |KernelTabs(kmap, |kmap|)|
  }

  ghost predicate InRange(e: Kmap, vp: int) {
    e.First() <= vp < e.First() + e.Pages()
  }

  /** Every page of the range is mapped as the table says. */
  ghost predicate RangeDone(m: Memory, d: nat, e: Kmap)
    requires RangeOk(e)
  {
    forall vp :: e.First() <= vp < e.First() + e.Pages() ==>
      Pte(m, d, vp) == Entry(e.pa / PGSIZE + vp - e.First(), WithP(e.perm))
  }

  ghost predicate KmapDone(m: Memory, d: nat, kmap: seq<Kmap>, n: nat)
    requires n <= |kmap| && KmapOk(kmap)
  {
    forall k :: 0 <= k < n ==> RangeDone(m, d, kmap[k])
  }

  /** setupkvm's loop after k ranges. */
  ghost predicate KernelHalf(h: Phys, h': Phys, d: nat, kmap: seq<Kmap>, k: nat)
    requires k <= |kmap| && KmapOk(kmap)
  {
    && Sound(h') && d !in h.dirs && h'.dirs == h.dirs + {d} && h'.free <= h.free && SpacesKept(h.m, h'.m, h.dirs)
    && (forall c: nat :: Loose(h, c) ==> Loose(h', c)) && NoLeak(h, h', {})
    && (forall vp :: 0 <= vp < NVP && (forall j :: 0 <= j < k ==> !InRange(kmap[j], vp)) ==> Pte(h'.m, d, vp) == 0)
    && KmapDone(h'.m, d, kmap, k)
  }

  /** PGROUNDUP, as a page number. */
  function RoundUp(n: nat): (r: nat) {
    (n + PGSIZE - 1) / PGSIZE
  }

  lemma CursorStart(m: Memory, s: nat, a0: nat)
    ensures Cursor(m, s, a0, a0)
  {
  }

  lemma ShrunkTabs(h: Phys, h': Phys, s: nat, a0: nat, v: nat)
    requires Shrunk(h, h', s, a0, v)
    ensures Sound(h') && h'.dirs == h.dirs && s in h.dirs && |h'.m| == |h.m|
    ensures forall i :: 0 <= i < NPT ==> Node(h'.m, s, Tab(i)) == Node(h.m, s, Tab(i))
  {
  }

  lemma FrameInUse(h: Phys, s: nat, vp: nat)
    requires Holds(h, s, vp)
    ensures Node(h.m, s, LeafAt(vp)) !in h.free
  {
    assert InUse(h, s, LeafAt(vp));
  }

  /** The writes of the loop body, in its order, are the removal. */
  lemma RemovedIs(h: Phys, s: nat, vp: nat, m': Memory)
    requires Holds(h, s, vp)
    requires m' == SetEntry(h.m[Node(h.m, s, LeafAt(vp)) := JunkPage()], Node(h.m, s, Tab(vp / NPT)), vp % NPT, 0)
    ensures Removed(h, s, vp) == Phys(m', h.dirs, h.free + {Node(h.m, s, LeafAt(vp))})
  {
    assert Apart(h, s, LeafAt(vp), s, Tab(vp / NPT));
    hide Node, JunkPage;
  }

  lemma Dropped(h: Phys, h1: Phys, h2: Phys, s: nat, a0: nat, v: nat)
    requires Shrunk(h, h1, s, a0, v) && a0 <= v < KERNPAGE && !Skipped(h.m, s, a0, v)
    requires if Present(Pte(h1.m, s, v)) then Holds(h1, s, v) && h2 == Removed(h1, s, v) else h2 == h1
    ensures Shrunk(h, h2, s, a0, v + 1) && Sound(h2)
  {
    hide Node, Pte, Present, Skipped, Shrunk, Removed, Sound, Gone;
    if Present(Pte(h1.m, s, v)) {
      ShrunkNext(h, h1, s, a0, v);
    } else {
      NotGone(h, h1, s, a0, v);
      ShrunkOver(h, h1, s, a0, v, v + 1);
    }
    ShrunkTabs(h, h2, s, a0, v + 1);
  }

  lemma NotGone(h: Phys, h': Phys, s: nat, a0: nat, v: nat)
    requires Shrunk(h, h', s, a0, v) && v < KERNPAGE && !Present(Pte(h'.m, s, v))
    ensures !Gone(h.m, s, a0, v + 1, v)
  {
    assert EntryAfter(h.m, h'.m, s, a0, v, v);
  }

  lemma DirThere(h: Phys, s: nat, i: nat)
    requires Sound(h) && s in h.dirs && i < NPT
    ensures 0 < s < |h.m| <= 0x10_0000
    ensures Node(h.m, s, Tab(i)) == Target(h.m[s].at[i]) && (Present(h.m[s].at[i]) ==> Target(h.m[s].at[i]) != 0)
  {
    assert InUse(h, s, Dir);
    assert EntryOf(h.m, s, Tab(i)) == h.m[s].at[i];
  }

  lemma TableThere(h: Phys, s: nat, vp: nat)
    requires Sound(h) && s in h.dirs && vp < NVP && Node(h.m, s, Tab(vp / NPT)) != 0
    ensures 0 < Node(h.m, s, Tab(vp / NPT)) < |h.m| && Pte(h.m, s, vp) == h.m[Node(h.m, s, Tab(vp / NPT))].at[vp % NPT]
    ensures forall w: Word :: PutPte(h.m, s, vp, w) == SetEntry(h.m, Node(h.m, s, Tab(vp / NPT)), vp % NPT, w)
  {
    assert InUse(h, s, Tab(vp / NPT));
  }

  lemma StepSame(h: Phys, s: nat)
    requires Sound(h) && s in h.dirs
    ensures Step(h, h, s, {})
  {
  }

  lemma MappedStart(h: Phys, s: nat, a: nat, fr: nat, flags: nat)
    requires Sound(h) && s in h.dirs && a <= NVP && fr <= 0x10_0000 && flags < PGSIZE && flags % 2 == 1
    ensures Mapped(h, h, s, a, 0, fr, flags)
  {
    StepSame(h, s);
    StepFresh(h, h, s, {}, if a < KERNPAGE then Range(fr, 0) else {});
  }

  lemma MappedWalk(h: Phys, h1: Phys, h2: Phys, s: nat, a: nat, n: nat, fr: nat, flags: nat)
    requires Mapped(h, h1, s, a, n, fr, flags) && Walked(h1, h2, s) && NoLeak(h1, h2, {})
    ensures Mapped(h, h2, s, a, n, fr, flags)
    ensures forall vp :: a + n <= vp < NVP ==> Pte(h2.m, s, vp) == Pte(h.m, s, vp)
  {
    hide Step, Pte;
    var X := if a < KERNPAGE then Range(fr, n) else {};
    StepThen(h, h1, h2, s, X, {});
    assert X + {} == X;
    if a < KERNPAGE {
      forall c: nat | fr <= c < fr + n ensures FrameKept(h.m, h2.m, c) && !Loose(h2, c) {
        assert !Loose(h1, c);
        MappedContent(h, h1, h2, s, a, n, fr, flags, {}, c);
      }
    }
  }

  lemma MappedSound(h: Phys, h': Phys, s: nat, a: nat, n: nat, fr: nat, flags: nat)
    requires Mapped(h, h', s, a, n, fr, flags)
    ensures Sound(h') && h'.dirs == h.dirs && h'.free <= h.free && |h'.m| == |h.m|
  {
    hide Sound, Pte;
  }

  lemma FilledIs(h: Phys, b: nat, page: Page, h': Phys)
    requires b < |h.m| && h'.m == h.m[b := page] && h'.dirs == h.dirs && h'.free == h.free - {b}
    ensures h' == Filled(h, b, page)
  {
  }

  lemma WalkedSound(h: Phys, h': Phys, s: nat)
    requires Walked(h, h', s)
    ensures Sound(h') && h'.dirs == h.dirs && |h'.m| == |h.m| && h'.free <= h.free
  {
  }

  lemma MemoryBound(h: Phys, b: nat)
    requires Sound(h) && Loose(h, b)
    ensures 0 < b < 0x10_0000
  {
  }

  lemma FreevmMiddle(h: Phys, h1: Phys, s: nat)
    requires Shrunk(h, h1, s, RoundUp(0), RoundUp(KERNBASE))
    ensures Sound(h1) && s in h1.dirs && h1.dirs == h.dirs && Shrunk(h, h1, s, 0, KERNPAGE)
  {
    hide Sound, LooseBut, EntryAfter;
  }

  /** The directory page is intact while its page tables are freed. */
  lemma FreeingDir(h: Phys, h': Phys, s: nat, i: nat)
    requires Freeing(h, h', s, i) && i < NPT
    ensures 0 < s < |h'.m| && h'.m[s] == h.m[s] && Sound(h')
    ensures Node(h.m, s, Tab(i)) == Target(h'.m[s].at[i]) && (Present(h'.m[s].at[i]) ==> Target(h'.m[s].at[i]) != 0)
  {
    DirThere(h, s, i);
  }

  lemma FreeingEnd(h: Phys, h1: Phys, h2: Phys, s: nat)
    requires Shrunk(h, h1, s, 0, KERNPAGE) && Freeing(h1, h2, s, NPT)
    ensures 0 < s < |h2.m| && s !in h2.free
    ensures var h3 := Phys(h2.m[s := JunkPage()], h2.dirs, h2.free + {s});
            Sound(h3) && h3.free == h.free + OwnedFrames(h.m, s) && SpacesKept(h.m, h3.m, h3.dirs)
            && NoLeak(h, h3, {}) && forall c: nat :: Loose(h, c) ==> Loose(h3, c)
  {
    hide Node, JunkPage, EntryAfter, Owns, GoneFrame, TabFrame, Loose, Sound;
    FreevmNoLeak(h, h1, h2, s);
    LooseFacts(h2, s);
    FreeLoose(h2, s);
    AllFrames(h, h1, s);
    var h3 := Phys(h2.m[s := JunkPage()], h2.dirs, h2.free + {s});
    OthersAreSpaces(h, h1, s);
    SpacesKeptThen(h.m, h1.m, h2.m, h2.dirs);
    SpacesKeptThen(h.m, h2.m, h3.m, h2.dirs);
    DirNotLoose(h, s);
  }

  /** Nothing of the space is left in hand once its directory is freed. */
  lemma FreevmNoLeak(h: Phys, h1: Phys, h2: Phys, s: nat)
    requires Shrunk(h, h1, s, 0, KERNPAGE) && Freeing(h1, h2, s, NPT)
    ensures NoLeak(h, h2, {s})
  {
    hide Shrunk, Owns, Loose, Node, TabFrame, Sound;
    ShrunkSound(h, h1, s, 0, KERNPAGE);
    forall c: nat | Loose(h2, c) && c != s ensures Loose(h, c) {
      LooseFacts(h2, c);
      if Owns(h1.m, s, c) {
        OwnsTables(h, h1, s, c);
      }
    }
  }

  lemma NoLeakSame(h: Phys)
    ensures NoLeak(h, h, {})
  {
  }

  lemma DirNotLoose(h: Phys, s: nat)
    requires Sound(h) && s in h.dirs
    ensures !Loose(h, s)
  {
    assert Node(h.m, s, Dir) == s;
  }

  lemma OthersAreSpaces(h: Phys, h': Phys, s: nat)
    requires OthersKept(h, h', s)
    ensures SpacesKept(h.m, h'.m, h.dirs - {s})
  {
  }

  lemma SpacesSame(m: Memory, D: set<nat>)
    ensures SpacesKept(m, m, D)
  {
  }

  lemma KmapStart(m: Memory, d: nat, kmap: seq<Kmap>)
    requires KmapOk(kmap)
    ensures KmapDone(m, d, kmap, 0)
  {
  }

  /** A zeroed frame from the free list becomes a directory. */
  lemma FreshDir(h: Phys, d: nat)
    requires Sound(h) && d in h.free
    ensures 0 < d < |h.m| && d !in h.dirs
    ensures var h1 := Phys(h.m[d := ZeroPage()], h.dirs + {d}, h.free - {d});
            Sound(h1) && SpacesKept(h.m, h1.m, h.dirs) && (forall c: nat :: Loose(h, c) ==> Loose(h1, c)) && NoLeak(h, h1, {})
            && forall vp :: 0 <= vp < NVP ==> Pte(h1.m, d, vp) == 0
  {
    var h0, m1 := h.(free := h.free - {d}), h.m[d := ZeroPage()];
    hide ZeroPage;
    forall u, p | u in h.dirs && OkPos(p) ensures InUse(h0, u, p) && Node(h.m, u, p) != d {
      assert InUse(h, u, p);
    }
    assert Sound(h0) by {
      hide Node, EntryOf;
      forall t, p, u, q | t in h.dirs && u in h.dirs && OkPos(p) && OkPos(q) ensures Apart(h0, t, p, u, q) {
        assert Apart(h, t, p, u, q);
      }
    }
    assert TablesKept(h0, m1);
    TablesKeepSound(h0, m1, h0.free);
    var h2 := h0.(m := m1);
    assert Node(m1, d, Dir) == d;
    hide Node;
    assert Loose(h2, d);
    AddSpace(h2, d);
    var h1 := Phys(m1, h.dirs + {d}, h.free - {d});
    forall c: nat | Loose(h1, c) ensures Loose(h, c) {
      assert c != d;
    }
  }

  lemma KernelStart(h: Phys, h1: Phys, d: nat, kmap: seq<Kmap>)
    requires Sound(h) && d in h.free && d < |h.m| && h1 == Phys(h.m[d := ZeroPage()], h.dirs + {d}, h.free - {d}) && KmapOk(kmap)
    ensures KernelHalf(h, h1, d, kmap, 0)
  {
    hide Sound, Loose, Pte, SpacesKept;
    FreshDir(h, d);
  }

  lemma NoTabs(m: Memory, d: nat, f: nat, kmap: seq<Kmap>)
    requires 0 < d < |m| && m[d] == ZeroPage() && KmapOk(kmap)
    ensures Opened({}, f, Tabs(m, d), f, KernelTabs(kmap, 0))
  {
    hide KmapOk;
    assert Tabs(m, d) == {};
  }

  lemma RangeIsOk(kmap: seq<Kmap>, k: nat)
    requires KmapOk(kmap) && k < |kmap|
    ensures RangeOk(kmap[k])
  {
  }

  /** The page tables of one more range are there. */
  lemma KernelOpens(kmap: seq<Kmap>, k: nat, F: nat, T1: set<nat>, f1: nat, T2: set<nat>, f2: nat)
    requires KmapOk(kmap) && k < |kmap| && RangeOk(kmap[k]) && Opened({}, F, T1, f1, KernelTabs(kmap, k))
    requires Opened(T1, f1, T2, f2, Indices(kmap[k].First(), kmap[k].First() + kmap[k].Pages()))
    ensures Opened({}, F, T2, f2, KernelTabs(kmap, k + 1))
  {
    hide KmapOk, Indices;
  }

  lemma {:induction false} KernelTabsGrow(kmap: seq<Kmap>, k: nat, n: nat)
    requires KmapOk(kmap) && k <= n <= |kmap|
    ensures KernelTabs(kmap, k) <= KernelTabs(kmap, n)
  {
    hide KmapOk, Indices;
    if k < n {
      KernelTabsGrow(kmap, k, n - 1);
      RangeIsOk(kmap, n - 1);
    }
  }

  lemma KernelDone(kmap: seq<Kmap>, F: nat, T: set<nat>, f: nat)
    requires KmapOk(kmap) && Opened({}, F, T, f, KernelTabs(kmap, |kmap|))
    ensures T == KernelTabs(kmap, |kmap|) && f + KernelFrames(kmap) == F + 1
  {
    hide KmapOk, KernelTabs;
  }

  /** A page of a range lies in a page table setupkvm needs, and so do the pages before it. */
  lemma KernelNeeds(kmap: seq<Kmap>, k: nat, n: nat)
    requires KmapOk(kmap) && k < |kmap| && RangeOk(kmap[k]) && n < kmap[k].Pages()
    ensures var first, all := kmap[k].First(), KernelTabs(kmap, |kmap|);
            KernelTabs(kmap, k) + Indices(first, first + n) <= all && (first + n) / NPT in all
  {
    hide KmapOk, Indices;
    var first := kmap[k].First();
    IndicesGrow(first, first + n, first + kmap[k].Pages());
    KernelTabsGrow(kmap, k + 1, |kmap|);
  }

  /** mappages ran out of frames inside range k: setupkvm needs more than there were. */
  lemma KernelStops(kmap: seq<Kmap>, k: nat, n: nat, F: nat, T1: set<nat>, f1: nat, T2: set<nat>)
    requires KmapOk(kmap) && k < |kmap| && RangeOk(kmap[k]) && n < kmap[k].Pages() && Opened({}, F, T1, f1, KernelTabs(kmap, k))
    requires Opened(T1, f1, T2, 0, Indices(kmap[k].First(), kmap[k].First() + n)) && (kmap[k].First() + n) / NPT !in T2
    ensures F + 1 < KernelFrames(kmap)
  {
    hide KmapOk, KernelTabs, Indices;
    KernelNeeds(kmap, k, n);
    StrictSubset(T2, KernelTabs(kmap, |kmap|), (kmap[k].First() + n) / NPT);
  }

  lemma StrictSubset(A: set<nat>, B: set<nat>, i: nat)
    requires A <= B && i in B && i !in A
    ensures |A| < |B|
  {
    var C := A + {i};
    assert B == C + (B - C);
    assert |C| == |A| + 1;
  }

  /** The ranges are apart, so mappages meets no present entry. */
  lemma NoRemap(h: Phys, h': Phys, d: nat, kmap: seq<Kmap>, k: nat, n: nat)
    requires k < |kmap| && KmapOk(kmap) && KernelHalf(h, h', d, kmap, k) && n < kmap[k].Pages()
    ensures kmap[k].First() + n < NVP && !Present(Pte(h'.m, d, kmap[k].First() + n))
  {
    hide Sound, Pte, SpacesKept, Loose, KmapDone;
    RangeIsOk(kmap, k);
    NothingPresent();
    assert forall j :: 0 <= j < k ==> !InRange(kmap[j], kmap[k].First() + n);
  }

  lemma KernelSound(h: Phys, h': Phys, d: nat, kmap: seq<Kmap>, k: nat)
    requires k <= |kmap| && KmapOk(kmap) && KernelHalf(h, h', d, kmap, k)
    ensures Sound(h') && d in h'.dirs && h'.free <= h.free && d !in h.dirs && h'.dirs == h.dirs + {d} && SpacesKept(h.m, h'.m, h.dirs)
    ensures KmapDone(h'.m, d, kmap, k) && NoLeak(h, h', {})
    ensures forall c: nat :: Loose(h, c) ==> Loose(h', c)
    ensures forall vp :: 0 <= vp < KERNPAGE ==> Pte(h'.m, d, vp) == 0
  {
    hide Sound, Pte, SpacesKept, Loose, KmapDone;
    forall vp | 0 <= vp < KERNPAGE ensures Pte(h'.m, d, vp) == 0 {
      forall j | 0 <= j < k ensures !InRange(kmap[j], vp) {
        RangeIsOk(kmap, j);
      }
    }
  }

  lemma KernelStep(h: Phys, h1: Phys, h2: Phys, d: nat, kmap: seq<Kmap>, k: nat, n: nat)
    requires k < |kmap| && KmapOk(kmap) && KernelHalf(h, h1, d, kmap, k)
    requires Mapped(h1, h2, d, kmap[k].First(), n, kmap[k].pa / PGSIZE, WithP(kmap[k].perm)) && n <= kmap[k].Pages()
    ensures Sound(h2) && h2.dirs == h.dirs + {d} && h2.free <= h.free && SpacesKept(h.m, h2.m, h.dirs)
    ensures forall c: nat :: Loose(h, c) ==> Loose(h2, c)
    ensures n == kmap[k].Pages() ==> KernelHalf(h, h2, d, kmap, k + 1)
  {
    hide Sound, Step, Pte, Loose, SpacesKept, Present;
    StepSound(h1, h2, d, {});
    StepSpaces(h1, h2, d, {}, h.dirs);
    SpacesKeptThen(h.m, h1.m, h2.m, h.dirs);
    forall c: nat | Loose(h, c) ensures Loose(h2, c) {
      StepLoose(h1, h2, d, {}, c);
    }
    if n == kmap[k].Pages() {
      KmapNext(h1, h2, d, kmap, k);
      forall vp | 0 <= vp < NVP && (forall j :: 0 <= j < k + 1 ==> !InRange(kmap[j], vp)) ensures Pte(h2.m, d, vp) == 0 {
        assert !InRange(kmap[k], vp);
      }
    }
  }

  lemma KmapNext(h1: Phys, h2: Phys, d: nat, kmap: seq<Kmap>, k: nat)
    requires k < |kmap| && KmapOk(kmap) && KmapDone(h1.m, d, kmap, k) && kmap[k].Pages() >= 0
    requires Mapped(h1, h2, d, kmap[k].First(), kmap[k].Pages(), kmap[k].pa / PGSIZE, WithP(kmap[k].perm))
    ensures KmapDone(h2.m, d, kmap, k + 1)
  {
    hide Step, Pte;
    forall j | 0 <= j < k ensures RangeDone(h2.m, d, kmap[j]) {
      assert RangeDone(h1.m, d, kmap[j]);
      var e := kmap[j];
      forall vp | e.First() <= vp < e.First() + e.Pages()
        ensures Pte(h2.m, d, vp) == Entry(e.pa / PGSIZE + vp - e.First(), WithP(e.perm))
      {
        assert Present(Pte(h1.m, d, vp));
      }
    }
  }

  lemma DropKernel(h: Phys, h2: Phys, d: nat)
    requires Sound(h2) && h2.dirs == h.dirs + {d} && d !in h.dirs && (forall c: nat :: Loose(h, c) ==> Loose(h2, c))
    ensures Sound(h2.(dirs := h2.dirs - {d})) && h2.dirs - {d} == h.dirs
    ensures forall c: nat :: Loose(h, c) ==> Loose(h2.(dirs := h2.dirs - {d}), c)
  {
    DropSpace(h2, d);
  }

  lemma CopyingFacts(m: Memory, h: Phys, D: set<nat>, s: nat, d: nat, v: nat)
    requires Copying(m, h, D, s, d, v)
    ensures Sound(h) && s in h.dirs && d in h.dirs && d !in D && h.dirs == D + {d} && SpacesKept(m, h.m, D)
  {
  }

  lemma CopyingStart(m: Memory, h: Phys, D: set<nat>, s: nat, d: nat)
    requires Sound(h) && s in D && d !in D && h.dirs == D + {d} && SpacesKept(m, h.m, D)
    requires forall vp :: 0 <= vp < KERNPAGE ==> Pte(h.m, d, vp) == 0
    ensures Copying(m, h, D, s, d, 0)
  {
    NothingPresent();
    hide Sound, SpacesKept, Pte;
  }

  /** The page being copied is not the frame just taken. */
  lemma SourceKept(h: Phys, s: nat, vp: nat, b: nat)
    requires Holds(h, s, vp) && b in h.free
    ensures 0 < b < |h.m| && Node(h.m, s, LeafAt(vp)) != b
    ensures var page := h.m[Pte(h.m, s, vp) / PGSIZE];
            Filled(h, b, page).m[Node(h.m, s, LeafAt(vp))] == page && Filled(h, b, page).m[b] == page
            && Node(Filled(h, b, page).m, s, LeafAt(vp)) == Node(h.m, s, LeafAt(vp))
            && Pte(Filled(h, b, page).m, s, vp) == Pte(h.m, s, vp)
  {
    assert InUse(h, s, LeafAt(vp));
    var page := h.m[Pte(h.m, s, vp) / PGSIZE];
    FilledStep(h, s, b, page);
    PteIsEntry(h.m, s, vp);
    PteIsEntry(Filled(h, b, page).m, s, vp);
    hide Node, Step, Loose, Sound, Pte;
  }

  lemma SourcePte(m: Memory, h: Phys, D: set<nat>, s: nat, d: nat, v: nat)
    requires Copying(m, h, D, s, d, v) && v < NVP
    ensures Pte(h.m, s, v) == Pte(m, s, v)
  {
    KeptPte(m, h.m, D, s, v);
  }

  lemma FlagsHaveP(w: Word)
    requires Present(w)
    ensures WithP(w % PGSIZE) == w % PGSIZE
  {
  }

  lemma AbsentTable(m: Memory, s: nat, vp: nat)
    requires vp < NVP && Node(m, s, Tab(vp / NPT)) == 0
    ensures !Present(Pte(m, s, vp))
  {
  }

  lemma NotMappedYet(m: Memory, h: Phys, D: set<nat>, s: nat, d: nat, v: nat)
    requires Copying(m, h, D, s, d, v) && v < KERNPAGE
    ensures !Present(Pte(h.m, d, v))
  {
  }

  /** The lost frame: it was free and is now in hand. */
  ghost predicate LostOne(h: Phys, h': Phys, lost: set<nat>) {
    exists b: nat :: lost == {b} && b in h.free && Loose(h', b)
  }

  lemma CopyLost(m: Memory, h1: Phys, h2: Phys, h3: Phys, D: set<nat>, s: nat, d: nat, v: nat, b: nat, flags: nat)
    requires Copying(m, h2, D, s, d, v) && v < KERNPAGE && Mapped(h2, h3, d, v, 0, b, flags)
    requires b in h1.free && Loose(h2, b) && NoLeak(h1, h2, {b})
    ensures Copying(m, h3, D, s, d, v) && LostOne(h1, h3, {b}) && NoLeak(h1, h3, {b})
  {
    hide Copying, Mapped, Loose, Step, Pte, NoLeak;
    NoMappingWalk(h2, h3, d, v, b, flags);
    CopyingWalk(m, h2, h3, D, s, d, v);
    StepLoose(h2, h3, d, {}, b);
    NoLeakThen(h1, h2, h3, {b}, {});
    assert {b} + {} == {b};
    LostIs(h1, h3, {b}, b);
  }

  lemma LostIs(h: Phys, h': Phys, lost: set<nat>, b: nat)
    requires lost == {b} && b in h.free && Loose(h', b)
    ensures LostOne(h, h', lost)
  {
    hide Loose;
  }

  /** Where the loop stands: with no frame left it stops cleanly, with one and no page table it loses that one. */
  lemma CopiesFacts(m: Memory, h: Phys, D: set<nat>, s: nat, d: nat, v: nat, K: set<nat>, F: nat, f: nat)
    requires Copies(m, h, D, s, d, v, K, F, f)
    ensures Copying(m, h, D, s, d, v)
    ensures f == 0 ==> F == Demand(K, 0, v) && !LosesAt(K, F, 0, v)
    ensures f == 1 && v / NPT !in Tabs(h.m, d) ==> LosesAt(K, F, 0, v)
  {
    hide Copying, Tabs, Demand, Indices;
  }

  lemma LostEarlier(h0: Phys, h1: Phys, h2: Phys, lost: set<nat>)
    requires h1.free <= h0.free
    ensures LostOne(h1, h2, lost) ==> LostOne(h0, h2, lost)
  {
    hide Loose;
  }

  lemma LostStays(h0: Phys, h1: Phys, h2: Phys, lost: set<nat>)
    requires LostOne(h0, h1, lost) && LooseStay(h1, h2) && NoLeak(h0, h2, lost)
    ensures OneLost(h0, h2) && h2.free != h0.free
  {
    var b: nat :| lost == {b} && b in h0.free && Loose(h1, b);
    assert Loose(h2, b);
  }

  lemma EmptyOrNot(l: seq<nat>)
    ensures Elems([]) == {} && (l != [] ==> Elems(l) != {})
  {
    if l != [] {
      assert l[0] in Elems(l);
    }
  }

  lemma CopiesStart(m: Memory, h: Phys, D: set<nat>, s: nat, d: nat, K: set<nat>, frames: nat)
    requires Copying(m, h, D, s, d, 0) && Tabs(h.m, d) == K
    ensures Copies(m, h, D, s, d, 0, K, frames, frames)
  {
    hide Copying, Tabs;
    assert K + Indices(0, 0) == K;
  }

  /** copyuvm stops at page v: short of that page's frame, or of its page table. */
  lemma CopyStops(K: set<nat>, frames: nat, v: nat, n: nat)
    requires v < n && (LosesAt(K, frames, 0, v) || frames == Demand(K, 0, v))
    ensures frames < Demand(K, 0, n) && (Loses(K, frames, 0, n) <==> LosesAt(K, frames, 0, v))
  {
    hide Demand, Indices;
    if LosesAt(K, frames, 0, v) {
      LostAt(K, frames, 0, v, n);
    } else {
      RunsOutAt(K, frames, 0, v, n);
    }
  }

  lemma NoMappingWalk(h: Phys, h': Phys, s: nat, v: nat, b: nat, flags: nat)
    requires v < KERNPAGE && Mapped(h, h', s, v, 0, b, flags)
    ensures Walked(h, h', s) && NoLeak(h, h', {})
  {
    hide Step, Pte;
    var X: set<nat> := {};
    assert Range(b, 0) == X;
  }

  /** Frames in hand stay in hand. */
  ghost predicate LooseStay(h: Phys, h': Phys) {
    forall c: nat :: Loose(h, c) ==> Loose(h', c)
  }

  lemma LooseSame(h: Phys)
    ensures LooseStay(h, h)
  {
  }

  lemma LooseThrough(h1: Phys, h2: Phys, h3: Phys, s: nat, v: nat, k: nat, b: nat, flags: nat)
    requires Sound(h1) && s in h1.dirs && b in h1.free && b < |h1.m| && Walked(h1, h2, s) && v < KERNPAGE && k <= 1
    requires Mapped(h2, h3, s, v, k, b, flags)
    ensures LooseStay(h1, h3)
  {
    hide Step, Pte, Sound;
    forall c: nat | Loose(h1, c) ensures Loose(h3, c) {
      assert c != b;
      StepLoose(h1, h2, s, {}, c);
      StepLoose(h2, h3, s, Range(b, k), c);
    }
  }

  /** If no space changed and no frame was lost, the free frames are those there were. */
  lemma FreeRestored(h: Phys, h': Phys)
    requires Sound(h) && Sound(h') && h'.dirs == h.dirs && SpacesKept(h.m, h'.m, h.dirs) && NoLeak(h, h', {}) && LooseStay(h, h')
    ensures h'.free == h.free
  {
    hide Node;
    assert forall u, p :: u in h.dirs && OkPos(p) ==> Node(h'.m, u, p) == Node(h.m, u, p) by {
      forall u, p | u in h.dirs && OkPos(p) ensures Node(h'.m, u, p) == Node(h.m, u, p) {
        assert SameNode(h.m, h'.m, u, p);
      }
    }
    forall c: nat | 0 < c < |h.m| ensures c in h.free <==> c in h'.free {
      if c !in h.free && c in h'.free {
        FreeOrUsed(h, h', c);
      }
      if c in h.free && c !in h'.free {
        FreeOrUsed(h', h, c);
      }
    }
  }

  /** A frame in use in h that is free in h' has been freed or lost: neither happened. */
  lemma FreeOrUsed(h: Phys, h': Phys, c: nat)
    requires Sound(h) && Sound(h') && h'.dirs == h.dirs && |h'.m| == |h.m| && 0 < c < |h.m| && c !in h.free && c in h'.free
    requires forall u, p :: u in h.dirs && OkPos(p) ==> Node(h'.m, u, p) == Node(h.m, u, p)
    ensures Loose(h, c) && !Loose(h', c)
  {
    hide Node;
    forall u, p | u in h.dirs && OkPos(p) ensures Node(h.m, u, p) != c {
      assert InUse(h', u, p);
    }
  }

  lemma DirsBack(D: set<nat>, d: nat)
    requires d !in D
    ensures D + {d} - {d} == D
  {
  }
}
