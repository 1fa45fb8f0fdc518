/** Every run of fork, exit, wait, kill, sleep, wakeup and scheduling. */
module ProcRuns {
  import opened ProcTable

  datatype State = State(
    t: Table,
    nextpid: int,
    init: nat,
    builds: map<nat, nat>,   // EMBRYO slot -> the process forking it
    frames: set<nat>,        // frames allocated to stacks and page directories
    doubleFree: bool)

  datatype Action =
    | ForkAlloc(q: nat)                                        // allocproc found a slot
    | ForkNoStack(q: nat, i: nat)                              // kalloc failed
    | ForkStack(q: nat, i: nat, stack: nat)                    // kalloc gave a stack
    | ForkNoCopy(q: nat, i: nat)                               // copyuvm failed: the stack is given back
    | ForkCopy(q: nat, i: nat, pgdir: nat)                     // copyuvm gave a page table; parent is set
    | ForkFinish(q: nat, i: nat)                               // state = RUNNABLE
    | Exit(q: nat)
    | Wait(q: nat)
    | Kill(pid: int)
    | SleepOn(q: nat, id: nat)                                 // sleep on a channel that is no process
    | Wakeup(id: nat)
    | Schedule(i: nat)
    | Yield(i: nat)

  predicate Live(p: Proc) {
    p.state == SLEEPING || p.state == RUNNABLE || p.state == RUNNING
  }

  predicate Runs(s: State, q: nat) {
    q < |s.t| && s.t[q].state == RUNNING
  }

  predicate Builds(s: State, q: nat, i: nat) {
    Runs(s, q) && i in s.builds && s.builds[i] == q && i < |s.t| && s.t[i].state == EMBRYO
  }

  predicate Enabled(s: State, a: Action) {
    match a
    case ForkAlloc(q) => Runs(s, q) && FirstUnused(s.t, 0).Some? && q !in s.builds.Values
    case ForkNoStack(q, i) => Builds(s, q, i) && s.t[i].kstack.None?
    case ForkStack(q, i, stack) => Builds(s, q, i) && s.t[i].kstack.None? && stack !in s.frames
    case ForkNoCopy(q, i) => Builds(s, q, i) && s.t[i].kstack.Some? && s.t[i].parent.None?
    case ForkCopy(q, i, pgdir) => Builds(s, q, i) && s.t[i].kstack.Some? && s.t[i].parent.None? && pgdir !in s.frames
    case ForkFinish(q, i) => Builds(s, q, i) && s.t[i].parent.Some?
    case Exit(q) => Runs(s, q) && q != s.init && q !in s.builds.Values && s.t[q].parent.Some?
    case Wait(q) => Runs(s, q) && q !in s.builds.Values
    case Kill(pid) => true
    case SleepOn(q, id) => Runs(s, q)
    case Wakeup(id) => true
    case Schedule(i) => i < |s.t| && s.t[i].state == RUNNABLE
    case Yield(i) => Runs(s, i)
  }

  /** kfree of a stack; freeing a frame that is not allocated is recorded. */
  function FreeStack(s: State, p: Proc): (r: State) {
    if p.kstack.Some? && p.kstack.value in s.frames then s.(frames := s.frames - {p.kstack.value})
    else s.(doubleFree := true)
  }

  /** What wait frees of a zombie: its stack and its page table. */
  function FreeFrames(s: State, p: Proc): (r: State) {
    if p.kstack.Some? && p.pgdir.Some? && p.kstack.value in s.frames && p.pgdir.value in s.frames && p.kstack != p.pgdir
    then s.(frames := s.frames - {p.kstack.value, p.pgdir.value})
    else s.(doubleFree := true)
  }

  function Put(s: State, i: nat, p: Proc): (r: State)
    requires i < |s.t|
  {
    s.(t := s.t[i := p])
  }

  ghost function Step(s: State, a: Action): (r: State)
    requires Enabled(s, a)
  {
    match a
    case ForkAlloc(q) =>
      var i := FirstUnused(s.t, 0).value;
      Put(s, i, s.t[i].(state := EMBRYO, pid := s.nextpid)).(nextpid := s.nextpid + 1, builds := s.builds[i := q])
    case ForkNoStack(q, i) => Put(s, i, s.t[i].(state := UNUSED)).(builds := s.builds - {i})
    case ForkStack(q, i, stack) => Put(s, i, s.t[i].(kstack := Some(stack))).(frames := s.frames + {stack})
    case ForkNoCopy(q, i) =>
      Put(FreeStack(s, s.t[i]), i, s.t[i].(state := UNUSED, kstack := None, pgdir := None)).(builds := s.builds - {i})
    case ForkCopy(q, i, pgdir) => Put(s, i, s.t[i].(pgdir := Some(pgdir), parent := Some(q))).(frames := s.frames + {pgdir})
    case ForkFinish(q, i) => Put(s, i, s.t[i].(state := RUNNABLE)).(builds := s.builds - {i})
    case Exit(q) => s.(t := ExitTable(s.t, q, s.init))
    case Wait(q) =>
      (match WaitTable(s.t, q)
       case Child(_, i, t) => FreeFrames(s, s.t[i]).(t := t)
       case NoChild => s
       case Sleep(t) => s.(t := t))
    case Kill(pid) => s.(t := KillTable(s.t, pid))
    case SleepOn(q, id) => Put(s, q, s.t[q].(state := SLEEPING, chan := Other(id)))
    case Wakeup(id) => s.(t := WakeAll(s.t, Other(id)))
    case Schedule(i) => Put(s, i, s.t[i].(state := RUNNING, chan := NoChan))
    case Yield(i) => Put(s, i, s.t[i].(state := RUNNABLE))
  }

  // The invariant, slot by slot

  /** A parent is a live process other than the child; every finished fork has one, except init. */
  ghost predicate ParentOk(s: State, i: nat)
    requires i < |s.t|
  {
    && (s.t[i].parent.Some? ==>
          var p := s.t[i].parent.value; p < |s.t| && p != i && Live(s.t[p]) && s.t[i].state != UNUSED)
    && (i == s.init ==> s.t[i].parent.None? && Live(s.t[i]))
    && (i != s.init && (Live(s.t[i]) || s.t[i].state == ZOMBIE) ==> s.t[i].parent.Some?)
  }

  /** An EMBRYO belongs to a live process that is forking it, which becomes its parent once it has a page table. */
  ghost predicate EmbryoOk(s: State, i: nat)
    requires i < |s.t|
  {
    && (i in s.builds <==> s.t[i].state == EMBRYO)
    && (i in s.builds ==> s.builds[i] < |s.t| && s.builds[i] != i && Live(s.t[s.builds[i]]))
    && (s.t[i].state == EMBRYO && s.t[i].parent.Some? ==> s.t[i].parent == Some(s.builds[i]) && s.t[i].kstack.Some?)
  }

  /** Only wait sleeps on a process, itself, and then no child of it is a zombie. */
  ghost predicate WaiterOk(s: State, i: nat, j: nat)
    requires i < |s.t| && j < |s.t|
  {
    s.t[i].state == SLEEPING && s.t[i].chan.OfProc? ==>
      s.t[i].chan.slot == i && !ZombieChild(s.t[j], i)
  }

  /** The pgdir field is stale in a free slot and in a fork that has not copied its memory yet. */
  predicate HasPgdir(p: Proc) {
    p.kstack.Some? && (p.state != EMBRYO || p.parent.Some?)
  }

  predicate Owns(p: Proc, f: nat) {
    p.kstack == Some(f) || (HasPgdir(p) && p.pgdir == Some(f))
  }

  /** Who holds frames: every process from the middle of fork until it is reaped. */
  ghost predicate FramesOk(s: State, i: nat)
    requires i < |s.t|
  {
    var p := s.t[i];
    && (p.state == UNUSED ==> p.kstack.None?)
    && (Live(p) || p.state == ZOMBIE ==> p.kstack.Some?)
    && (HasPgdir(p) ==> p.pgdir.Some? && p.pgdir != p.kstack)
    && (forall f :: Owns(p, f) ==> f in s.frames)
  }

  ghost predicate SoleOwner(s: State, i: nat, j: nat)
    requires i < |s.t| && j < |s.t|
  {
    forall f :: Owns(s.t[i], f) && Owns(s.t[j], f) ==> i == j
  }

  ghost predicate NoLeak(s: State) {
    forall f :: f in s.frames ==> exists i :: 0 <= i < |s.t| && Owns(s.t[i], f)
  }

  ghost predicate PidOk(s: State, i: nat, j: nat)
    requires i < |s.t| && j < |s.t|
  {
    && s.t[i].pid < s.nextpid
    && (s.t[i].state != UNUSED ==> s.t[i].pid > 0)
    && (s.t[i].pid != 0 && s.t[i].pid == s.t[j].pid ==> i == j)
  }

  ghost predicate Family(s: State) {
    && s.init < |s.t|
    && (forall i :: 0 <= i < |s.t| ==> ParentOk(s, i))
    && (forall i :: 0 <= i < |s.t| ==> EmbryoOk(s, i))
    && (forall i :: i in s.builds ==> i < |s.t|)
  }

  ghost predicate Waiters(s: State) {
    forall i, j :: 0 <= i < |s.t| && 0 <= j < |s.t| ==> WaiterOk(s, i, j)
  }

  ghost predicate Frames(s: State) {
    && !s.doubleFree
    && (forall i :: 0 <= i < |s.t| ==> FramesOk(s, i))
    && (forall i, j :: 0 <= i < |s.t| && 0 <= j < |s.t| ==> SoleOwner(s, i, j))
    && NoLeak(s)
  }

  ghost predicate Pids(s: State) {
    s.nextpid > 0 && forall i, j :: 0 <= i < |s.t| && 0 <= j < |s.t| ==> PidOk(s, i, j)
  }

  // Actions that only put processes to sleep, wake them or schedule them

  ghost predicate SimilarAt(p: Proc, r: Proc) {
    && r.parent == p.parent && r.pid == p.pid && r.kstack == p.kstack && r.pgdir == p.pgdir
    && (r.state == p.state || (Live(p) && Live(r)))
  }

  ghost predicate Similar(t: Table, t': Table) {
    |t| == |t'| && forall i :: 0 <= i < |t| ==> SimilarAt(t[i], t'[i])
  }

  lemma SimilarKeepsFamily(s: State, t': Table)
    requires Family(s) && Similar(s.t, t')
    ensures Family(s.(t := t'))
  {
    var s' := s.(t := t');
    forall i | 0 <= i < |t'| ensures ParentOk(s', i) && EmbryoOk(s', i) {
      assert ParentOk(s, i) && EmbryoOk(s, i) && SimilarAt(s.t[i], t'[i]);
      if s.t[i].parent.Some? {
        assert SimilarAt(s.t[s.t[i].parent.value], t'[s.t[i].parent.value]);
      }
      if i in s.builds {
        assert SimilarAt(s.t[s.builds[i]], t'[s.builds[i]]);
      }
    }
  }

  lemma SimilarKeepsFrames(s: State, t': Table)
    requires Frames(s) && Similar(s.t, t')
    ensures Frames(s.(t := t'))
  {
    var s' := s.(t := t');
    forall i | 0 <= i < |t'| ensures FramesOk(s', i) {
      assert FramesOk(s, i) && SimilarAt(s.t[i], t'[i]);
    }
    forall i, j | 0 <= i < |t'| && 0 <= j < |t'| ensures SoleOwner(s', i, j) {
      assert SoleOwner(s, i, j) && SimilarAt(s.t[i], t'[i]) && SimilarAt(s.t[j], t'[j]);
      assert forall f :: (Owns(t'[i], f) <==> Owns(s.t[i], f)) && (Owns(t'[j], f) <==> Owns(s.t[j], f));
    }
    forall f | f in s.frames ensures exists i :: 0 <= i < |t'| && Owns(t'[i], f) {
      var i :| 0 <= i < |s.t| && Owns(s.t[i], f);
      assert SimilarAt(s.t[i], t'[i]) && Owns(t'[i], f);
    }
  }

  lemma SimilarKeepsPids(s: State, t': Table)
    requires Pids(s) && Similar(s.t, t')
    ensures Pids(s.(t := t'))
  {
    var s' := s.(t := t');
    forall i, j | 0 <= i < |t'| && 0 <= j < |t'| ensures PidOk(s', i, j) {
      assert PidOk(s, i, j) && SimilarAt(s.t[i], t'[i]) && SimilarAt(s.t[j], t'[j]);
    }
  }

  /** Nobody newly sleeps on a process. */
  ghost predicate NoNewWaiter(t: Table, t': Table) {
    |t| == |t'| && forall i :: 0 <= i < |t| && t'[i].state == SLEEPING && t'[i].chan.OfProc? ==> t'[i].chan == t[i].chan && t[i].state == SLEEPING
  }

  /** No zombie that was not one, or had another parent, before. */
  ghost predicate NoNewZombie(t: Table, t': Table) {
    |t| == |t'| && forall j :: 0 <= j < |t| && t'[j].state == ZOMBIE ==> t[j].state == ZOMBIE && t'[j].parent == t[j].parent
  }

  lemma WaitersKept(s: State, s': State)
    requires Waiters(s) && NoNewWaiter(s.t, s'.t) && NoNewZombie(s.t, s'.t)
    ensures Waiters(s')
  {
    forall i, j | 0 <= i < |s'.t| && 0 <= j < |s'.t| ensures WaiterOk(s', i, j) {
      assert WaiterOk(s, i, j);
    }
  }

  predicate Mild(a: Action) {
    a.Kill? || a.SleepOn? || a.Wakeup? || a.Schedule? || a.Yield?
  }

  lemma MildIsSimilar(s: State, a: Action)
    requires Enabled(s, a) && Mild(a)
    ensures var s' := Step(s, a);
            s' == s.(t := s'.t) && Similar(s.t, s'.t) && NoNewWaiter(s.t, s'.t) && NoNewZombie(s.t, s'.t)
  {
  }

  /** wait that finds no zombie changes nothing but its own state. */
  lemma WaitSleeps(s: State, q: nat)
    requires Enabled(s, Wait(q)) && Waiters(s) && !WaitTable(s.t, q).Child?
    ensures var s' := Step(s, Wait(q));
            s' == s.(t := s'.t) && Similar(s.t, s'.t) && Waiters(s')
  {
    var s' := Step(s, Wait(q));
    forall i, j | 0 <= i < |s'.t| && 0 <= j < |s'.t| ensures WaiterOk(s', i, j) {
      assert WaiterOk(s, i, j);
    }
  }

  // fork

  /** Only slot i and what belongs to it differ. */
  ghost predicate OnlySlot(s: State, s': State, i: nat) {
    && |s'.t| == |s.t| && i < |s.t| && s'.init == s.init
    && (forall j :: 0 <= j < |s.t| && j != i ==> s'.t[j] == s.t[j])
    && (forall j :: j != i ==> (j in s'.builds <==> j in s.builds))
    && (forall j :: j != i && j in s.builds ==> s'.builds[j] == s.builds[j])
  }

  predicate IsFork(a: Action) {
    a.ForkAlloc? || a.ForkNoStack? || a.ForkStack? || a.ForkNoCopy? || a.ForkCopy? || a.ForkFinish?
  }

  ghost function ForkSlot(s: State, a: Action): nat
    requires IsFork(a) && Enabled(s, a)
  {
    if a.ForkAlloc? then FirstUnused(s.t, 0).value else a.i
  }

  lemma ForkIsLocal(s: State, a: Action)
    requires IsFork(a) && Enabled(s, a)
    ensures OnlySlot(s, Step(s, a), ForkSlot(s, a))
  {
  }

  /** A slot in fork is nobody's parent and forks nobody. */
  lemma ForkSlotUnrelated(s: State, a: Action)
    requires Family(s) && IsFork(a) && Enabled(s, a)
    ensures var i := ForkSlot(s, a);
            && i < |s.t| && i != s.init && (s.t[i].state == UNUSED || s.t[i].state == EMBRYO)
            && (forall j :: 0 <= j < |s.t| ==> s.t[j].parent != Some(i))
            && (forall j :: j in s.builds ==> s.builds[j] != i)
  {
    var i := ForkSlot(s, a);
    assert ParentOk(s, i) && ParentOk(s, s.init);
    forall j | 0 <= j < |s.t| ensures s.t[j].parent != Some(i) {
      assert ParentOk(s, j);
    }
    forall j | j in s.builds ensures s.builds[j] != i {
      assert EmbryoOk(s, j);
    }
  }

  lemma ForkKeepsFamily(s: State, a: Action)
    requires Family(s) && Frames(s) && IsFork(a) && Enabled(s, a)
    ensures Family(Step(s, a))
  {
    var i, s' := ForkSlot(s, a), Step(s, a);
    ForkIsLocal(s, a);
    ForkSlotUnrelated(s, a);
    assert ParentOk(s, i) && EmbryoOk(s, i) && FramesOk(s, i);
    assert ParentOk(s', i) && EmbryoOk(s', i);
    hide Step, Enabled;
    forall j | 0 <= j < |s'.t| ensures ParentOk(s', j) && EmbryoOk(s', j) {
      assert ParentOk(s, j) && EmbryoOk(s, j);
    }
  }

  lemma ForkKeepsWaiters(s: State, a: Action)
    requires Waiters(s) && IsFork(a) && Enabled(s, a)
    ensures Waiters(Step(s, a))
  {
    ForkIsLocal(s, a);
    WaitersKept(s, Step(s, a));
  }

  lemma ForkKeepsPids(s: State, a: Action)
    requires Pids(s) && IsFork(a) && Enabled(s, a)
    ensures Pids(Step(s, a))
  {
    var s' := Step(s, a);
    ForkIsLocal(s, a);
    forall i, j | 0 <= i < |s'.t| && 0 <= j < |s'.t| ensures PidOk(s', i, j) {
      assert PidOk(s, i, j) && PidOk(s, j, i);
    }
  }

  /** The frames fork takes were owned by nobody and are now the new slot's; those it gives back were the slot's. */
  lemma ForkFrames(s: State, a: Action)
    requires Family(s) && Frames(s) && IsFork(a) && Enabled(s, a)
    ensures var i, s' := ForkSlot(s, a), Step(s, a);
            && i < |s.t| == |s'.t| && FramesOk(s', i) && !s'.doubleFree
            && (forall f :: Owns(s'.t[i], f) && !Owns(s.t[i], f) ==> f !in s.frames)
            && (forall f :: f in s'.frames && f !in s.frames ==> Owns(s'.t[i], f))
            && (forall f :: f in s.frames && f !in s'.frames ==> Owns(s.t[i], f))
            && (forall f :: f in s'.frames && Owns(s.t[i], f) ==> Owns(s'.t[i], f))
  {
    ForkIsLocal(s, a);
    assert FramesOk(s, ForkSlot(s, a)) && EmbryoOk(s, ForkSlot(s, a)) && ParentOk(s, ForkSlot(s, a));
    if a.ForkNoCopy? {
      assert Owns(s.t[a.i], s.t[a.i].kstack.value);
    }
  }

  lemma ForkKeepsFrames(s: State, a: Action)
    requires Family(s) && Frames(s) && IsFork(a) && Enabled(s, a)
    ensures Frames(Step(s, a))
  {
    hide Step, Enabled, ForkSlot;
    var i, s' := ForkSlot(s, a), Step(s, a);
    ForkIsLocal(s, a);
    ForkFrames(s, a);
    forall j | 0 <= j < |s'.t| ensures FramesOk(s', j) {
      assert FramesOk(s, j) && SoleOwner(s, i, j);
    }
    forall j, k | 0 <= j < |s'.t| && 0 <= k < |s'.t| ensures SoleOwner(s', j, k) {
      assert SoleOwner(s, j, k) && FramesOk(s, j) && FramesOk(s, k);
    }
    forall f | f in s'.frames ensures exists j :: 0 <= j < |s'.t| && Owns(s'.t[j], f) {
      if f in s.frames {
        var j :| 0 <= j < |s.t| && Owns(s.t[j], f);
        assert Owns(s'.t[j], f);
      } else {
        assert Owns(s'.t[i], f);
      }
    }
  }

  // exit

  /** What the reparenting loop does to one slot: at most a new parent and a wakeup. */
  lemma {:induction false} ReparentSlot(t: Table, q: nat, init: nat, k: nat, i: nat)
    requires k <= |t| && i < |t|
    ensures var r, p := Reparent(t, q, init, k)[i], t[i].(parent := if i < k && t[i].parent == Some(q) then Some(init) else t[i].parent);
            && (r == p || r == WakeOne(p, OfProc(init)))
            && ((exists j :: 0 <= j < k && ZombieChild(t[j], q)) ==> r == WakeOne(p, OfProc(init)))
    decreases k
  {
    if k > 0 {
      ReparentSlot(t, q, init, k - 1, i);
      ReparentSlot(t, q, init, k - 1, k - 1);
    }
  }

  lemma ExitSlot(t: Table, q: nat, init: nat, i: nat)
    requires q < |t| && i < |t| && t[q].parent.Some?
    ensures var r, p := ExitTable(t, q, init)[i], t[i];
            && r.pid == p.pid && r.kstack == p.kstack && r.pgdir == p.pgdir && r.chan == p.chan
            && r.parent == (if p.parent == Some(q) then Some(init) else p.parent)
            && (if i == q then r.state == ZOMBIE else r.state == p.state || (p.state == SLEEPING && r.state == RUNNABLE))
            && (i != q && r.state == SLEEPING ==> p.chan != OfProc(t[q].parent.value))
            && (i != q && r.state == SLEEPING && (exists j :: 0 <= j < |t| && ZombieChild(t[j], q)) ==> p.chan != OfProc(init))
  {
    var t1 := WakeAll(t, OfProc(t[q].parent.value));
    ReparentSlot(t1, q, init, |t|, i);
    if j :| 0 <= j < |t| && ZombieChild(t[j], q) {
      assert ZombieChild(t1[j], q);
    }
    hide Reparent;
  }

  lemma ExitKeepsFamily(s: State, q: nat)
    requires Family(s) && Enabled(s, Exit(q))
    ensures Family(Step(s, Exit(q)))
  {
    var s' := Step(s, Exit(q));
    forall i | 0 <= i < |s.t| ensures ParentOk(s', i) && EmbryoOk(s', i) {
      assert ParentOk(s, i) && EmbryoOk(s, i) && ParentOk(s, s.init);
      ExitSlot(s.t, q, s.init, i);
      ExitSlot(s.t, q, s.init, s.init);
      if s.t[i].parent.Some? {
        ExitSlot(s.t, q, s.init, s.t[i].parent.value);
      }
      if i in s.builds {
        assert s.builds[i] in s.builds.Values;
        ExitSlot(s.t, q, s.init, s.builds[i]);
      }
      hide ExitTable;
    }
  }

  lemma ExitKeepsFrames(s: State, q: nat)
    requires Frames(s) && Enabled(s, Exit(q))
    ensures Frames(Step(s, Exit(q)))
  {
    var s' := Step(s, Exit(q));
    forall i | 0 <= i < |s.t| ensures FramesOk(s', i) && forall f :: Owns(s'.t[i], f) <==> Owns(s.t[i], f) {
      assert FramesOk(s, i) && FramesOk(s, q);
      ExitSlot(s.t, q, s.init, i);
      hide ExitTable;
    }
    forall i, j | 0 <= i < |s.t| && 0 <= j < |s.t| ensures SoleOwner(s', i, j) {
      assert SoleOwner(s, i, j);
    }
    forall f | f in s'.frames ensures exists i :: 0 <= i < |s'.t| && Owns(s'.t[i], f) {
      var i :| 0 <= i < |s.t| && Owns(s.t[i], f);
      assert Owns(s'.t[i], f);
    }
  }

  lemma ExitKeepsPids(s: State, q: nat)
    requires Pids(s) && Enabled(s, Exit(q))
    ensures Pids(Step(s, Exit(q)))
  {
    var s' := Step(s, Exit(q));
    forall i, j | 0 <= i < |s.t| && 0 <= j < |s.t| ensures PidOk(s', i, j) {
      assert PidOk(s, i, j) && PidOk(s, q, q);
      ExitSlot(s.t, q, s.init, i);
      ExitSlot(s.t, q, s.init, j);
      hide ExitTable;
    }
  }

  /** exit wakes whoever waits for the new zombie, and init for zombies it inherits. */
  lemma ExitKeepsWaiters(s: State, q: nat)
    requires Family(s) && Waiters(s) && Enabled(s, Exit(q))
    ensures Waiters(Step(s, Exit(q)))
  {
    var s' := Step(s, Exit(q));
    forall i, j | 0 <= i < |s.t| && 0 <= j < |s.t| ensures WaiterOk(s', i, j) {
      assert WaiterOk(s, i, j) && ParentOk(s, q);
      ExitSlot(s.t, q, s.init, i);
      ExitSlot(s.t, q, s.init, j);
      hide ExitTable;
      if j != q && s.t[j].parent == Some(q) && s.t[j].state == ZOMBIE {
        assert ZombieChild(s.t[j], q);
      }
    }
  }

  // wait

  lemma ReapFacts(s: State, q: nat)
    requires Family(s) && Frames(s) && Enabled(s, Wait(q)) && WaitTable(s.t, q).Child?
    ensures var i, s' := WaitTable(s.t, q).slot, Step(s, Wait(q));
            && i < |s.t| && ZombieChild(s.t[i], q) && i !in s.builds && i != s.init
            && s.t[i].kstack.Some? && s.t[i].pgdir.Some? && !s'.doubleFree
            && s' == s.(t := s.t[i := Reaped(s.t[i])], frames := s.frames - {s.t[i].kstack.value, s.t[i].pgdir.value})
            && (forall j :: 0 <= j < |s.t| ==> s.t[j].parent != Some(i)) && (forall j :: j in s.builds ==> s.builds[j] != i)
  {
    var i := WaitTable(s.t, q).slot;
    assert FramesOk(s, i) && EmbryoOk(s, i) && ParentOk(s, s.init);
    assert Owns(s.t[i], s.t[i].kstack.value) && Owns(s.t[i], s.t[i].pgdir.value);
    forall j | 0 <= j < |s.t| ensures s.t[j].parent != Some(i) {
      assert ParentOk(s, j);
    }
    forall j | j in s.builds ensures s.builds[j] != i {
      assert EmbryoOk(s, j);
    }
  }

  lemma ReapKeepsFamily(s: State, q: nat)
    requires Family(s) && Frames(s) && Enabled(s, Wait(q)) && WaitTable(s.t, q).Child?
    ensures Family(Step(s, Wait(q)))
  {
    var s' := Step(s, Wait(q));
    ReapFacts(s, q);
    hide Step, WaitTable;
    forall j | 0 <= j < |s.t| ensures ParentOk(s', j) && EmbryoOk(s', j) {
      assert ParentOk(s, j) && EmbryoOk(s, j);
    }
  }

  /** Reaping frees the zombie's stack and page table, once, and nothing else. */
  lemma ReapKeepsFrames(s: State, q: nat)
    requires Family(s) && Frames(s) && Enabled(s, Wait(q)) && WaitTable(s.t, q).Child?
    ensures Frames(Step(s, Wait(q)))
  {
    var i, s' := WaitTable(s.t, q).slot, Step(s, Wait(q));
    ReapFacts(s, q);
    hide Step, WaitTable, Enabled;
    forall j | 0 <= j < |s.t| ensures FramesOk(s', j) {
      assert FramesOk(s, j) && SoleOwner(s, i, j);
      assert Owns(s.t[i], s.t[i].kstack.value) && Owns(s.t[i], s.t[i].pgdir.value);
    }
    forall j, k | 0 <= j < |s.t| && 0 <= k < |s.t| ensures SoleOwner(s', j, k) {
      assert SoleOwner(s, j, k);
    }
    forall f | f in s'.frames ensures exists j :: 0 <= j < |s'.t| && Owns(s'.t[j], f) {
      var j :| 0 <= j < |s.t| && Owns(s.t[j], f);
      assert j != i && Owns(s'.t[j], f);
    }
  }

  lemma ReapKeepsWaiters(s: State, q: nat)
    requires Waiters(s) && Enabled(s, Wait(q)) && WaitTable(s.t, q).Child?
    ensures Waiters(Step(s, Wait(q)))
  {
    WaitersKept(s, Step(s, Wait(q)));
  }

  lemma ReapKeepsPids(s: State, q: nat)
    requires Family(s) && Frames(s) && Pids(s) && Enabled(s, Wait(q)) && WaitTable(s.t, q).Child?
    ensures Pids(Step(s, Wait(q)))
  {
    var s' := Step(s, Wait(q));
    ReapFacts(s, q);
    hide Step, WaitTable;
    forall i, j | 0 <= i < |s.t| && 0 <= j < |s.t| ensures PidOk(s', i, j) {
      assert PidOk(s, i, j);
    }
  }

  // Runs

  ghost predicate Inv(s: State) {
    Family(s) && Waiters(s) && Frames(s) && Pids(s)
  }

  lemma StepKeepsInv(s: State, a: Action)
    requires Inv(s) && Enabled(s, a)
    ensures Inv(Step(s, a))
  {
    hide Family, Waiters, Frames, Pids;
    if Mild(a) {
      MildIsSimilar(s, a);
      WaitersKept(s, Step(s, a));
      SimilarKeepsFamily(s, Step(s, a).t);
      SimilarKeepsFrames(s, Step(s, a).t);
      SimilarKeepsPids(s, Step(s, a).t);
    } else if IsFork(a) {
      ForkKeepsFamily(s, a);
      ForkKeepsWaiters(s, a);
      ForkKeepsFrames(s, a);
      ForkKeepsPids(s, a);
    } else if a.Exit? {
      ExitKeepsFamily(s, a.q);
      ExitKeepsWaiters(s, a.q);
      ExitKeepsFrames(s, a.q);
      ExitKeepsPids(s, a.q);
    } else if WaitTable(s.t, a.q).Child? {
      ReapKeepsFamily(s, a.q);
      ReapKeepsWaiters(s, a.q);
      ReapKeepsFrames(s, a.q);
      ReapKeepsPids(s, a.q);
    } else {
      WaitSleeps(s, a.q);
      SimilarKeepsFamily(s, Step(s, a).t);
      SimilarKeepsFrames(s, Step(s, a).t);
      SimilarKeepsPids(s, Step(s, a).t);
    }
  }

  ghost predicate Legal(s: State, acts: seq<Action>)
    decreases |acts|
  {
    |acts| == 0 || (Enabled(s, acts[0]) && Legal(Step(s, acts[0]), acts[1..]))
  }

  ghost function Run(s: State, acts: seq<Action>): State
    requires Legal(s, acts)
    decreases |acts|
  {
    if |acts| == 0 then s else Run(Step(s, acts[0]), acts[1..])
  }

  /** After userinit: init is the only process. */
  ghost predicate Init(s: State) {
    && s.init < |s.t| && s.nextpid == 2 && s.builds == map[] && !s.doubleFree
    && s.t[s.init].state == RUNNABLE && s.t[s.init].pid == 1 && s.t[s.init].parent.None? && s.t[s.init].chan.NoChan? && !s.t[s.init].killed
    && s.t[s.init].kstack.Some? && s.t[s.init].pgdir.Some? && s.t[s.init].kstack != s.t[s.init].pgdir
    && s.frames == {s.t[s.init].kstack.value, s.t[s.init].pgdir.value}
    && forall i :: 0 <= i < |s.t| && i != s.init ==> s.t[i] == Proc(UNUSED, 0, None, NoChan, false, None, None)
  }

  lemma InitInv(s: State)
    requires Init(s)
    ensures Inv(s)
  {
    assert Owns(s.t[s.init], s.t[s.init].kstack.value) && Owns(s.t[s.init], s.t[s.init].pgdir.value);
  }

  lemma {:induction false} RunKeepsInv(s: State, acts: seq<Action>)
    requires Inv(s) && Legal(s, acts)
    ensures Inv(Run(s, acts))
    decreases |acts|
  {
    hide Inv, Step, Enabled;
    if |acts| > 0 {
      StepKeepsInv(s, acts[0]);
      RunKeepsInv(Step(s, acts[0]), acts[1..]);
    }
  }

  /** In every run each zombie has a live parent to reap it, and no process asleep in wait has a zombie child. */
  lemma ZombiesAreReapable(s0: State, acts: seq<Action>, i: nat)
    requires Init(s0) && Legal(s0, acts) && i < |Run(s0, acts).t| && Run(s0, acts).t[i].state == ZOMBIE
    ensures var t := Run(s0, acts).t;
            && t[i].parent.Some? && t[i].parent.value < |t| && Live(t[t[i].parent.value])
            && !(t[t[i].parent.value].state == SLEEPING && t[t[i].parent.value].chan == OfProc(t[i].parent.value))
  {
    InitInv(s0);
    RunKeepsInv(s0, acts);
    var s := Run(s0, acts);
    assert ParentOk(s, i) && ParentOk(s, s.init);
    assert WaiterOk(s, s.t[i].parent.value, i);
  }

  /** In every run no stack or page table is freed twice, none is shared, and none is lost. */
  lemma FramesFreedOnce(s0: State, acts: seq<Action>)
    requires Init(s0) && Legal(s0, acts)
    ensures var s := Run(s0, acts);
            && !s.doubleFree
            && (forall f :: f in s.frames <==> exists i :: 0 <= i < |s.t| && Owns(s.t[i], f))
            && (forall i, j, f :: 0 <= i < |s.t| && 0 <= j < |s.t| && Owns(s.t[i], f) && Owns(s.t[j], f) ==> i == j)
            && (forall i :: 0 <= i < |s.t| && s.t[i].state == UNUSED ==> s.t[i].kstack.None?)
  {
    InitInv(s0);
    RunKeepsInv(s0, acts);
    var s := Run(s0, acts);
    forall i | 0 <= i < |s.t| ensures (s.t[i].state == UNUSED ==> s.t[i].kstack.None?) && forall f :: Owns(s.t[i], f) ==> f in s.frames {
      assert FramesOk(s, i);
    }
    forall i, j, f | 0 <= i < |s.t| && 0 <= j < |s.t| && Owns(s.t[i], f) && Owns(s.t[j], f) ensures i == j {
      assert SoleOwner(s, i, j);
    }
  }

  /** In every run the processes in use have distinct pids. */
  lemma PidsDistinct(s0: State, acts: seq<Action>, i: nat, j: nat)
    requires Init(s0) && Legal(s0, acts) && i < |Run(s0, acts).t| && j < |Run(s0, acts).t|
    ensures var t := Run(s0, acts).t;
            t[i].state != UNUSED && t[j].state != UNUSED && t[i].pid == t[j].pid ==> i == j
  {
    InitInv(s0);
    RunKeepsInv(s0, acts);
    assert PidOk(Run(s0, acts), i, j);
  }

  // kill and free slots

  ghost predicate FreeWithPid(s: State, i: nat, pid: int) {
    i < |s.t| && s.t[i].state == UNUSED && s.t[i].pid == pid
  }

  /** kill hits a free slot if and only if a free slot's pid field holds the pid: 0, or that of a fork given up. */
  lemma KillHitsFreeSlotIff(s: State, pid: int)
    requires Inv(s)
    ensures var i := FirstPid(s.t, pid, 0);
            (i.Some? && s.t[i.value].state == UNUSED) <==> exists u: nat :: FreeWithPid(s, u, pid)
  {
    var i := FirstPid(s.t, pid, 0);
    if i.Some? && s.t[i.value].state == UNUSED {
      assert FreeWithPid(s, i.value, pid);
    }
    if u: nat :| FreeWithPid(s, u, pid) {
      assert PidOk(s, i.value, u);
    }
    hide FirstPid;
  }

  /** In every reachable state a pid other than 0 is in one slot at most, so such a kill hits no process in use. */
  lemma StalePidIsNobodys(s0: State, acts: seq<Action>, u: nat, j: nat)
    requires Init(s0) && Legal(s0, acts)
    requires var s := Run(s0, acts); u < |s.t| && j < |s.t| && s.t[u].state == UNUSED
    ensures var t := Run(s0, acts).t; t[j].pid == t[u].pid ==> t[j].state == UNUSED && (t[u].pid != 0 ==> j == u)
  {
    InitInv(s0);
    RunKeepsInv(s0, acts);
    assert PidOk(Run(s0, acts), u, j) && PidOk(Run(s0, acts), j, u);
  }

  /** A fork that cannot have a stack leaves its pid behind: kill(2) then hits a free slot. */
  lemma AbortLeavesPid(s0: State) returns (acts: seq<Action>, u: nat)
    requires Init(s0) && FirstUnused(s0.t, 0).Some?
    ensures u == FirstUnused(s0.t, 0).value && acts == [Schedule(s0.init), ForkAlloc(s0.init), ForkNoStack(s0.init, u)]
    ensures Legal(s0, acts) && FreeWithPid(Run(s0, acts), u, 2) && FirstPid(Run(s0, acts).t, 2, 0) == Some(u)
  {
    u := FirstUnused(s0.t, 0).value;
    var s1 := Step(s0, Schedule(s0.init));
    SameFirstUnused(s0.t, s1.t, 0);
    var s2 := Step(s1, ForkAlloc(s0.init));
    var s3 := Step(s2, ForkNoStack(s0.init, u));
    assert s3.t[u].pid == 2 && forall j :: 0 <= j < |s3.t| && j != u ==> s3.t[j].pid != 2;
    hide FirstUnused;
    RunPrepend(s2, ForkNoStack(s0.init, u), []);
    RunPrepend(s1, ForkAlloc(s0.init), [ForkNoStack(s0.init, u)]);
    RunPrepend(s0, Schedule(s0.init), [ForkAlloc(s0.init), ForkNoStack(s0.init, u)]);
    acts := [Schedule(s0.init), ForkAlloc(s0.init), ForkNoStack(s0.init, u)];
  }

  lemma RunPrepend(s: State, a: Action, acts: seq<Action>)
    requires Enabled(s, a) && Legal(Step(s, a), acts)
    ensures Legal(s, [a] + acts) && Run(s, [a] + acts) == Run(Step(s, a), acts)
  {
    hide Step, Enabled;
    assert ([a] + acts)[1..] == acts;
  }

  lemma {:induction false} SameFirstUnused(t: Table, t': Table, k: nat)
    requires |t| == |t'| && forall i :: 0 <= i < |t| ==> (t[i].state == UNUSED <==> t'[i].state == UNUSED)
    ensures FirstUnused(t, k) == FirstUnused(t', k)
    decreases |t| - k
  {
    if k < |t| {
      SameFirstUnused(t, t', k + 1);
    }
  }

  /** Some action of the run reaps the process in slot u. */
  ghost predicate Reaps(s: State, acts: seq<Action>, u: nat)
    requires Legal(s, acts)
    decreases |acts|
  {
    |acts| > 0 && ((acts[0].Wait? && FirstZombie(s.t, acts[0].q, 0) == Some(u)) || Reaps(Step(s, acts[0]), acts[1..], u))
  }

  lemma ExitKeepsKilled(t: Table, q: nat, init: nat, u: nat)
    requires q < |t| && u < |t| && t[q].parent.Some?
    ensures ExitTable(t, q, init)[u].killed == t[u].killed
  {
    ReparentSlot(WakeAll(t, OfProc(t[q].parent.value)), q, init, |t|, u);
    hide Reparent;
  }

  lemma StepKeepsKilled(s: State, a: Action, u: nat)
    requires Enabled(s, a) && u < |s.t| && s.t[u].killed && !(a.Wait? && FirstZombie(s.t, a.q, 0) == Some(u))
    ensures |Step(s, a).t| == |s.t| && Step(s, a).t[u].killed
  {
    if a.Exit? {
      ExitKeepsKilled(s.t, a.q, s.init, u);
    }
    hide ExitTable;
  }

  /**
   The mark outlives the slot's rest: once kill has hit a free slot, whatever runs next, the slot stays
   marked until a process in it is reaped.  The next child forked there starts out killed.
   */
  lemma {:induction false} MarkStays(s: State, acts: seq<Action>, u: nat)
    requires u < |s.t| && s.t[u].killed && Legal(s, acts) && !Reaps(s, acts, u)
    ensures u < |Run(s, acts).t| && Run(s, acts).t[u].killed
    decreases |acts|
  {
    hide Step, Enabled;
    if |acts| > 0 {
      StepKeepsKilled(s, acts[0], u);
      MarkStays(Step(s, acts[0]), acts[1..], u);
    }
  }

  /** For any pid: kill hits a free slot with that pid field, and the child forked there next starts out killed. */
  lemma KillMarksNextChild(s: State, pid: int, acts: seq<Action>)
    requires Inv(s) && (exists u: nat :: FreeWithPid(s, u, pid)) && Legal(Step(s, Kill(pid)), acts)
    ensures var u := FirstPid(s.t, pid, 0);
            && u.Some? && s.t[u.value].state == UNUSED
            && (!Reaps(Step(s, Kill(pid)), acts, u.value) ==>
                  u.value < |Run(Step(s, Kill(pid)), acts).t| && Run(Step(s, Kill(pid)), acts).t[u.value].killed)
  {
    KillHitsFreeSlotIff(s, pid);
    var u := FirstPid(s.t, pid, 0);
    if !Reaps(Step(s, Kill(pid)), acts, u.value) {
      MarkStays(Step(s, Kill(pid)), acts, u.value);
    }
  }
}
