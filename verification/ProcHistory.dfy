/** What fork gave out and what wait returned, over every run of the process table. */
module ProcHistory {
  import opened ProcTable
  import opened ProcRuns

  datatype Reap = Reap(caller: int, pid: int)

  datatype History = History(
    forked: map<int, int>,   // a pid fork returned -> the pid of the process it returned it to
    reaps: seq<Reap>,        // what wait returned, and to whom
    exited: set<int>,
    hit: set<int>)           // pids for which kill returned 0

  const NOTHING: History := History(map[], [], {}, {})

  ghost function Note(s: State, a: Action, h: History): (r: History)
    requires Enabled(s, a)
  {
    match a
    case ForkFinish(q, i) => h.(forked := h.forked[s.t[i].pid := s.t[q].pid])
    case Exit(q) => h.(exited := h.exited + {s.t[q].pid})
    case Wait(q) => if WaitTable(s.t, q).Child? then h.(reaps := h.reaps + [Reap(s.t[q].pid, WaitTable(s.t, q).pid)]) else h
    case Kill(pid) => if FirstPid(s.t, pid, 0).Some? then h.(hit := h.hit + {pid}) else h
    case _ => h
  }

  ghost function Notes(s: State, acts: seq<Action>, h: History): (r: History)
    requires Legal(s, acts)
    decreases |acts|
  {
    if |acts| == 0 then h else Notes(Step(s, acts[0]), acts[1..], Note(s, acts[0], h))
  }

  // The invariant

  predicate InUse(p: Proc) {
    Live(p) || p.state == ZOMBIE
  }

  /** The caller is the forker of pid, or init once the forker has exited. */
  ghost predicate Parent(h: History, caller: int, pid: int) {
    pid in h.forked && (caller == h.forked[pid] || (caller == 1 && h.forked[pid] in h.exited))
  }

  ghost predicate SlotOk(s: State, h: History, i: nat)
    requires i < |s.t|
  {
    var p := s.t[i];
    && (i == s.init ==> p.pid == 1)
    && (p.pid in h.forked <==> InUse(p) && i != s.init)
    && (p.state == ZOMBIE ==> p.pid in h.exited)
    && (Live(p) ==> p.pid !in h.exited)
    && (InUse(p) && p.parent.Some? && p.parent.value < |s.t| ==> Parent(h, s.t[p.parent.value].pid, p.pid))
  }

  ghost predicate Holds(s: State, pid: int) {
    exists i :: 0 <= i < |s.t| && s.t[i].pid == pid
  }

  ghost predicate WasReaped(h: History, pid: int) {
    exists k :: 0 <= k < |h.reaps| && h.reaps[k].pid == pid
  }

  ghost predicate ReapOk(s: State, h: History, k: nat)
    requires k < |h.reaps|
  {
    Parent(h, h.reaps[k].caller, h.reaps[k].pid) && h.reaps[k].pid in h.exited && !Holds(s, h.reaps[k].pid)
  }

  ghost predicate Lineage(s: State, h: History) {
    && (forall i :: 0 <= i < |s.t| ==> SlotOk(s, h, i))
    && (forall k :: 0 <= k < |h.reaps| ==> ReapOk(s, h, k))
    && (forall j, k :: 0 <= j < k < |h.reaps| ==> h.reaps[j].pid != h.reaps[k].pid)
    && (forall c :: c in h.forked ==> 1 < c < s.nextpid && (Holds(s, c) || WasReaped(h, c)))
    && (forall c :: c in h.exited ==> c in h.forked)
  }

  // Every action keeps it

  lemma SimilarKeepsLineage(s: State, h: History, s': State, h': History)
    requires Lineage(s, h) && Similar(s.t, s'.t) && s'.nextpid == s.nextpid && s'.init == s.init && h' == h.(hit := h'.hit)
    ensures Lineage(s', h')
  {
    forall i | 0 <= i < |s'.t| ensures SlotOk(s', h', i) {
      assert SlotOk(s, h, i) && SimilarAt(s.t[i], s'.t[i]);
    }
    forall c ensures Holds(s', c) <==> Holds(s, c) {
      SamePids(s, s', c);
    }
    forall k | 0 <= k < |h.reaps| ensures ReapOk(s', h', k) {
      assert ReapOk(s, h, k);
    }
    forall c | c in h.forked ensures Holds(s', c) || WasReaped(h', c) {
      assert WasReaped(h, c) ==> WasReaped(h', c);
    }
  }

  lemma SamePids(s: State, s': State, c: int)
    requires |s'.t| == |s.t| && forall i :: 0 <= i < |s.t| ==> s'.t[i].pid == s.t[i].pid
    ensures Holds(s', c) <==> Holds(s, c)
  {
    if i :| 0 <= i < |s.t| && s.t[i].pid == c {
      assert s'.t[i].pid == c;
    }
  }

  lemma ForkPid(s: State, a: Action)
    requires IsFork(a) && !a.ForkFinish? && Enabled(s, a)
    ensures var i, s' := ForkSlot(s, a), Step(s, a);
            && i < |s'.t| == |s.t| && (s'.t[i].state == UNUSED || s'.t[i].state == EMBRYO) && s'.nextpid >= s.nextpid
            && (s'.t[i].pid == s.t[i].pid || s'.t[i].pid == s.nextpid < s'.nextpid)
  {
  }

  /** A fork that is not finished yet. */
  lemma ForkKeepsLineage(s: State, h: History, a: Action)
    requires Inv(s) && Lineage(s, h) && IsFork(a) && !a.ForkFinish? && Enabled(s, a)
    ensures Lineage(Step(s, a), h)
  {
    hide Step, Enabled, ForkSlot, Waiters, Frames, Pids, ParentOk, EmbryoOk;
    var i, s' := ForkSlot(s, a), Step(s, a);
    ForkIsLocal(s, a);
    ForkSlotUnrelated(s, a);
    ForkPid(s, a);
    assert SlotOk(s, h, i);
    forall j | 0 <= j < |s'.t| ensures SlotOk(s', h, j) {
      assert SlotOk(s, h, j);
    }
    forall k | 0 <= k < |h.reaps| ensures ReapOk(s', h, k) {
      assert ReapOk(s, h, k);
    }
    forall c | c in h.forked ensures Holds(s', c) || WasReaped(h, c) {
      if Holds(s, c) {
        var j :| 0 <= j < |s.t| && s.t[j].pid == c;
        assert s'.t[j].pid == c;
      }
    }
  }

  lemma FinishKeepsLineage(s: State, h: History, q: nat, i: nat)
    requires Inv(s) && Lineage(s, h) && Enabled(s, ForkFinish(q, i))
    ensures Lineage(Step(s, ForkFinish(q, i)), Note(s, ForkFinish(q, i), h))
  {
    var s', h' := Step(s, ForkFinish(q, i)), Note(s, ForkFinish(q, i), h);
    var c := s.t[i].pid;
    assert EmbryoOk(s, i) && SlotOk(s, h, i) && SlotOk(s, h, s.init) && ParentOk(s, i) && ParentOk(s, s.init);
    assert c !in h'.exited;
    forall j | 0 <= j < |s'.t| ensures SlotOk(s', h', j) {
      assert SlotOk(s, h, j) && PidOk(s, i, j) && PidOk(s, s.init, i);
    }
    forall d ensures Holds(s', d) <==> Holds(s, d) {
      SamePids(s, s', d);
    }
    forall k | 0 <= k < |h.reaps| ensures ReapOk(s', h', k) {
      assert ReapOk(s, h, k);
    }
    forall d | d in h'.forked ensures 1 < d < s'.nextpid && (Holds(s', d) || WasReaped(h', d)) {
      if d == c {
        assert PidOk(s, i, s.init);
        assert s'.t[i].pid == d;
      } else {
        assert WasReaped(h, d) ==> WasReaped(h', d);
      }
    }
  }

  lemma ExitKeepsLineage(s: State, h: History, q: nat)
    requires Inv(s) && Lineage(s, h) && Enabled(s, Exit(q))
    ensures Lineage(Step(s, Exit(q)), Note(s, Exit(q), h))
  {
    hide ExitTable, Waiters, Frames, EmbryoOk;
    var s', h' := Step(s, Exit(q)), Note(s, Exit(q), h);
    assert SlotOk(s, h, q) && SlotOk(s, h, s.init) && ParentOk(s, q);
    forall i | 0 <= i < |s.t| ensures s'.t[i].pid == s.t[i].pid {
      ExitSlot(s.t, q, s.init, i);
    }
    forall i | 0 <= i < |s'.t| ensures SlotOk(s', h', i) {
      assert SlotOk(s, h, i) && PidOk(s, q, i) && ParentOk(s, i);
      ExitSlot(s.t, q, s.init, i);
    }
    forall d ensures Holds(s', d) <==> Holds(s, d) {
      SamePids(s, s', d);
    }
    forall k | 0 <= k < |h.reaps| ensures ReapOk(s', h', k) {
      assert ReapOk(s, h, k);
    }
    forall d | d in h'.forked ensures Holds(s', d) || WasReaped(h', d) {
      assert WasReaped(h, d) ==> WasReaped(h', d);
    }
  }

  /** The pid wait returns was in a ZOMBIE child of the caller, and is in no slot afterwards. */
  lemma ReapedPid(s: State, q: nat)
    requires Inv(s) && Enabled(s, Wait(q)) && WaitTable(s.t, q).Child?
    ensures var o := WaitTable(s.t, q);
            && q < |s.t| && o.slot < |s.t| && ZombieChild(s.t[o.slot], q) && s.t[o.slot].pid == o.pid > 0
            && !Holds(Step(s, Wait(q)), o.pid)
  {
    var i, s' := WaitTable(s.t, q).slot, Step(s, Wait(q));
    ReapFacts(s, q);
    assert PidOk(s, i, i);
    forall j | 0 <= j < |s.t| ensures s'.t[j].pid != s.t[i].pid {
      assert PidOk(s, i, j);
    }
  }

  /** What one wait that returns a pid changes: one slot, and one entry of the history. */
  ghost predicate ReapStep(s: State, h: History, s': State, h': History, q: nat, i: nat) {
    && q < |s.t| && i < |s.t| && ZombieChild(s.t[i], q) && i != s.init && s.t[i].pid > 0
    && s' == s.(t := s.t[i := Reaped(s.t[i])], frames := s'.frames)
    && h' == h.(reaps := h.reaps + [Reap(s.t[q].pid, s.t[i].pid)])
    && (forall j :: 0 <= j < |s.t| ==> s.t[j].parent != Some(i)) && !Holds(s', s.t[i].pid)
  }

  lemma WaitIsReapStep(s: State, h: History, q: nat)
    requires Inv(s) && Enabled(s, Wait(q)) && WaitTable(s.t, q).Child?
    ensures ReapStep(s, h, Step(s, Wait(q)), Note(s, Wait(q), h), q, WaitTable(s.t, q).slot)
  {
    ReapFacts(s, q);
    ReapedPid(s, q);
    hide Inv, Holds;
  }

  lemma ReapKeepsSlots(s: State, h: History, s': State, h': History, q: nat, i: nat)
    requires Lineage(s, h) && ReapStep(s, h, s', h', q, i)
    ensures forall j :: 0 <= j < |s'.t| ==> SlotOk(s', h', j)
    ensures Parent(h, s.t[q].pid, s.t[i].pid) && s.t[i].pid in h.exited
  {
    assert SlotOk(s, h, i);
    forall j | 0 <= j < |s'.t| ensures SlotOk(s', h', j) {
      assert SlotOk(s, h, j);
    }
  }

  lemma ReapKeepsLineage(s: State, h: History, s': State, h': History, q: nat, i: nat)
    requires Lineage(s, h) && ReapStep(s, h, s', h', q, i)
    ensures Lineage(s', h')
  {
    ReapKeepsSlots(s, h, s', h', q, i);
    hide SlotOk;
    var c := s.t[i].pid;
    forall d | d != c && d != 0 ensures Holds(s', d) <==> Holds(s, d) {
      if j :| 0 <= j < |s.t| && s.t[j].pid == d {
        assert s'.t[j].pid == d;
      }
    }
    forall k | 0 <= k < |h'.reaps| ensures ReapOk(s', h', k) && (k < |h.reaps| ==> h'.reaps[k].pid != c) {
      if k < |h.reaps| {
        assert ReapOk(s, h, k) && Holds(s, c);
      }
    }
    forall d | d in h'.forked ensures Holds(s', d) || WasReaped(h', d) {
      if d == c {
        assert h'.reaps[|h.reaps|].pid == d;
      } else if WasReaped(h, d) {
        var k :| 0 <= k < |h.reaps| && h.reaps[k].pid == d;
        assert h'.reaps[k].pid == d;
      }
    }
  }

  lemma StepKeepsLineage(s: State, h: History, a: Action)
    requires Inv(s) && Lineage(s, h) && Enabled(s, a)
    ensures Lineage(Step(s, a), Note(s, a, h))
  {
    hide Lineage;
    if Mild(a) {
      MildIsSimilar(s, a);
      SimilarKeepsLineage(s, h, Step(s, a), Note(s, a, h));
    } else if a.ForkFinish? {
      FinishKeepsLineage(s, h, a.q, a.i);
    } else if IsFork(a) {
      ForkKeepsLineage(s, h, a);
    } else if a.Exit? {
      ExitKeepsLineage(s, h, a.q);
    } else if WaitTable(s.t, a.q).Child? {
      WaitIsReapStep(s, h, a.q);
      ReapKeepsLineage(s, h, Step(s, a), Note(s, a, h), a.q, WaitTable(s.t, a.q).slot);
    } else {
      WaitSleeps(s, a.q);
      SimilarKeepsLineage(s, h, Step(s, a), h);
    }
  }

  lemma {:induction false} RunKeepsLineage(s: State, acts: seq<Action>, h: History)
    requires Inv(s) && Lineage(s, h) && Legal(s, acts)
    ensures Lineage(Run(s, acts), Notes(s, acts, h))
    decreases |acts|
  {
    hide Inv, Step, Enabled, Lineage, Note;
    if |acts| > 0 {
      StepKeepsInv(s, acts[0]);
      StepKeepsLineage(s, h, acts[0]);
      RunKeepsLineage(Step(s, acts[0]), acts[1..], Note(s, acts[0], h));
    }
  }

  // Theorems

  lemma InitLineage(s: State)
    requires Init(s)
    ensures Lineage(s, NOTHING)
  {
  }

  /** In every run the invariants hold of the state reached and of its history. */
  lemma Reached(s0: State, acts: seq<Action>)
    requires Init(s0) && Legal(s0, acts)
    ensures Inv(Run(s0, acts)) && Lineage(Run(s0, acts), Notes(s0, acts, NOTHING))
  {
    hide Inv, Init, Lineage, Legal;
    InitInv(s0);
    InitLineage(s0);
    RunKeepsInv(s0, acts);
    RunKeepsLineage(s0, acts, NOTHING);
  }

  /**
   In every run, each pid wait returned had been returned by fork to that caller, or to a process that exited
   before, and then the caller is init; the child had exited; the pid is in no slot; and no pid is returned twice.
   */
  lemma WaitReturnsChildren(s0: State, acts: seq<Action>, k: nat)
    requires Init(s0) && Legal(s0, acts) && k < |Notes(s0, acts, NOTHING).reaps|
    ensures var s, h := Run(s0, acts), Notes(s0, acts, NOTHING);
            var r := h.reaps[k];
            && s.init < |s.t| && r.pid in h.forked && (r.caller == h.forked[r.pid] || (r.caller == s.t[s.init].pid && h.forked[r.pid] in h.exited))
            && r.pid in h.exited && !Holds(s, r.pid)
            && (forall j :: 0 <= j < |h.reaps| && h.reaps[j].pid == r.pid ==> j == k)
  {
    Reached(s0, acts);
    var s, h := Run(s0, acts), Notes(s0, acts, NOTHING);
    assert ReapOk(s, h, k) && SlotOk(s, h, s.init);
  }

  /**
   In every run, each pid fork returned is either in exactly one slot, of a process that has not exited or of
   a zombie, or has been returned by wait; and a pid has exited if and only if it is a zombie's or was returned.
   */
  lemma ChildrenAccounted(s0: State, acts: seq<Action>, c: int)
    requires Init(s0) && Legal(s0, acts) && c in Notes(s0, acts, NOTHING).forked
    ensures var s, h := Run(s0, acts), Notes(s0, acts, NOTHING);
            && (Holds(s, c) <==> !WasReaped(h, c))
            && (forall i :: 0 <= i < |s.t| && s.t[i].pid == c ==> InUse(s.t[i]) && (s.t[i].state == ZOMBIE <==> c in h.exited))
            && (WasReaped(h, c) ==> c in h.exited)
  {
    Reached(s0, acts);
    hide Legal, Run, Notes, Inv;
    var s, h := Run(s0, acts), Notes(s0, acts, NOTHING);
    forall i | 0 <= i < |s.t| && s.t[i].pid == c ensures InUse(s.t[i]) && (s.t[i].state == ZOMBIE <==> c in h.exited) {
      assert SlotOk(s, h, i);
    }
    if k :| 0 <= k < |h.reaps| && h.reaps[k].pid == c {
      assert ReapOk(s, h, k);
    }
  }

  /** While the forker lives, its children stay its own. */
  lemma ForkedIsChild(s: State, h: History, q: nat, c: int)
    requires Inv(s) && Lineage(s, h) && q < |s.t| && Live(s.t[q]) && c in h.forked && h.forked[c] == s.t[q].pid && Holds(s, c)
    ensures HasKids(s.t, q)
  {
    var i :| 0 <= i < |s.t| && s.t[i].pid == c;
    assert SlotOk(s, h, i) && SlotOk(s, h, q) && ParentOk(s, i);
    assert PidOk(s, s.t[i].parent.value, q) && PidOk(s, q, q);
    assert s.t[i].parent == Some(q);
  }

  /** In every run, wait tells a caller that is not killed -1 only when every pid fork ever gave it has been returned. */
  lemma GivesUpWhenChildless(s0: State, acts: seq<Action>, q: nat, c: int)
    requires Init(s0) && Legal(s0, acts) && Enabled(Run(s0, acts), Wait(q)) && WaitTable(Run(s0, acts).t, q).NoChild?
    requires var s, h := Run(s0, acts), Notes(s0, acts, NOTHING);
             !s.t[q].killed && c in h.forked && h.forked[c] == s.t[q].pid
    ensures WasReaped(Notes(s0, acts, NOTHING), c)
  {
    Reached(s0, acts);
    hide Legal, Run, Notes, Step;
    var s, h := Run(s0, acts), Notes(s0, acts, NOTHING);
    if Holds(s, c) {
      ForkedIsChild(s, h, q, c);
    }
  }

  // Who sleeps in wait

  ghost predicate InWait(p: Proc) {
    p.state == SLEEPING && p.chan.OfProc?
  }

  /** A process asleep in wait is not killed, and has a child to wait for. */
  ghost predicate SleeperOk(s: State, i: nat)
    requires i < |s.t|
  {
    InWait(s.t[i]) ==> !s.t[i].killed && HasKids(s.t, i)
  }

  ghost predicate Sleepers(s: State) {
    forall i :: 0 <= i < |s.t| ==> SleeperOk(s, i)
  }

  /** Nobody falls asleep in wait without a child, and kill wakes whom it hits. */
  lemma SleeperFacts(s: State, a: Action, i: nat)
    requires Enabled(s, a) && i < |s.t| && SleeperOk(s, i)
    ensures i < |Step(s, a).t| && (InWait(Step(s, a).t[i]) ==> !Step(s, a).t[i].killed && HasKids(s.t, i))
  {
    hide HasKids, ExitTable;
    if a.Exit? {
      ExitKeepsKilled(s.t, a.q, s.init, i);
      ExitSlot(s.t, a.q, s.init, i);
    }
  }

  /** A sleeper's child stays its child. */
  lemma KidStays(s: State, a: Action, i: nat, j: nat)
    requires Inv(s) && Enabled(s, a) && i < |s.t| == |Step(s, a).t| && j < |s.t| && s.t[j].parent == Some(i) && InWait(Step(s, a).t[i])
    ensures Step(s, a).t[j].parent == Some(i)
  {
    hide ExitTable;
    assert ParentOk(s, j) && ParentOk(s, i);
    if a.Exit? {
      ExitSlot(s.t, a.q, s.init, i);
      ExitSlot(s.t, a.q, s.init, j);
    }
  }

  lemma StepKeepsSleeper(s: State, a: Action, i: nat)
    requires Inv(s) && Enabled(s, a) && i < |s.t| && SleeperOk(s, i)
    ensures i < |Step(s, a).t| && SleeperOk(Step(s, a), i)
  {
    var s' := Step(s, a);
    SleeperFacts(s, a, i);
    if InWait(s'.t[i]) {
      var j :| 0 <= j < |s.t| && s.t[j].parent == Some(i);
      KidStays(s, a, i, j);
      assert s'.t[j].parent == Some(i);
    }
  }

  lemma {:induction false} RunKeepsSleepers(s: State, acts: seq<Action>)
    requires Inv(s) && Sleepers(s) && Legal(s, acts)
    ensures Sleepers(Run(s, acts))
    decreases |acts|
  {
    hide Inv, Step, Enabled, SleeperOk;
    if |acts| > 0 {
      StepKeepsInv(s, acts[0]);
      StepKeepsSize(s, acts[0]);
      forall i | 0 <= i < |Step(s, acts[0]).t| ensures SleeperOk(Step(s, acts[0]), i) {
        StepKeepsSleeper(s, acts[0], i);
      }
      RunKeepsSleepers(Step(s, acts[0]), acts[1..]);
    }
  }

  lemma StepKeepsSize(s: State, a: Action)
    requires Enabled(s, a)
    ensures |Step(s, a).t| == |s.t|
  {
  }

  /**
   In every run a process asleep in wait is not killed, has a child, and none of its children is a zombie:
   what ends its sleep, the exit of a child or a kill, has not happened yet.
   */
  lemma SleepsForAReason(s0: State, acts: seq<Action>, i: nat)
    requires Init(s0) && Legal(s0, acts) && i < |Run(s0, acts).t| && InWait(Run(s0, acts).t[i])
    ensures var t := Run(s0, acts).t;
            && t[i].chan == OfProc(i) && !t[i].killed
            && (exists j :: 0 <= j < |t| && t[j].parent == Some(i))
            && (forall j :: 0 <= j < |t| ==> !ZombieChild(t[j], i))
  {
    InitInv(s0);
    RunKeepsInv(s0, acts);
    RunKeepsSleepers(s0, acts);
    hide Legal, Run;
    var s := Run(s0, acts);
    assert SleeperOk(s, i);
    forall j | 0 <= j < |s.t| ensures s.t[i].chan == OfProc(i) && !ZombieChild(s.t[j], i) {
      assert WaiterOk(s, i, j);
    }
  }

  // kill and wakeup

  /** kill marks and wakes the one process with the pid; nobody else changes. */
  lemma KillWakes(s: State, pid: int, i: nat)
    requires Inv(s) && i < |s.t| && s.t[i].pid == pid != 0
    ensures var s' := Step(s, Kill(pid));
            && |s'.t| == |s.t| && s'.t[i].killed && s'.t[i].state != SLEEPING
            && (s.t[i].state != SLEEPING ==> s'.t[i].state == s.t[i].state) && (s.t[i].state == SLEEPING ==> s'.t[i].state == RUNNABLE)
            && SimilarAt(s.t[i], s'.t[i]) && s'.t[i].chan == s.t[i].chan
            && (forall j :: 0 <= j < |s.t| && j != i ==> s'.t[j] == s.t[j])
            && Note(s, Kill(pid), NOTHING).hit == {pid}
  {
    var k := FirstPid(s.t, pid, 0);
    assert PidOk(s, k.value, i);
    hide FirstPid;
  }

  /** After wakeup nobody sleeps on the channel; everyone else is as before. */
  lemma WakeupWakes(s: State, id: nat, i: nat)
    requires i < |s.t|
    ensures var s' := Step(s, Wakeup(id));
            && |s'.t| == |s.t| && !(s'.t[i].state == SLEEPING && s'.t[i].chan == Other(id))
            && (if s.t[i].state == SLEEPING && s.t[i].chan == Other(id) then s'.t[i] == s.t[i].(state := RUNNABLE) else s'.t[i] == s.t[i])
  {
  }

  /** A fork given up while its slot is marked, or a kill that hits a free slot, leaves a mark behind. */
  ghost predicate LeavesMark(s: State, a: Action)
    requires Enabled(s, a)
  {
    || (a.Kill? && FirstPid(s.t, a.pid, 0).Some? && s.t[FirstPid(s.t, a.pid, 0).value].state == UNUSED)
    || ((a.ForkNoStack? || a.ForkNoCopy?) && s.t[a.i].killed)
  }

  ghost predicate MarksLeft(s: State, acts: seq<Action>)
    requires Legal(s, acts)
    decreases |acts|
  {
    |acts| > 0 && (LeavesMark(s, acts[0]) || MarksLeft(Step(s, acts[0]), acts[1..]))
  }

  /** A process is marked exactly when kill has hit its pid. */
  ghost predicate MarkOk(s: State, h: History, i: nat)
    requires i < |s.t|
  {
    && (s.t[i].killed ==> s.t[i].state != UNUSED)
    && (s.t[i].state != UNUSED ==> (s.t[i].killed <==> s.t[i].pid in h.hit))
  }

  ghost predicate Marks(s: State, h: History) {
    && (forall i :: 0 <= i < |s.t| ==> MarkOk(s, h, i))
    && (forall c :: c in h.hit ==> c < s.nextpid)
  }

  lemma StepKeepsMarks(s: State, h: History, a: Action)
    requires Inv(s) && Marks(s, h) && Enabled(s, a) && !LeavesMark(s, a)
    ensures Marks(Step(s, a), Note(s, a, h))
  {
    hide ExitTable;
    var s', h' := Step(s, a), Note(s, a, h);
    forall i | 0 <= i < |s'.t| ensures MarkOk(s', h', i) {
      assert MarkOk(s, h, i) && PidOk(s, i, i);
      if a.Exit? {
        ExitKeepsKilled(s.t, a.q, s.init, i);
        ExitSlot(s.t, a.q, s.init, i);
      } else if a.Kill? && s.t[i].pid == a.pid && s.t[i].state != UNUSED {
        KillWakes(s, a.pid, i);
      }
    }
    if a.Kill? && FirstPid(s.t, a.pid, 0).Some? {
      assert PidOk(s, FirstPid(s.t, a.pid, 0).value, FirstPid(s.t, a.pid, 0).value);
    }
  }

  lemma {:induction false} RunKeepsMarks(s: State, acts: seq<Action>, h: History)
    requires Inv(s) && Marks(s, h) && Legal(s, acts) && !MarksLeft(s, acts)
    ensures Marks(Run(s, acts), Notes(s, acts, h))
    decreases |acts|
  {
    hide Inv, Step, Enabled, Marks, Note, LeavesMark;
    if |acts| > 0 {
      StepKeepsInv(s, acts[0]);
      StepKeepsMarks(s, h, acts[0]);
      RunKeepsMarks(Step(s, acts[0]), acts[1..], Note(s, acts[0], h));
    }
  }

  /**
   In every run in which no kill hit a free slot and no fork was given up in a marked one, a process is marked
   if and only if kill returned 0 for its pid; a free slot is never marked.
   */
  lemma MarkedIffKilled(s0: State, acts: seq<Action>, i: nat)
    requires Init(s0) && Legal(s0, acts) && !MarksLeft(s0, acts) && i < |Run(s0, acts).t|
    ensures var p := Run(s0, acts).t[i];
            p.killed <==> p.state != UNUSED && p.pid in Notes(s0, acts, NOTHING).hit
  {
    InitInv(s0);
    RunKeepsMarks(s0, acts, NOTHING);
    assert MarkOk(Run(s0, acts), Notes(s0, acts, NOTHING), i);
  }
}
