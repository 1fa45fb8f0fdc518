/**
 sleep and wakeup of src/proc.c under the spin locks of src/spinlock.c, for any
 number of producers and consumers of one condition.  One action is one acquire,
 one release or one statement between them, so every interleaving is a run.
 */
module Sleep {
  /**
   Where a process is.  A consumer takes lk, and while the condition fails calls sleep(chan, lk);
   a producer takes lk, makes the condition true and calls wakeup(chan), before or after releasing lk.
   */
  datatype Pc =
    // consumer
    | Rest               // not in the critical section; producers rest here too
    | Test               // holds lk, about to test the condition
    | SleepEntered       // in sleep, holds lk, about to acquire ptable.lock
    | SleepBoth          // holds lk and ptable.lock, about to release lk
    | SleepCommitted     // holds ptable.lock, about to set chan and SLEEPING
    | SleepSwitching     // SLEEPING, the scheduler on its CPU still holds ptable.lock
    | Sleeping           // SLEEPING, ptable.lock free
    | Runnable           // made RUNNABLE by wakeup1 or kill
    | Resumed            // scheduled again, holds ptable.lock, about to release it
    | Relock             // about to reacquire lk
    | Leave              // holds lk, about to release it
    // producer
    | Set                // holds lk, about to make the condition true
    | Wake               // holds lk, condition set, about to release lk or acquire ptable.lock
    | WakeBoth           // holds lk and ptable.lock, about to run wakeup1
    | WakeLate           // released lk, about to acquire ptable.lock
    | WakeAlone          // holds ptable.lock only, about to run wakeup1
    | WokenBoth          // wakeup1 done, holds lk and ptable.lock
    | WokenAlone         // wakeup1 done, holds ptable.lock only

  datatype Proc = Proc(producer: bool, pc: Pc, left: nat)

  datatype Option<T> = None | Some(value: T)

  datatype State = State(
    procs: seq<Proc>,
    lk: Option<nat>,       // who holds the caller's lock
    pt: Option<nat>,       // who holds ptable.lock
    value: nat,            // the condition is value > 0
    produced: nat,
    consumed: nat)

  /** Process i's next statement, waking early when it wakes up before releasing lk; or kill waking process i. */
  datatype Action = Go(i: nat, early: bool) | Kill(i: nat)

  predicate HoldsLk(pc: Pc) {
    pc.Test? || pc.SleepEntered? || pc.SleepBoth? || pc.Leave? || pc.Set? || pc.Wake? || pc.WakeBoth? || pc.WokenBoth?
  }

  predicate HoldsPt(pc: Pc) {
    || pc.SleepBoth? || pc.SleepCommitted? || pc.SleepSwitching? || pc.Resumed?
    || pc.WakeBoth? || pc.WakeAlone? || pc.WokenBoth? || pc.WokenAlone?
  }

  /** Asleep, or past the point in sleep where lk is released. */
  predicate GoingToSleep(pc: Pc) {
    pc.SleepCommitted? || pc.SleepSwitching? || pc.Sleeping?
  }

  /** Has set the condition and not yet run wakeup1. */
  predicate WakeupDue(pc: Pc) {
    pc.Wake? || pc.WakeBoth? || pc.WakeLate? || pc.WakeAlone?
  }

  predicate NeedsLk(p: Proc) {
    (p.pc.Rest? && p.left > 0) || p.pc.Relock?
  }

  predicate NeedsPt(p: Proc, early: bool) {
    p.pc.SleepEntered? || p.pc.Runnable? || p.pc.WakeLate? || (p.pc.Wake? && early)
  }

  predicate Enabled(s: State, a: Action) {
    && a.i < |s.procs|
    && match a
       case Go(i, early) =>
         var p := s.procs[i];
         !(p.pc.Rest? && p.left == 0) && !p.pc.Sleeping?
         && (NeedsLk(p) ==> s.lk.None?) && (NeedsPt(p, early) ==> s.pt.None?)
       case Kill(i) => s.procs[i].pc.Sleeping? && s.pt.None?
  }

  /** wakeup1: every process SLEEPING on the channel becomes RUNNABLE. */
  function Wakeup1(procs: seq<Proc>): (r: seq<Proc>)
    ensures |r| == |procs|
    ensures forall i :: 0 <= i < |procs| ==> r[i] == if procs[i].pc.Sleeping? then procs[i].(pc := Runnable) else procs[i]
  {
    seq(|procs|, i requires 0 <= i < |procs| => if procs[i].pc.Sleeping? then procs[i].(pc := Runnable) else procs[i])
  }

  function At(s: State, i: nat, pc: Pc): (r: State)
    requires i < |s.procs|
  {
    s.(procs := s.procs[i := s.procs[i].(pc := pc)])
  }

  function Step(s: State, a: Action): (r: State)
    requires Enabled(s, a)
  {
    var i, p := a.i, s.procs[a.i];
    if a.Kill? then At(s, i, Runnable) else
    match p.pc
    case Rest => At(s, i, if p.producer then Set else Test).(lk := Some(i))
    case Test =>
      if s.value > 0 then
        s.(procs := s.procs[i := p.(pc := Leave, left := if p.left > 0 then p.left - 1 else 0)], value := s.value - 1, consumed := s.consumed + 1)
      else At(s, i, SleepEntered)
    case SleepEntered => At(s, i, SleepBoth).(pt := Some(i))
    case SleepBoth => At(s, i, SleepCommitted).(lk := None)
    case SleepCommitted => At(s, i, SleepSwitching)
    case SleepSwitching => At(s, i, Sleeping).(pt := None)
    case Sleeping => s
    case Runnable => At(s, i, Resumed).(pt := Some(i))
    case Resumed => At(s, i, Relock).(pt := None)
    case Relock => At(s, i, Test).(lk := Some(i))
    case Leave => At(s, i, Rest).(lk := None)
    case Set =>
      s.(procs := s.procs[i := p.(pc := Wake, left := if p.left > 0 then p.left - 1 else 0)], value := s.value + 1, produced := s.produced + 1)
    case Wake => if a.early then At(s, i, WakeBoth).(pt := Some(i)) else At(s, i, WakeLate).(lk := None)
    case WakeBoth => At(s.(procs := Wakeup1(s.procs)), i, WokenBoth)
    case WakeLate => At(s, i, WakeAlone).(pt := Some(i))
    case WakeAlone => At(s.(procs := Wakeup1(s.procs)), i, WokenAlone)
    case WokenBoth => At(s, i, Leave).(pt := None)
    case WokenAlone => At(s, i, Rest).(pt := None)
  }

  // Invariants

  ghost predicate Locks(s: State) {
    && (forall i :: 0 <= i < |s.procs| ==> (HoldsLk(s.procs[i].pc) <==> s.lk == Some(i)))
    && (forall i :: 0 <= i < |s.procs| ==> (HoldsPt(s.procs[i].pc) <==> s.pt == Some(i)))
    && (s.lk.Some? ==> s.lk.value < |s.procs|) && (s.pt.Some? ==> s.pt.value < |s.procs|)
  }

  /** A process that found the condition false, and still holds lk, can rely on it. */
  ghost predicate StillFalse(s: State) {
    forall i :: 0 <= i < |s.procs| && (s.procs[i].pc.SleepEntered? || s.procs[i].pc.SleepBoth?) ==> s.value == 0
  }

  ghost predicate SomeoneSleeps(procs: seq<Proc>) {
    exists i :: 0 <= i < |procs| && GoingToSleep(procs[i].pc)
  }

  ghost predicate SomeWakeupDue(procs: seq<Proc>) {
    exists i :: 0 <= i < |procs| && WakeupDue(procs[i].pc)
  }

  /** No lost wakeup: if the condition holds while someone sleeps on it, some process still has its wakeup to do. */
  ghost predicate NoLostWakeup(s: State) {
    s.value > 0 && SomeoneSleeps(s.procs) ==> SomeWakeupDue(s.procs)
  }

  /** A process keeps to its role, and is in a round only if it has one left. */
  predicate Role(p: Proc) {
    && (p.pc.Set? || WakeupDue(p.pc) || p.pc.WokenBoth? || p.pc.WokenAlone? ==> p.producer)
    && (p.pc.Test? || p.pc.SleepEntered? || p.pc.SleepBoth? || GoingToSleep(p.pc) || p.pc.Runnable? || p.pc.Resumed? || p.pc.Relock?
        ==> !p.producer && p.left > 0)
    && (p.pc.Set? ==> p.left > 0)
  }

  ghost predicate Roles(s: State) {
    forall i :: 0 <= i < |s.procs| ==> Role(s.procs[i])
  }

  function Left(procs: seq<Proc>, producers: bool): (r: nat) {
    if |procs| == 0 then 0 else
      var p := procs[|procs| - 1];
      Left(procs[..|procs| - 1], producers) + if p.producer == producers then p.left else 0
  }

  /** value counts what was produced and not consumed, and nobody's rounds are lost. */
  ghost predicate Conserved(s: State, supply: nat, demand: nat) {
    && s.value + s.consumed == s.produced
    && s.produced + Left(s.procs, true) == supply
    && s.consumed + Left(s.procs, false) == demand
  }

  ghost predicate Inv(s: State) {
    Locks(s) && StillFalse(s) && NoLostWakeup(s) && Roles(s)
  }

  ghost predicate Init(s: State) {
    && s.lk.None? && s.pt.None? && s.value == 0 && s.produced == 0 && s.consumed == 0
    && forall i :: 0 <= i < |s.procs| ==> s.procs[i].pc.Rest?
  }

  // One action

  /** An action moves its own process; wakeup1 moves sleepers too. */
  ghost predicate Moves(s: State, i: nat, t: State) {
    && |t.procs| == |s.procs|
    && forall j :: 0 <= j < |s.procs| && j != i ==>
         t.procs[j] == s.procs[j] || (s.procs[j].pc.Sleeping? && t.procs[j] == s.procs[j].(pc := Runnable))
  }

  ghost function LockAfter(lock: Option<nat>, i: nat, held: bool, holds: bool): Option<nat> {
    if holds then Some(i) else if held then None else lock
  }

  lemma StepMoves(s: State, a: Action)
    requires Enabled(s, a)
    ensures Moves(s, a.i, Step(s, a))
  {
  }

  lemma StepLocks(s: State, a: Action)
    requires Enabled(s, a) && Locks(s)
    ensures var t := Step(s, a);
            var pc, pc' := s.procs[a.i].pc, t.procs[a.i].pc;
            && t.lk == LockAfter(s.lk, a.i, HoldsLk(pc), HoldsLk(pc')) && (HoldsLk(pc') && !HoldsLk(pc) ==> s.lk.None?)
            && t.pt == LockAfter(s.pt, a.i, HoldsPt(pc), HoldsPt(pc')) && (HoldsPt(pc') && !HoldsPt(pc) ==> s.pt.None?)
  {
    hide Locks;
    HolderIs(s, a.i);
  }

  lemma HolderIs(s: State, i: nat)
    requires Locks(s) && i < |s.procs|
    ensures HoldsLk(s.procs[i].pc) <==> s.lk == Some(i)
    ensures HoldsPt(s.procs[i].pc) <==> s.pt == Some(i)
  {
  }

  lemma StepKeepsLocks(s: State, a: Action)
    requires Locks(s) && Enabled(s, a)
    ensures Locks(Step(s, a))
  {
    StepMoves(s, a);
    StepLocks(s, a);
    hide Step, Enabled;
  }

  lemma StepKeepsRoles(s: State, a: Action)
    requires Roles(s) && Enabled(s, a)
    ensures Roles(Step(s, a))
  {
    StepMoves(s, a);
    var p := s.procs[a.i];
    assert Role(p);
    assert Role(Step(s, a).procs[a.i]);
    hide Step, Enabled;
    forall j | 0 <= j < |s.procs| ensures Role(Step(s, a).procs[j]) {
      assert Role(s.procs[j]);
    }
  }

  /** value changes only in the hands of a process that holds lk, and grows only with a wakeup due. */
  lemma ValueUnderLk(s: State, a: Action)
    requires Enabled(s, a)
    ensures var t := Step(s, a);
            && (t.value != s.value ==> s.procs[a.i].pc.Test? || s.procs[a.i].pc.Set?)
            && (t.value > s.value ==> WakeupDue(t.procs[a.i].pc))
  {
  }

  /** sleep is entered only on a false condition. */
  lemma SleepEntry(s: State, a: Action)
    requires Enabled(s, a)
    ensures var pc, t := s.procs[a.i].pc, Step(s, a);
            && (t.procs[a.i].pc.SleepEntered? ==> pc.Test? && t.value == s.value == 0)
            && (t.procs[a.i].pc.SleepBoth? ==> pc.SleepEntered?)
  {
    if a.Go? && (s.procs[a.i].pc.Test? || s.procs[a.i].pc.SleepEntered?) {
    }
  }

  /** A sleeper gives up lk only with ptable.lock in hand. */
  lemma SleepCommit(s: State, a: Action)
    requires Enabled(s, a)
    ensures var pc, t := s.procs[a.i].pc, Step(s, a);
            GoingToSleep(t.procs[a.i].pc) ==> GoingToSleep(pc) || pc.SleepBoth?
  {
    if a.Go? && (GoingToSleep(s.procs[a.i].pc) || s.procs[a.i].pc.SleepBoth?) {
    }
  }

  lemma StepKeepsStillFalse(s: State, a: Action)
    requires Locks(s) && StillFalse(s) && Enabled(s, a)
    ensures StillFalse(Step(s, a))
  {
    StepMoves(s, a);
    ValueUnderLk(s, a);
    SleepEntry(s, a);
    hide Step, Enabled;
    assert forall j :: 0 <= j < |s.procs| && j != a.i && HoldsLk(s.procs[a.i].pc) ==> !HoldsLk(s.procs[j].pc);
  }

  /** Only wakeup1 ends a due wakeup, and then nobody is asleep or about to be. */
  lemma WakeupDischarged(s: State, a: Action)
    requires Locks(s) && Enabled(s, a)
    ensures var t := Step(s, a);
            WakeupDue(s.procs[a.i].pc) && !WakeupDue(t.procs[a.i].pc) ==> !SomeoneSleeps(t.procs)
  {
    var t := Step(s, a);
    if WakeupDue(s.procs[a.i].pc) && !WakeupDue(t.procs[a.i].pc) {
      assert HoldsPt(s.procs[a.i].pc);
      forall j | 0 <= j < |s.procs| ensures !GoingToSleep(t.procs[j].pc) {
        assert HoldsPt(s.procs[j].pc) <==> s.pt == Some(j);
      }
    }
  }

  lemma StepKeepsNoLostWakeup(s: State, a: Action)
    requires Locks(s) && StillFalse(s) && NoLostWakeup(s) && Enabled(s, a)
    ensures NoLostWakeup(Step(s, a))
  {
    StepMoves(s, a);
    ValueUnderLk(s, a);
    SleepEntry(s, a);
    SleepCommit(s, a);
    WakeupDischarged(s, a);
    hide Step, Enabled, Locks;
    var t := Step(s, a);
    if t.value > 0 && SomeoneSleeps(t.procs) && t.value <= s.value {
      var i :| 0 <= i < |t.procs| && GoingToSleep(t.procs[i].pc);
      assert GoingToSleep(s.procs[i].pc);
      var w :| 0 <= w < |s.procs| && WakeupDue(s.procs[w].pc);
      assert WakeupDue(t.procs[w].pc);
    } else if t.value > s.value {
      assert WakeupDue(t.procs[a.i].pc);
    }
  }

  // Counting rounds

  function Share(p: Proc, producers: bool): (r: nat) {
    if p.producer == producers then p.left else 0
  }

  lemma {:induction false} LeftChange(a: seq<Proc>, b: seq<Proc>, i: nat, producers: bool)
    requires |a| == |b| && i < |a|
    requires forall j :: 0 <= j < |a| && j != i ==> Share(a[j], producers) == Share(b[j], producers)
    ensures Left(b, producers) + Share(a[i], producers) == Left(a, producers) + Share(b[i], producers)
    decreases |a|
  {
    var n := |a| - 1;
    if i == n {
      LeftSame(a[..n], b[..n], producers);
    } else {
      LeftChange(a[..n], b[..n], i, producers);
    }
  }

  lemma {:induction false} LeftSame(a: seq<Proc>, b: seq<Proc>, producers: bool)
    requires |a| == |b| && forall j :: 0 <= j < |a| ==> Share(a[j], producers) == Share(b[j], producers)
    ensures Left(a, producers) == Left(b, producers)
    decreases |a|
  {
    if |a| > 0 {
      LeftSame(a[..|a| - 1], b[..|a| - 1], producers);
    }
  }

  lemma {:induction false} LeftBound(procs: seq<Proc>, i: nat, producers: bool)
    requires i < |procs|
    ensures Share(procs[i], producers) <= Left(procs, producers)
    decreases |procs|
  {
    if i < |procs| - 1 {
      LeftBound(procs[..|procs| - 1], i, producers);
    }
  }

  lemma {:induction false} NoneLeft(procs: seq<Proc>, producers: bool)
    requires forall i :: 0 <= i < |procs| ==> Share(procs[i], producers) == 0
    ensures Left(procs, producers) == 0
    decreases |procs|
  {
    if |procs| > 0 {
      NoneLeft(procs[..|procs| - 1], producers);
    }
  }

  /** An action finishes a round exactly when it changes value. */
  lemma StepRounds(s: State, a: Action)
    requires Roles(s) && Enabled(s, a)
    ensures var p, t := s.procs[a.i], Step(s, a);
            && t.procs[a.i].producer == p.producer
            && t.produced == s.produced + (if a.Go? && p.pc.Set? then 1 else 0)
            && t.consumed == s.consumed + (if a.Go? && p.pc.Test? && s.value > 0 then 1 else 0)
            && t.value + t.consumed - t.produced == s.value + s.consumed - s.produced
            && p.left - t.procs[a.i].left == t.produced - s.produced + t.consumed - s.consumed
            && (t.produced > s.produced ==> p.producer) && (t.consumed > s.consumed ==> !p.producer)
  {
    assert Role(s.procs[a.i]);
  }

  lemma StepConserves(s: State, a: Action, supply: nat, demand: nat)
    requires Roles(s) && Enabled(s, a) && Conserved(s, supply, demand)
    ensures Conserved(Step(s, a), supply, demand)
  {
    StepMoves(s, a);
    StepRounds(s, a);
    hide Step, Enabled, Left;
    LeftChange(s.procs, Step(s, a).procs, a.i, true);
    LeftChange(s.procs, Step(s, a).procs, a.i, false);
  }

  // Whole runs

  ghost predicate Legal(s: State, acts: seq<Action>)
    decreases |acts|
  {
    |acts| == 0 || (Enabled(s, acts[0]) && Legal(Step(s, acts[0]), acts[1..]))
  }

  ghost function Run(s: State, acts: seq<Action>): State
    requires Legal(s, acts)
    decreases |acts|
  {
    if |acts| == 0 then s else Run(Step(s, acts[0]), acts[1..])
  }

  lemma {:induction false} RunKeepsInv(s: State, acts: seq<Action>, supply: nat, demand: nat)
    requires Inv(s) && Conserved(s, supply, demand) && Legal(s, acts)
    ensures Inv(Run(s, acts)) && Conserved(Run(s, acts), supply, demand)
    decreases |acts|
  {
    if |acts| > 0 {
      StepKeepsLocks(s, acts[0]);
      StepKeepsStillFalse(s, acts[0]);
      StepKeepsNoLostWakeup(s, acts[0]);
      StepKeepsRoles(s, acts[0]);
      StepConserves(s, acts[0], supply, demand);
      hide Step, Enabled, Locks, StillFalse, NoLostWakeup, Roles, Conserved;
      RunKeepsInv(Step(s, acts[0]), acts[1..], supply, demand);
    }
  }

  lemma InitInv(s: State)
    requires Init(s)
    ensures Inv(s) && Conserved(s, Left(s.procs, true), Left(s.procs, false))
  {
  }

  /** In every reachable state the condition is never true with someone asleep on it and no wakeup still to come. */
  lemma NoWakeupIsLost(s0: State, acts: seq<Action>)
    requires Init(s0) && Legal(s0, acts)
    ensures NoLostWakeup(Run(s0, acts))
  {
    InitInv(s0);
    RunKeepsInv(s0, acts, Left(s0.procs, true), Left(s0.procs, false));
  }

  /** Nobody can take a step. */
  ghost predicate Stuck(s: State) {
    forall i, early :: !Enabled(s, Go(i, early))
  }

  /** Whoever holds ptable.lock can go on, and if nobody does, whoever holds lk can. */
  lemma HolderCanGo(s: State)
    requires Locks(s)
    ensures s.pt.Some? ==> Enabled(s, Go(s.pt.value, false))
    ensures s.pt.None? && s.lk.Some? ==> Enabled(s, Go(s.lk.value, false))
  {
    assert s.pt.Some? ==> HoldsPt(s.procs[s.pt.value].pc);
    assert s.lk.Some? ==> HoldsLk(s.procs[s.lk.value].pc);
  }

  /** Where everybody is when nobody can move: done, or asleep on a condition that is false. */
  lemma StuckMeansWaiting(s: State)
    requires Inv(s) && Stuck(s)
    ensures forall i :: 0 <= i < |s.procs| ==>
              (s.procs[i].pc.Rest? && s.procs[i].left == 0) || (s.procs[i].pc.Sleeping? && s.value == 0)
  {
    HolderCanGo(s);
    forall i | 0 <= i < |s.procs| ensures (s.procs[i].pc.Rest? && s.procs[i].left == 0) || s.procs[i].pc.Sleeping? {
      assert !Enabled(s, Go(i, false));
    }
  }

  /**
   No deadlock: if the producers together have at least as many rounds as the consumers, a run
   stops only when every process has finished all its rounds.
   */
  lemma NoDeadlock(s0: State, acts: seq<Action>)
    requires Init(s0) && Legal(s0, acts) && Stuck(Run(s0, acts)) && Left(s0.procs, false) <= Left(s0.procs, true)
    ensures forall p :: p in Run(s0, acts).procs ==> p.pc.Rest? && p.left == 0
  {
    var supply, demand := Left(s0.procs, true), Left(s0.procs, false);
    InitInv(s0);
    RunKeepsInv(s0, acts, supply, demand);
    var s := Run(s0, acts);
    StuckMeansWaiting(s);
    forall i | 0 <= i < |s.procs| ensures Share(s.procs[i], true) == 0 {
      assert Role(s.procs[i]);
    }
    NoneLeft(s.procs, true);
    forall i | 0 <= i < |s.procs| ensures !s.procs[i].pc.Sleeping? {
      assert Role(s.procs[i]);
      LeftBound(s.procs, i, false);
    }
  }
}
