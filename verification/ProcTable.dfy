/**
 The process table of src/proc.c: fork, exit, wait, kill, sleep and wakeup as
 operations on the table under ptable.lock.  The class below runs the scanning
 loops; this module says what they compute.
 */
module ProcTable {
  datatype Option<T> = None | Some(value: T)

  datatype ProcState = UNUSED | EMBRYO | SLEEPING | RUNNABLE | RUNNING | ZOMBIE

  /** What a process sleeps on: nothing, a process table entry (wait), or anything else. */
  datatype Chan = NoChan | OfProc(slot: nat) | Other(id: nat)

  datatype Proc = Proc(
    state: ProcState,
    pid: int,
    parent: Option<nat>,
    chan: Chan,
    killed: bool,
    kstack: Option<nat>,
    pgdir: Option<nat>)

  type Table = seq<Proc>

  // wakeup1

  function WakeOne(p: Proc, chan: Chan): (r: Proc) {
    if p.state == SLEEPING && p.chan == chan then p.(state := RUNNABLE) else p
  }

  function WakeAll(t: Table, chan: Chan): (r: Table)
    ensures |r| == |t| && forall i :: 0 <= i < |t| ==> r[i] == WakeOne(t[i], chan)
  {
    seq(|t|, i requires 0 <= i < |t| => WakeOne(t[i], chan))
  }

  // exit

  /** The loop that passes q's children to init, up to slot k; a ZOMBIE among them wakes init. */
  function Reparent(t: Table, q: nat, init: nat, k: nat): (r: Table)
    requires k <= |t|
    ensures |r| == |t|
  {
    if k == 0 then t else
      var r := Reparent(t, q, init, k - 1);
      if r[k - 1].parent != Some(q) then r else
        var r1 := r[k - 1 := r[k - 1].(parent := Some(init))];
        if r1[k - 1].state == ZOMBIE then WakeAll(r1, OfProc(init)) else r1
  }

  function ExitTable(t: Table, q: nat, init: nat): (r: Table)
    requires q < |t| && t[q].parent.Some?
    ensures |r| == |t|
  {
    var t2 := Reparent(WakeAll(t, OfProc(t[q].parent.value)), q, init, |t|);
    t2[q := t2[q].(state := ZOMBIE)]
  }

  // wait

  predicate ZombieChild(p: Proc, q: nat) {
    p.parent == Some(q) && p.state == ZOMBIE
  }

  /** The first slot that satisfies the scan's test, at or after k. */
  function FirstZombie(t: Table, q: nat, k: nat): (r: Option<nat>)
    ensures r.Some? ==> k <= r.value < |t| && ZombieChild(t[r.value], q)
    ensures r.None? ==> forall i :: k <= i < |t| ==> !ZombieChild(t[i], q)
    decreases |t| - k
  {
    if k >= |t| then None else if ZombieChild(t[k], q) then Some(k) else FirstZombie(t, q, k + 1)
  }

  ghost predicate HasKids(t: Table, q: nat) {
    exists i :: 0 <= i < |t| && t[i].parent == Some(q)
  }

  /** A reaped slot; its pgdir field keeps the freed page table's address. */
  function Reaped(p: Proc): (r: Proc) {
    p.(state := UNUSED, pid := 0, parent := None, killed := false, kstack := None)
  }

  /** What wait does under the lock: reap a zombie child, give up, or go to sleep on itself. */
  datatype WaitOutcome = Child(pid: int, slot: nat, table: Table) | NoChild | Sleep(table: Table)

  ghost function WaitTable(t: Table, q: nat): (r: WaitOutcome)
    requires q < |t|
  {
    match FirstZombie(t, q, 0)
    case Some(i) => Child(t[i].pid, i, t[i := Reaped(t[i])])
    case None =>
      if !HasKids(t, q) || t[q].killed then NoChild
      else Sleep(t[q := t[q].(state := SLEEPING, chan := OfProc(q))])
  }

  // kill and allocproc

  function FirstPid(t: Table, pid: int, k: nat): (r: Option<nat>)
    ensures r.Some? ==> k <= r.value < |t| && t[r.value].pid == pid
    ensures r.None? ==> forall i :: k <= i < |t| ==> t[i].pid != pid
    decreases |t| - k
  {
    if k >= |t| then None else if t[k].pid == pid then Some(k) else FirstPid(t, pid, k + 1)
  }

  function Killed(p: Proc): (r: Proc) {
    p.(killed := true, state := if p.state == SLEEPING then RUNNABLE else p.state)
  }

  function KillTable(t: Table, pid: int): (r: Table)
    ensures |r| == |t|
  {
    match FirstPid(t, pid, 0)
    case Some(i) => t[i := Killed(t[i])]
    case None => t
  }

  function FirstUnused(t: Table, k: nat): (r: Option<nat>)
    ensures r.Some? ==> k <= r.value < |t| && t[r.value].state == UNUSED
    ensures r.None? ==> forall i :: k <= i < |t| ==> t[i].state != UNUSED
    decreases |t| - k
  {
    if k >= |t| then None else if t[k].state == UNUSED then Some(k) else FirstUnused(t, k + 1)
  }
}
