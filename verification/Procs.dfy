/** ptable and nextpid, with the loops that scan the table. */
module Procs {
  import opened ProcTable

  class Ptable {
    var procs: Table
    var nextpid: int
    const initproc: nat

    constructor (size: nat, initproc: nat)
      ensures |procs| == size && nextpid == 1 && this.initproc == initproc
      ensures forall i :: 0 <= i < size ==> procs[i] == Proc(UNUSED, 0, None, NoChan, false, None, None)
    {
      procs := seq(size, _ => Proc(UNUSED, 0, None, NoChan, false, None, None));
      nextpid := 1;
      this.initproc := initproc;
    }

    /** allocproc up to the release of ptable.lock. */
    method AllocProc() returns (r: Option<nat>)
      modifies this`procs, this`nextpid
      ensures r == FirstUnused(old(procs), 0)
      ensures r.None? ==> procs == old(procs) && nextpid == old(nextpid)
      ensures r.Some? ==> procs == old(procs)[r.value := old(procs)[r.value].(state := EMBRYO, pid := old(nextpid))]
                          && nextpid == old(nextpid) + 1
    {
      var i := 0;
      while i < |procs|
        invariant 0 <= i <= |procs| && procs == old(procs) && nextpid == old(nextpid)
        invariant FirstUnused(procs, 0) == FirstUnused(procs, i)
      {
        if procs[i].state == UNUSED {
          procs := procs[i := procs[i].(state := EMBRYO, pid := nextpid)];
          nextpid := nextpid + 1;
          return Some(i);
        }
        i := i + 1;
      }
      return None;
    }

    /** wakeup1. */
    method Wakeup1(chan: Chan)
      modifies this`procs
      ensures procs == WakeAll(old(procs), chan)
    {
      var i := 0;
      while i < |procs|
        invariant 0 <= i <= |procs| == |old(procs)|
        invariant forall j :: 0 <= j < |procs| ==> procs[j] == if j < i then WakeOne(old(procs)[j], chan) else old(procs)[j]
      {
        if procs[i].state == SLEEPING && procs[i].chan == chan {
          procs := procs[i := procs[i].(state := RUNNABLE)];
        }
        i := i + 1;
      }
    }

    /** The part of exit under ptable.lock. */
    method Exit(q: nat) returns (ok: bool)
      requires q < |procs| && (q != initproc ==> procs[q].parent.Some?)
      modifies this`procs
      ensures ok <==> q != initproc
      ensures !ok ==> procs == old(procs)
      ensures ok ==> procs == ExitTable(old(procs), q, initproc)
    {
      if q == initproc {
        return false;
      }
      Wakeup1(OfProc(procs[q].parent.value));
      ghost var t1 := procs;
      var i := 0;
      while i < |procs|
        invariant 0 <= i <= |procs| == |t1| && procs == Reparent(t1, q, initproc, i)
      {
        if procs[i].parent == Some(q) {
          procs := procs[i := procs[i].(parent := Some(initproc))];
          if procs[i].state == ZOMBIE {
            Wakeup1(OfProc(initproc));
          }
        }
        i := i + 1;
      }
      procs := procs[q := procs[q].(state := ZOMBIE)];
      return true;
    }

    /** One pass of wait's outer loop under ptable.lock. */
    method Wait(q: nat) returns (ghost out: WaitOutcome, pid: int, again: bool)
      requires q < |procs|
      modifies this`procs
      ensures out == WaitTable(old(procs), q)
      ensures out.Child? ==> procs == out.table && pid == out.pid && !again
      ensures out.NoChild? ==> procs == old(procs) && pid == -1 && !again
      ensures out.Sleep? ==> procs == out.table && again
    {
      ghost var t := procs;
      var havekids := false;
      var i := 0;
      while i < |procs|
        invariant 0 <= i <= |procs| && procs == t
        invariant FirstZombie(t, q, 0) == FirstZombie(t, q, i)
        invariant havekids <==> exists j :: 0 <= j < i && t[j].parent == Some(q)
      {
        if procs[i].parent == Some(q) {
          havekids := true;
          if procs[i].state == ZOMBIE {
            pid := procs[i].pid;
            procs := procs[i := procs[i].(state := UNUSED, pid := 0, parent := None, killed := false, kstack := None)];
            return WaitTable(t, q), pid, false;
          }
        }
        i := i + 1;
      }
      assert havekids <==> HasKids(t, q);
      if !havekids || procs[q].killed {
        return NoChild, -1, false;
      }
      procs := procs[q := procs[q].(state := SLEEPING, chan := OfProc(q))];
      return WaitTable(t, q), 0, true;
    }

    /** kill. */
    method Kill(pid: int) returns (r: int)
      modifies this`procs
      ensures procs == KillTable(old(procs), pid)
      ensures r == if FirstPid(old(procs), pid, 0).Some? then 0 else -1
    {
      var i := 0;
      while i < |procs|
        invariant 0 <= i <= |procs| && procs == old(procs)
        invariant FirstPid(procs, pid, 0) == FirstPid(procs, pid, i)
      {
        if procs[i].pid == pid {
          procs := procs[i := procs[i].(killed := true)];
          if procs[i].state == SLEEPING {
            procs := procs[i := procs[i].(state := RUNNABLE)];
          }
          return 0;
        }
        i := i + 1;
      }
      return -1;
    }
  }
}
