/** Nested interrupt disabling, on which acquire and release are built (src/spinlock.c:92-116). */
module Spinlock {

  /** One processor: its interrupt flag, the nesting depth, and the flag found at the outermost pushcli. */
  datatype Cpu = Cpu(enabled: bool, ncli: int, intena: bool)

  datatype Op = Push | Pop

  function Pushcli(c: Cpu): (r: Cpu) {
    Cpu(false, c.ncli + 1, if c.ncli == 0 then c.enabled else c.intena)
  }

  /** popcli panics when interrupts are on or when it has no partner. */
  predicate PopPanics(c: Cpu) {
    c.enabled || c.ncli - 1 < 0
  }

  function Popcli(c: Cpu): (r: Cpu) {
    Cpu(c.enabled || (c.ncli == 1 && c.intena), c.ncli - 1, c.intena)
  }

  /** How many of the pushes are still open. */
  function Depth(ops: seq<Op>): (r: int) {
    if ops == [] then 0 else Depth(ops[..|ops| - 1]) + if ops[|ops| - 1] == Push then 1 else -1
  }

  /** Every pop has a push before it. */
  ghost predicate Nested(ops: seq<Op>) {
    forall k :: 0 <= k <= |ops| ==> Depth(ops[..k]) >= 0
  }

  /** The run up to its end or its first panic. */
  datatype Outcome = Running(c: Cpu) | Panicked

  function Run(c: Cpu, ops: seq<Op>): (r: Outcome) {
    if ops == [] then Running(c)
    else
      var o := Run(c, ops[..|ops| - 1]);
      if o.Panicked? then Panicked
      else if ops[|ops| - 1] == Push then Running(Pushcli(o.c))
      else if PopPanics(o.c) then Panicked
      else Running(Popcli(o.c))
  }

  /**
   Matched pushes and pops: interrupts are off exactly while one is open, and closing the last
   one gives back the flag there was; the run panics exactly when a pop has no partner.
   */
  lemma {:induction false} PushPopMatch(c: Cpu, ops: seq<Op>)
    requires c.ncli == 0
    ensures Run(c, ops).Running? <==> Nested(ops)
    ensures Nested(ops) ==>
              var r := Run(c, ops).c;
              r.ncli == Depth(ops) && (r.ncli == 0 ==> r.enabled == c.enabled) && (r.ncli > 0 ==> !r.enabled && r.intena == c.enabled)
    decreases |ops|
  {
    if ops != [] {
      var front := ops[..|ops| - 1];
      PushPopMatch(c, front);
      NestedPrefix(ops);
    } else {
      assert ops[..0] == ops;
    }
  }

  /** A run is nested when its front is and its own depth is not negative. */
  lemma {:induction false} NestedPrefix(ops: seq<Op>)
    requires ops != []
    ensures Nested(ops) <==> Nested(ops[..|ops| - 1]) && Depth(ops) >= 0
  {
    var front := ops[..|ops| - 1];
    assert forall k :: 0 <= k <= |front| ==> front[..k] == ops[..k];
    assert ops[..|ops|] == ops;
    if Nested(front) && Depth(ops) >= 0 {
      forall k | 0 <= k <= |ops| ensures Depth(ops[..k]) >= 0 {
        assert k <= |front| ==> front[..k] == ops[..k];
      }
    }
    if Nested(ops) {
      forall k | 0 <= k <= |front| ensures Depth(front[..k]) >= 0 {
        assert front[..k] == ops[..k];
      }
    }
  }

  /** The processor's fields, changed in place. */
  class Processor {
    var enabled: bool
    var ncli: int
    var intena: bool

    function State(): (c: Cpu)
      reads this
    {
      Cpu(enabled, ncli, intena)
    }

    method Push()
      modifies this
      ensures State() == Pushcli(old(State()))
    {
      var eflags := enabled;
      enabled := false;
      if ncli == 0 {
        intena := eflags;
      }
      ncli := ncli + 1;
    }

    /** ok is false where popcli panics. */
    method Pop() returns (ok: bool)
      modifies this
      ensures ok <==> !PopPanics(old(State()))
      ensures ok ==> State() == Popcli(old(State()))
    {
      if enabled {
        return false;
      }
      ncli := ncli - 1;
      if ncli < 0 {
        return false;
      }
      if ncli == 0 && intena {
        enabled := true;
      }
      return true;
    }
  }
}
