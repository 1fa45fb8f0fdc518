/** The queue of windows (src/window.c): a doubly linked list with a sentinel, front window last. */
module WindowLinks {
  const MAXWIN: nat := 32
  const SENT: nat := 32
  const NULL: int := -1

  datatype Links = Links(next: seq<int>, prev: seq<int>)

  predicate Shaped(l: Links) {
    |l.next| == MAXWIN + 1 && |l.prev| == MAXWIN + 1
  }

  predicate Slots(order: seq<nat>) {
    && (forall i :: 0 <= i < |order| ==> order[i] < MAXWIN)
    && (forall i, j :: 0 <= i < j < |order| ==> order[i] != order[j])
  }

  /** The i-th node of the list, the sentinel being the 0-th. */
  function NodeAt(order: seq<nat>, i: nat): (r: nat)
    requires i <= |order|
  {
    if i == 0 then SENT else order[i - 1]
  }

  /** Node i's links. */
  ghost predicate LinkAt(l: Links, order: seq<nat>, i: nat)
    requires Shaped(l) && Slots(order) && i <= |order|
  {
    && NodeAt(order, i) <= MAXWIN
    && l.next[NodeAt(order, i)] == (if i < |order| then order[i] as int else NULL)
    && l.prev[NodeAt(order, i)] == (if i > 0 then NodeAt(order, i - 1) as int else NULL)
  }

  /** The links spell out the order, in both directions. */
  ghost predicate Spells(l: Links, order: seq<nat>) {
    Shaped(l) && Slots(order) && forall i :: 0 <= i <= |order| ==> LinkAt(l, order, i)
  }

  function Without(order: seq<nat>, i: nat): (r: seq<nat>)
    requires i < |order|
    ensures |r| == |order| - 1
  {
    order[..i] + order[i + 1..]
  }

  lemma WithoutSlots(order: seq<nat>, i: nat)
    requires Slots(order) && i < |order|
    ensures Slots(Without(order, i)) && order[i] !in Without(order, i)
  {
  }

  /** addWindow's writes. */
  function Appended(l: Links, tail: nat, x: nat): (r: Links)
    requires Shaped(l) && tail <= MAXWIN && x < MAXWIN
  {
    Links(l.next[tail := x][x := NULL], l.prev[x := tail])
  }

  lemma AppendSpells(l: Links, order: seq<nat>, x: nat)
    requires Spells(l, order) && x < MAXWIN && x !in order
    ensures NodeAt(order, |order|) <= MAXWIN
    ensures Spells(Appended(l, NodeAt(order, |order|), x), order + [x])
  {
    var order', l' := order + [x], Appended(l, NodeAt(order, |order|), x);
    assert LinkAt(l, order, |order|);
    forall i | 0 <= i <= |order'| ensures LinkAt(l', order', i) {
      if i <= |order| {
        assert LinkAt(l, order, i);
      }
    }
  }

  /** sys_deleteWindow's writes: the node after p is bypassed. */
  function Bypassed(l: Links, p: nat, x: nat): (r: Links)
    requires Shaped(l) && p <= MAXWIN && x <= MAXWIN && -1 <= l.next[x] <= MAXWIN
  {
    Links(l.next[p := l.next[x]], if l.next[x] == NULL then l.prev else l.prev[l.next[x] := p])
  }

  lemma BypassSpells(l: Links, order: seq<nat>, i: nat)
    requires Spells(l, order) && i < |order|
    ensures -1 <= l.next[order[i]] <= MAXWIN && NodeAt(order, i) <= MAXWIN
    ensures Spells(Bypassed(l, NodeAt(order, i), order[i]), Without(order, i))
  {
    var p, x := NodeAt(order, i), order[i];
    assert LinkAt(l, order, i) && LinkAt(l, order, i + 1);
    WithoutSlots(order, i);
    var l', order' := Bypassed(l, p, x), Without(order, i);
    forall k | 0 <= k <= |order'| ensures LinkAt(l', order', k) {
      BypassAt(l, order, i, k);
    }
  }

  lemma BypassAt(l: Links, order: seq<nat>, i: nat, k: nat)
    requires Spells(l, order) && i < |order| && k < |order| && -1 <= l.next[order[i]] <= MAXWIN && NodeAt(order, i) <= MAXWIN
    ensures Slots(Without(order, i)) && LinkAt(Bypassed(l, NodeAt(order, i), order[i]), Without(order, i), k)
  {
    WithoutSlots(order, i);
    assert LinkAt(l, order, i) && LinkAt(l, order, i + 1);
    assert LinkAt(l, order, if k <= i then k else k + 1);
  }
}
