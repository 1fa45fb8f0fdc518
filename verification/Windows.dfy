/** src/window.c: windows queued, removed and brought to the front. */
module Windows {
  import opened WindowLinks

  /** The list is the order, lastWindow its last node, and exactly the listed windows are in use. */
  ghost predicate Ok(links: Links, inuse: seq<bool>, last: nat, order: seq<nat>) {
    && Spells(links, order) && |inuse| == MAXWIN && last == NodeAt(order, |order|)
    && forall w :: 0 <= w < MAXWIN ==> (inuse[w] <==> w in order)
  }

  lemma AddOk(links: Links, inuse: seq<bool>, last: nat, order: seq<nat>, x: nat)
    requires Ok(links, inuse, last, order) && x < MAXWIN && x !in order
    ensures last <= MAXWIN && Ok(Appended(links, last, x), inuse[x := true], x, order + [x])
  {
    AppendSpells(links, order, x);
    hide Spells;
  }

  lemma DeleteOk(links: Links, inuse: seq<bool>, last: nat, order: seq<nat>, i: nat)
    requires Ok(links, inuse, last, order) && i < |order|
    ensures NodeAt(order, i) <= MAXWIN && order[i] < MAXWIN && -1 <= links.next[order[i]] <= MAXWIN
    ensures var p := NodeAt(order, i);
            Ok(Bypassed(links, p, order[i]), inuse[order[i] := false], if order[i] == last then p else last, Without(order, i))
  {
    BypassSpells(links, order, i);
    WithoutSlots(order, i);
    hide Spells, Bypassed;
    assert forall w :: w in Without(order, i) <==> w in order && w != order[i];
  }

  lemma ReorderOk(links: Links, inuse: seq<bool>, last: nat, order: seq<nat>, i: nat)
    requires Ok(links, inuse, last, order) && i < |order| - 1
    ensures var q := order[i];
            q < MAXWIN && last <= MAXWIN && 0 <= links.prev[q] <= MAXWIN && 0 <= links.next[q] <= MAXWIN
            && Ok(Appended(Bypassed(links, links.prev[q], q), last, q), inuse, q, Without(order, i) + [q])
  {
    var q := order[i];
    assert LinkAt(links, order, i) && LinkAt(links, order, i + 1);
    DeleteOk(links, inuse, last, order, i);
    WithoutSlots(order, i);
    AddOk(Bypassed(links, NodeAt(order, i), q), inuse[q := false], last, Without(order, i), q);
    assert inuse[q := false][q := true] == inuse;
  }

  class Queue {
    var links: Links
    var inuse: seq<bool>
    var last: nat
    ghost var order: seq<nat>

    ghost predicate Valid()
      reads this
    {
      Ok(links, inuse, last, order)
    }

    /** initWindow. */
    constructor ()
      ensures Valid() && order == []
    {
      links := Links(seq(MAXWIN + 1, _ => NULL), seq(MAXWIN + 1, _ => NULL));
      inuse := seq(MAXWIN, _ => false);
      last := SENT;
      order := [];
    }

    /** acquireWindow: the first free slot, if there is one. */
    method AcquireWindow() returns (i: int)
      requires Valid()
      ensures i == -1 <==> forall w :: 0 <= w < MAXWIN ==> w in order
      ensures i != -1 ==> 0 <= i < MAXWIN && i !in order && forall w :: 0 <= w < i ==> w in order
    {
      i := 0;
      while i < MAXWIN
        invariant 0 <= i <= MAXWIN && forall w :: 0 <= w < i ==> w in order
      {
        if !inuse[i] {
          return;
        }
        i := i + 1;
      }
      i := -1;
    }

    /** The forward walk of addWindow and sys_deleteWindow: up to the node before h, or the last node. */
    method Before(h: int) returns (p: nat, ghost k: nat)
      requires Valid()
      ensures k <= |order| && p == NodeAt(order, k) <= MAXWIN && h !in order[..k]
      ensures k < |order| ==> order[k] == h == links.next[p]
      ensures k == |order| ==> links.next[p] == NULL && p == last
    {
      hide Slots;
      p, k := SENT, 0;
      assert LinkAt(links, order, 0);
      while links.next[p] != NULL && links.next[p] != h
        invariant 0 <= k <= |order| && p == NodeAt(order, k) <= MAXWIN && LinkAt(links, order, k) && h !in order[..k]
        decreases |order| - k
      {
        assert order[..k + 1] == order[..k] + [order[k]];
        p := links.next[p];
        k := k + 1;
        assert LinkAt(links, order, k);
      }
    }

    /** sys_createWindow's update of the queue: the new window in front. */
    method AddWindow(x: nat)
      requires Valid() && x < MAXWIN && x !in order
      modifies this
      ensures Valid() && order == old(order) + [x] && last == x
    {
      hide Spells, Slots;
      var p, k := Before(NULL - 1);
      AddOk(links, inuse, last, order, x);
      OkShaped(links, inuse, last, order);
      NotSlot(links, inuse, last, order, NULL - 1);
      links := Links(links.next[p := x], links.prev);
      links := Links(links.next, links.prev[x := p]);
      links := Links(links.next[x := NULL], links.prev);
      inuse := inuse[x := true];
      last := x;
      order := order + [x];
    }

    /** sys_deleteWindow: the window out of the queue wherever it stands. */
    method DeleteWindow(h: int) returns (r: int)
      requires Valid()
      modifies this
      ensures Valid() && (r == 0 <==> h in old(order)) && (r == -1 <==> h !in old(order))
      ensures r == -1 ==> order == old(order)
      ensures r == 0 ==> exists i: nat :: i < |old(order)| && old(order)[i] == h && order == Without(old(order), i)
    {
      hide Spells, Slots, Ok;
      OkShaped(links, inuse, last, order);
      var p, k := Before(h);
      if links.next[p] == NULL {
        NotSlot(links, inuse, last, order, NULL);
        assert order[..|order|] == order;
        return -1;
      }
      DeleteOk(links, inuse, last, order, k);
      inuse := inuse[h := false];
      if h == last {
        last := p;
      }
      links := Bypassed(links, p, h);
      order := Without(order, k);
      return 0;
    }

    /** The backward walk of reorderQueue: the node q, or null past the sentinel. */
    method Backward(q: nat) returns (p: int, ghost k: int)
      requires Valid()
      ensures -1 <= k <= |order| && p == (if k >= 0 then NodeAt(order, k) as int else NULL) && p <= MAXWIN
      ensures p == NULL || p == q
      ensures q in order ==> k >= 1 && order[k - 1] == q
    {
      hide Slots;
      p, k := last, |order|;
      assert LinkAt(links, order, |order|);
      while p != NULL && p != q
        invariant -1 <= k <= |order| && p == (if k >= 0 then NodeAt(order, k) as int else NULL) && p <= MAXWIN
        invariant forall i :: 0 <= i < |order| && order[i] == q ==> i < k
        decreases k
      {
        assert LinkAt(links, order, k);
        p := links.prev[p];
        k := k - 1;
        if k >= 0 {
          assert LinkAt(links, order, k);
        }
      }
      NodeUnique(links, order, q, k);
    }

    /** reorderQueue: window q to the front.  It follows null links when q is not queued or is in front already. */
    method ReorderQueue(q: nat) returns (ok: bool)
      requires Valid()
      modifies this
      ensures ok <==> q in old(order) && q != old(last)
      ensures !ok ==> Valid() && order == old(order) && last == old(last)
      ensures ok ==> Valid() && last == q && exists i: nat :: i < |old(order)| && old(order)[i] == q && order == Without(old(order), i) + [q]
    {
      hide Spells, Slots, Ok;
      OkShaped(links, inuse, last, order);
      var p, k := Backward(q);
      EndsOf(links, inuse, last, order, k);
      if p == NULL || links.prev[p] == NULL || links.next[p] == NULL {
        return false;
      }
      ReorderOk(links, inuse, last, order, k - 1);
      links := Links(links.next[links.prev[q] := links.next[q]], links.prev);
      links := Links(links.next, links.prev[links.next[q] := links.prev[q]]);
      links := Links(links.next[last := q], links.prev);
      links := Links(links.next, links.prev[q := last]);
      links := Links(links.next[q := NULL], links.prev);
      last := q;
      order := Without(order, k - 1) + [q];
      return true;
    }
  }

  lemma OkShaped(links: Links, inuse: seq<bool>, last: nat, order: seq<nat>)
    requires Ok(links, inuse, last, order)
    ensures Shaped(links) && |inuse| == MAXWIN && last == NodeAt(order, |order|) <= MAXWIN
  {
    assert LinkAt(links, order, |order|);
  }

  lemma NotSlot(links: Links, inuse: seq<bool>, last: nat, order: seq<nat>, h: int)
    requires Ok(links, inuse, last, order) && h < 0
    ensures h !in order
  {
  }

  lemma NodeUnique(links: Links, order: seq<nat>, q: nat, k: int)
    requires Spells(links, order) && -1 <= k <= |order| && (k < 0 || NodeAt(order, k) == q)
    requires forall i :: 0 <= i < |order| && order[i] == q ==> i < k
    ensures q in order ==> k >= 1 && order[k - 1] == q
  {
  }

  /** Only the sentinel has no predecessor, and only the last node no successor. */
  lemma EndsOf(links: Links, inuse: seq<bool>, last: nat, order: seq<nat>, k: int)
    requires Ok(links, inuse, last, order) && -1 <= k <= |order|
    ensures k >= 0 ==> Shaped(links) && NodeAt(order, k) <= MAXWIN
    ensures k >= 0 ==> (links.prev[NodeAt(order, k)] == NULL <==> k == 0) && (links.next[NodeAt(order, k)] == NULL <==> k == |order|)
    ensures k >= 0 ==> (NodeAt(order, k) == last <==> k == |order|) && (NodeAt(order, k) in order <==> k >= 1)
  {
    if k >= 0 {
      assert LinkAt(links, order, k);
      assert k >= 1 ==> order[k - 1] == NodeAt(order, k);
    }
  }
}
