/**
 The buffer cache of src/bio.c over the synchronous disk of src/memide.c.

 Buffers are numbered 0..NBUF-1 and the list head is number NBUF; `next` and
 `prev` are the link fields.  The ghost fields record what the cache stands for:
 `order` is the list read from head.next, `stamp` the time of each buffer's last
 release, `view` the current content of every sector, and `history` every state
 the disk has been in.
 */
module Bio {
  import opened Blocks

  const NBUF: nat := 30
  const HEAD: nat := NBUF
  const ROOTDEV := 1

  datatype Buf = Buf(dev: int, sector: nat, busy: bool, valid: bool, dirty: bool, data: Block)

  /** What one pass over the cache can end in: a buffer, a sleep on a busy buffer, or a panic. */
  datatype Outcome = Got(b: nat) | Sleep(on: nat) | Panic

  ghost predicate Distinct(s: seq<nat>) {
    forall i, j :: 0 <= i < j < |s| ==> s[i] != s[j]
  }

  /** `order` lists every buffer exactly once. */
  ghost predicate Permutation(order: seq<nat>) {
    && |order| == NBUF
    && Distinct(order)
    && (forall i :: 0 <= i < NBUF ==> order[i] < NBUF)
    && (forall b: nat :: b < NBUF ==> b in order)
  }

  /** Once around the circular list, from the head back to the head. */
  ghost function Ring(order: seq<nat>): seq<nat> {
    [HEAD] + order + [HEAD]
  }

  /** next and prev are the two directions of the ring. */
  ghost predicate Linked(order: seq<nat>, next: seq<nat>, prev: seq<nat>) {
    && |next| == |prev| == NBUF + 1
    && (forall k :: 0 <= k < |order| ==> order[k] < NBUF)
    && var ring := Ring(order);
       forall i, j :: 0 <= i && j == i + 1 && j < |ring| ==> next[ring[i]] == ring[j] && prev[ring[j]] == ring[i]
  }

  /** The list, most recently released first, is sorted by release time. */
  ghost predicate ByRelease(order: seq<nat>, stamp: seq<nat>, clock: nat) {
    && |stamp| == NBUF
    && (forall b :: 0 <= b < NBUF ==> stamp[b] < clock)
    && (forall i, j :: 0 <= i < j < |order| && order[i] < NBUF && order[j] < NBUF ==> stamp[order[i]] > stamp[order[j]])
  }

  predicate Holds(buf: Buf, dev: int, sector: nat) {
    buf.dev == dev && buf.sector == sector
  }

  predicate Clean(buf: Buf) {
    !buf.busy && !buf.dirty
  }

  ghost predicate OneCopy(bufs: seq<Buf>) {
    forall a, b :: 0 <= a < |bufs| && 0 <= b < |bufs| && bufs[a].dev != -1 && Holds(bufs[a], bufs[b].dev, bufs[b].sector)
      ==> a == b
  }

  ghost predicate CachesSector(buf: Buf, s: nat) {
    buf.valid && Holds(buf, ROOTDEV, s)
  }

  ghost predicate InCache(bufs: seq<Buf>, s: nat) {
    exists b :: 0 <= b < |bufs| && CachesSector(bufs[b], s)
  }

  /** `view` is the content of the cached copy where there is one, and of the disk elsewhere. */
  ghost predicate Refines(bufs: seq<Buf>, disk: seq<Block>, view: seq<Block>) {
    && |view| == |disk|
    && (forall b :: 0 <= b < |bufs| && bufs[b].valid ==>
          bufs[b].dev == ROOTDEV && bufs[b].sector < |disk| && view[bufs[b].sector] == bufs[b].data)
    && (forall s :: 0 <= s < |disk| ==> view[s] == disk[s] || InCache(bufs, s))
  }

  /** A buffer nobody holds differs from its home sector only if it is dirty. */
  ghost predicate Coherent(bufs: seq<Buf>, disk: seq<Block>) {
    forall b :: 0 <= b < |bufs| ==>
      && (bufs[b].dirty ==> bufs[b].valid)
      && (Clean(bufs[b]) && bufs[b].valid ==> bufs[b].sector < |disk| && bufs[b].data == disk[bufs[b].sector])
  }

  /** The list with its element k moved to the front. */
  ghost function ToFront(order: seq<nat>, k: nat): seq<nat>
    requires k < |order|
  {
    [order[k]] + (order[..k] + order[k + 1..])
  }

  lemma ToFrontPermutes(order: seq<nat>, k: nat)
    requires Permutation(order) && k < NBUF
    ensures Permutation(ToFront(order, k))
  {
    var o := ToFront(order, k);
    forall b: nat | b < NBUF ensures b in o {
      assert b in order;
      var i :| 0 <= i < |order| && order[i] == b;
      assert o[if i == k then 0 else if i < k then i + 1 else i] == b;
    }
  }

  lemma ToFrontByRelease(order: seq<nat>, k: nat, stamp: seq<nat>, clock: nat)
    requires Permutation(order) && k < NBUF && ByRelease(order, stamp, clock)
    ensures ByRelease(ToFront(order, k), stamp[order[k] := clock], clock + 1)
  {
    var o, stamp' := ToFront(order, k), stamp[order[k] := clock];
    forall i, j | 0 <= i < j < |o| ensures stamp'[o[i]] > stamp'[o[j]] {
      assert o[j] == order[if j <= k then j - 1 else j];
      assert i > 0 ==> o[i] == order[if i <= k then i - 1 else i];
    }
  }

  ghost function Without(order: seq<nat>, k: nat): seq<nat>
    requires k < |order|
  {
    order[..k] + order[k + 1..]
  }

  /** Splicing element k out of the ring: the first two pointer writes of brelse. */
  lemma UnlinkKeepsRing(order: seq<nat>, k: nat, next: seq<nat>, prev: seq<nat>)
    requires Distinct(order) && Linked(order, next, prev) && k < |order|
    ensures next[order[k]] == Ring(order)[k + 2] <= HEAD && prev[order[k]] == Ring(order)[k] <= HEAD
    ensures var b := order[k];
            Linked(Without(order, k), next[prev[b] := next[b]], prev[next[b] := prev[b]])
  {
    var b, o := order[k], Without(order, k);
    var ring, ring' := Ring(order), Ring(o);
    assert ring[k + 1] == b && next[b] == ring[k + 2] && prev[b] == ring[k];
    var next', prev' := next[prev[b] := next[b]], prev[next[b] := prev[b]];
    forall i, j | 0 <= i && j == i + 1 && j < |ring'| ensures next'[ring'[i]] == ring'[j] && prev'[ring'[j]] == ring'[i] {
      if j <= k {
        assert ring'[i] == ring[i] && ring'[j] == ring[j];
      } else if i == k {
        assert ring'[i] == ring[k] && ring'[j] == ring[k + 2];
      } else {
        assert ring'[i] == ring[i + 1] && ring'[j] == ring[j + 1];
      }
    }
  }

  /** Linking b in behind the head: the last four pointer writes of brelse, and each turn of binit. */
  lemma PushFrontKeepsRing(o: seq<nat>, b: nat, next: seq<nat>, prev: seq<nat>)
    requires Linked(o, next, prev) && b < NBUF && b !in o
    ensures next[HEAD] == Ring(o)[1] <= HEAD
    ensures Linked([b] + o, next[b := next[HEAD]][HEAD := b], prev[b := HEAD][next[HEAD] := b])
  {
    var ring, ring' := Ring(o), Ring([b] + o);
    assert next[ring[0]] == ring[1] && prev[ring[1]] == ring[0];
    var next', prev' := next[b := next[HEAD]][HEAD := b], prev[b := HEAD][next[HEAD] := b];
    forall i, j | 0 <= i && j == i + 1 && j < |ring'| ensures next'[ring'[i]] == ring'[j] && prev'[ring'[j]] == ring'[i] {
      if i > 1 {
        assert ring'[i] == ring[i - 1] && ring'[j] == ring[j - 1];
      }
    }
  }

  /** All six pointer writes together: brelse moves the buffer to the front of the ring and changes nothing else. */
  lemma RelinkIsToFront(order: seq<nat>, k: nat, next: seq<nat>, prev: seq<nat>)
    requires Permutation(order) && Linked(order, next, prev) && k < NBUF
    ensures next[order[k]] <= HEAD && prev[order[k]] <= HEAD
    ensures var b := order[k];
            var p1 := prev[next[b] := prev[b]];
            p1[b] == prev[b]
            && var n1 := next[p1[b] := next[b]];
            n1[HEAD] <= HEAD && Linked(ToFront(order, k), n1[b := n1[HEAD]][HEAD := b], p1[b := HEAD][n1[HEAD] := b])
  {
    var b := order[k];
    UnlinkKeepsRing(order, k, next, prev);
    assert next[b] != b by { assert Ring(order)[k + 2] == if k + 1 < NBUF then order[k + 1] else HEAD; }
    var p1, n1 := prev[next[b] := prev[b]], next[prev[b] := next[b]];
    PushFrontKeepsRing(Without(order, k), b, n1, p1);
    assert ToFront(order, k) == [b] + Without(order, k);
  }

  /** Some buffer of the cache is assigned to this sector. */
  ghost predicate Cached(bufs: seq<Buf>, dev: int, sector: nat) {
    exists b :: 0 <= b < |bufs| && Holds(bufs[b], dev, sector)
  }

  /** Some buffer may be recycled. */
  ghost predicate HasClean(bufs: seq<Buf>) {
    exists b :: 0 <= b < |bufs| && Clean(bufs[b])
  }

  class BCache {
    var bufs: seq<Buf>
    var next: seq<nat>
    var prev: seq<nat>
    var disk: seq<Block>
    ghost var order: seq<nat>
    ghost var stamp: seq<nat>
    ghost var clock: nat
    ghost var view: seq<Block>
    ghost var history: seq<seq<Block>>

    ghost predicate Valid()
      reads this
    {
      && |bufs| == NBUF
      && Permutation(order)
      && Linked(order, next, prev)
      && ByRelease(order, stamp, clock)
      && OneCopy(bufs)
      && Refines(bufs, disk, view)
      && Coherent(bufs, disk)
    }

    /** binit: the list is built by pushing each buffer behind the head. */
    constructor (image: seq<Block>)
      ensures Valid()
      ensures disk == image == view && history == []
      ensures forall b :: 0 <= b < NBUF ==> bufs[b].dev == -1 && !bufs[b].busy && !bufs[b].valid && !bufs[b].dirty
    {
      disk, view, history := image, image, [];
      bufs := seq(NBUF, _ => Buf(-1, 0, false, false, false, ZeroBlock()));
      stamp := seq(NBUF, i => i);
      clock := NBUF;
      var nx: seq<nat>, pv: seq<nat> := seq(NBUF + 1, _ => HEAD), seq(NBUF + 1, _ => HEAD);
      ghost var o: seq<nat> := [];
      var b: nat := 0;
      while b < NBUF
        invariant b <= NBUF && |o| == b
        invariant forall i :: 0 <= i < b ==> o[i] == b - 1 - i
        invariant Linked(o, nx, pv)
      {
        PushFrontKeepsRing(o, b, nx, pv);
        nx := nx[b := nx[HEAD]];
        pv := pv[b := HEAD];
        pv := pv[nx[HEAD] := b];
        nx := nx[HEAD := b];
        o := [b] + o;
        b := b + 1;
      }
      next, prev, order := nx, pv, o;
      new;
      forall c: nat | c < NBUF ensures c in order {
        assert order[NBUF - 1 - c] == c;
      }
    }

    /** One pass of bget under bcache.lock, from the label `loop` to a return, a sleep or the panic. */
    method Bget(dev: int, sector: nat) returns (r: Outcome)
      requires Valid() && dev != -1
      modifies this`bufs
      ensures Valid()
      ensures Cached(old(bufs), dev, sector) ==>
                if r.Got? then
                  r.b < NBUF && Holds(old(bufs)[r.b], dev, sector) && !old(bufs)[r.b].busy
                  && bufs == old(bufs)[r.b := old(bufs)[r.b].(busy := true)]
                else
                  r.Sleep? && r.on < NBUF && bufs == old(bufs) && Holds(bufs[r.on], dev, sector) && bufs[r.on].busy
      ensures !Cached(old(bufs), dev, sector) ==> (r.Got? <==> HasClean(old(bufs))) && (r.Panic? <==> !HasClean(old(bufs)))
      ensures !Cached(old(bufs), dev, sector) && r.Got? ==>
                && r.b < NBUF && Clean(old(bufs)[r.b])
                && bufs == old(bufs)[r.b := Buf(dev, sector, true, false, false, old(bufs)[r.b].data)]
                && (forall c :: 0 <= c < NBUF && c != r.b && Clean(old(bufs)[c]) ==> stamp[r.b] < stamp[c])
      ensures r.Panic? ==> bufs == old(bufs)
    {
      ghost var ring := Ring(order);
      var b := next[HEAD];
      ghost var k := 1;
      assert next[ring[0]] == ring[1];
      while b != HEAD
        invariant 1 <= k <= NBUF + 1 && b == ring[k]
        invariant forall i :: 0 <= i < k - 1 ==> !Holds(bufs[order[i]], dev, sector)
        decreases NBUF + 1 - k
      {
        assert b == order[k - 1];
        if bufs[b].dev == dev && bufs[b].sector == sector {
          if !bufs[b].busy {
            FlagsKeepContent(bufs, disk, view, b, true, bufs[b].dirty);
            bufs := bufs[b := bufs[b].(busy := true)];
            return Got(b);
          }
          return Sleep(b);
        }
        assert next[ring[k]] == ring[k + 1];
        b := next[b];
        k := k + 1;
      }
      assert !Cached(bufs, dev, sector) by {
        forall c | 0 <= c < NBUF ensures !Holds(bufs[c], dev, sector) {
          assert c in order;
        }
      }
      b := prev[HEAD];
      k := NBUF;
      assert prev[ring[NBUF + 1]] == ring[NBUF];
      while b != HEAD
        invariant 0 <= k <= NBUF && b == ring[k]
        invariant forall i :: k <= i < NBUF ==> !Clean(bufs[order[i]])
        decreases k
      {
        assert b == order[k - 1];
        if !bufs[b].busy && !bufs[b].dirty {
          VictimIsOldest(k - 1);
          Recycle(bufs, disk, view, b, dev, sector);
          bufs := bufs[b := Buf(dev, sector, true, false, false, bufs[b].data)];
          return Got(b);
        }
        assert prev[ring[k]] == ring[k - 1];
        b := prev[b];
        k := k - 1;
      }
      assert !HasClean(bufs) by {
        forall c | 0 <= c < NBUF ensures !Clean(bufs[c]) {
          assert c in order;
        }
      }
      return Panic;
    }

    /** The first clean buffer met from the tail was released before every other clean buffer. */
    lemma VictimIsOldest(k: nat)
      requires Valid() && k < NBUF
      requires forall i :: k < i < NBUF ==> !Clean(bufs[order[i]])
      ensures forall c :: 0 <= c < NBUF && c != order[k] && Clean(bufs[c]) ==> stamp[order[k]] < stamp[c]
    {
      forall c | 0 <= c < NBUF && c != order[k] && Clean(bufs[c]) ensures stamp[order[k]] < stamp[c] {
        assert c in order;
        var i :| 0 <= i < |order| && order[i] == c;
      }
    }

    /** Sync buf with disk: write it if dirty, otherwise read it if it is not valid. */
    method Iderw(b: nat) returns (ok: bool)
      requires Valid() && b < NBUF && bufs[b].dev != -1
      modifies this`bufs, this`disk, this`history
      ensures Valid()
      ensures ok <==> old(bufs)[b].busy && !(old(bufs)[b].valid && !old(bufs)[b].dirty)
                      && old(bufs)[b].dev == ROOTDEV && old(bufs)[b].sector < |old(disk)|
      ensures !ok ==> bufs == old(bufs) && disk == old(disk) && history == old(history)
      ensures ok && old(bufs)[b].dirty ==>
                && disk == old(disk)[old(bufs)[b].sector := old(bufs)[b].data] && history == old(history) + [disk]
                && bufs == old(bufs)[b := old(bufs)[b].(dirty := false)]
      ensures ok && !old(bufs)[b].dirty ==>
                && disk == old(disk) && history == old(history)
                && bufs == old(bufs)[b := old(bufs)[b].(valid := true, data := view[old(bufs)[b].sector])]
    {
      var buf := bufs[b];
      if !buf.busy || (buf.valid && !buf.dirty) || buf.dev != ROOTDEV || buf.sector >= |disk| {
        return false;
      }
      ghost var disk0, bufs0 := disk, bufs;
      if buf.dirty {
        FillKeepsContent(bufs, disk, view, b, buf.(dirty := false, valid := true), disk[buf.sector := buf.data], view);
        disk := disk[buf.sector := buf.data];
        history := history + [disk];
        bufs := bufs[b := buf.(dirty := false, valid := true)];
        WriteKeepsCoherence(bufs0, disk0, b);
      } else {
        BusyInvalidSeesDisk(bufs, disk, view, b);
        FillKeepsContent(bufs, disk, view, b, buf.(data := disk[buf.sector], valid := true), disk, view);
        bufs := bufs[b := buf.(data := disk[buf.sector], valid := true)];
      }
      return true;
    }

    /** bread: the returned buffer is held by the caller alone and carries the sector's latest content. */
    method Bread(dev: int, sector: nat) returns (r: Outcome)
      requires Valid() && dev != -1
      modifies this`bufs, this`disk, this`history
      ensures r.Panic? <==> if Cached(old(bufs), dev, sector)
                            then exists b :: 0 <= b < NBUF && Holds(old(bufs)[b], dev, sector)
                                   && !old(bufs)[b].busy && !old(bufs)[b].valid && (dev != ROOTDEV || sector >= |old(disk)|)
                            else !HasClean(old(bufs)) || dev != ROOTDEV || sector >= |old(disk)|
      ensures !r.Panic? ==> Valid() && disk == old(disk) && history == old(history)
      ensures r.Sleep? ==> bufs == old(bufs) && r.on < NBUF && Holds(bufs[r.on], dev, sector) && bufs[r.on].busy
      ensures r.Got? ==>
                && r.b < NBUF && !old(bufs)[r.b].busy && dev == ROOTDEV && sector < |view|
                && bufs == old(bufs)[r.b := Buf(dev, sector, true, true, old(bufs)[r.b].dirty, view[sector])]
                && (Holds(old(bufs)[r.b], dev, sector) || (!Cached(old(bufs), dev, sector) && Clean(old(bufs)[r.b])))
    {
      r := Bget(dev, sector);
      if r.Got? && !bufs[r.b].valid {
        var ok := Iderw(r.b);
        if !ok {
          return Panic;
        }
      }
    }

    /** The holder of a buffer stores new content in it. */
    method Store(b: nat, data: Block)
      requires Valid() && b < NBUF && bufs[b].busy && bufs[b].valid
      modifies this`bufs, this`view
      ensures Valid()
      ensures bufs == old(bufs)[b := old(bufs)[b].(data := data)]
      ensures view == old(view)[bufs[b].sector := data]
    {
      FillKeepsContent(bufs, disk, view, b, bufs[b].(data := data), disk, view[bufs[b].sector := data]);
      view := view[bufs[b].sector := data];
      bufs := bufs[b := bufs[b].(data := data)];
    }

    /** The last line of log_write: b->flags |= B_DIRTY, which keeps bget from recycling the buffer. */
    method Pin(b: nat)
      requires Valid() && b < NBUF && bufs[b].valid
      modifies this`bufs
      ensures Valid()
      ensures bufs == old(bufs)[b := old(bufs)[b].(dirty := true)]
    {
      FlagsKeepContent(bufs, disk, view, b, bufs[b].busy, true);
      bufs := bufs[b := bufs[b].(dirty := true)];
    }

    /** bwrite: one synchronous sector write. */
    method Bwrite(b: nat) returns (ok: bool)
      requires Valid() && b < NBUF && bufs[b].valid
      modifies this`bufs, this`disk, this`history
      ensures ok <==> old(bufs)[b].busy
      ensures ok ==>
                && Valid()
                && bufs == old(bufs)[b := old(bufs)[b].(dirty := false)]
                && disk == old(disk)[bufs[b].sector := bufs[b].data]
                && history == old(history) + [disk]
    {
      if !bufs[b].busy {
        return false;
      }
      FlagsKeepContent(bufs, disk, view, b, true, true);
      bufs := bufs[b := bufs[b].(dirty := true)];
      ok := Iderw(b);
    }

    /** The pointer writes of brelse. */
    method MoveToFront(b: nat)
      requires b < NBUF && Permutation(order) && Linked(order, next, prev) && ByRelease(order, stamp, clock)
      modifies this`next, this`prev, this`order, this`stamp, this`clock
      ensures Permutation(order) && Linked(order, next, prev) && ByRelease(order, stamp, clock)
      ensures exists k :: 0 <= k < NBUF && old(order)[k] == b && order == ToFront(old(order), k)
      ensures stamp == old(stamp)[b := old(clock)]
    {
      assert b in order;
      ghost var k :| 0 <= k < |order| && order[k] == b;
      RelinkIsToFront(order, k, next, prev);
      ToFrontPermutes(order, k);
      ToFrontByRelease(order, k, stamp, clock);
      hide Linked, ByRelease;
      prev := prev[next[b] := prev[b]];
      next := next[prev[b] := next[b]];
      next := next[b := next[HEAD]];
      prev := prev[b := HEAD];
      prev := prev[next[HEAD] := b];
      next := next[HEAD := b];
      order := ToFront(order, k);
      stamp := stamp[b := clock];
      clock := clock + 1;
    }

    /** brelse: the buffer becomes the most recently released one.  A caller that changed it has written or logged it. */
    method Brelse(b: nat) returns (ok: bool)
      requires Valid() && b < NBUF
      requires bufs[b].busy ==> bufs[b].valid && (bufs[b].dirty || bufs[b].data == disk[bufs[b].sector])
      modifies this`bufs, this`next, this`prev, this`order, this`stamp, this`clock
      ensures Valid()
      ensures ok <==> old(bufs)[b].busy
      ensures !ok ==> bufs == old(bufs) && order == old(order) && stamp == old(stamp)
      ensures ok ==>
                && bufs == old(bufs)[b := old(bufs)[b].(busy := false)]
                && (exists k :: 0 <= k < NBUF && old(order)[k] == b && order == ToFront(old(order), k))
                && stamp == old(stamp)[b := old(clock)]
    {
      if !bufs[b].busy {
        return false;
      }
      MoveToFront(b);
      FlagsKeepContent(bufs, disk, view, b, false, bufs[b].dirty);
      bufs := bufs[b := bufs[b].(busy := false)];
      return true;
    }
  }

  /** Recycling a clean buffer loses nothing: its content is on disk. */
  lemma Recycle(bufs: seq<Buf>, disk: seq<Block>, view: seq<Block>, b: nat, dev: int, sector: nat)
    requires b < |bufs| && Clean(bufs[b]) && OneCopy(bufs) && Refines(bufs, disk, view) && Coherent(bufs, disk)
    requires !Cached(bufs, dev, sector)
    ensures var bufs' := bufs[b := Buf(dev, sector, true, false, false, bufs[b].data)];
            OneCopy(bufs') && Refines(bufs', disk, view) && Coherent(bufs', disk)
  {
    var bufs' := bufs[b := Buf(dev, sector, true, false, false, bufs[b].data)];
    forall s | 0 <= s < |disk| && view[s] != disk[s] ensures InCache(bufs', s) {
      var c :| 0 <= c < |bufs| && CachesSector(bufs[c], s);
      assert bufs'[c] == bufs[c];
    }
  }

  /** The sector of a buffer not yet read has no other cached copy, so its content is the disk's. */
  lemma BusyInvalidSeesDisk(bufs: seq<Buf>, disk: seq<Block>, view: seq<Block>, b: nat)
    requires b < |bufs| && OneCopy(bufs) && Refines(bufs, disk, view)
    requires !bufs[b].valid && bufs[b].dev == ROOTDEV && bufs[b].sector < |disk|
    ensures view[bufs[b].sector] == disk[bufs[b].sector]
  {
    var s := bufs[b].sector;
    forall c | 0 <= c < |bufs| ensures !CachesSector(bufs[c], s) {
      assert Holds(bufs[c], ROOTDEV, s) ==> c == b;
    }
  }

  /** Writing a held buffer out leaves every unheld clean buffer equal to its home sector. */
  lemma WriteKeepsCoherence(bufs: seq<Buf>, disk: seq<Block>, b: nat)
    requires b < |bufs| && OneCopy(bufs) && Coherent(bufs, disk)
    requires bufs[b].dev == ROOTDEV && bufs[b].sector < |disk| && bufs[b].valid
    requires forall c :: 0 <= c < |bufs| && bufs[c].valid ==> bufs[c].dev == ROOTDEV
    ensures Coherent(bufs[b := bufs[b].(dirty := false)], disk[bufs[b].sector := bufs[b].data])
  {
    forall c | 0 <= c < |bufs| && bufs[c].valid && c != b ensures bufs[c].sector != bufs[b].sector {
      assert Holds(bufs[c], bufs[b].dev, bufs[b].sector) ==> c == b;
    }
  }

  /** Changing only the busy and dirty flags changes no content. */
  lemma FlagsKeepContent(bufs: seq<Buf>, disk: seq<Block>, view: seq<Block>, b: nat, busy: bool, dirty: bool)
    requires b < |bufs| && OneCopy(bufs) && Refines(bufs, disk, view)
    ensures var bufs' := bufs[b := bufs[b].(busy := busy, dirty := dirty)];
            OneCopy(bufs') && Refines(bufs', disk, view)
  {
    var bufs' := bufs[b := bufs[b].(busy := busy, dirty := dirty)];
    forall s | 0 <= s < |disk| && view[s] != disk[s] ensures InCache(bufs', s) {
      var c :| 0 <= c < |bufs| && CachesSector(bufs[c], s);
      assert CachesSector(bufs'[c], s);
    }
  }

  /** Giving buffer b its sector's current content, on disk or in the view, keeps the cache a refinement. */
  lemma FillKeepsContent(bufs: seq<Buf>, disk: seq<Block>, view: seq<Block>, b: nat, buf: Buf, disk': seq<Block>, view': seq<Block>)
    requires b < |bufs| && OneCopy(bufs) && Refines(bufs, disk, view)
    requires Holds(buf, bufs[b].dev, bufs[b].sector) && buf.valid && buf.dev == ROOTDEV && buf.sector < |disk|
    requires |disk'| == |view'| == |disk| && view'[buf.sector] == buf.data
    requires forall s :: 0 <= s < |disk| && s != buf.sector ==> disk'[s] == disk[s] && view'[s] == view[s]
    ensures var bufs' := bufs[b := buf];
            OneCopy(bufs') && Refines(bufs', disk', view')
  {
    var bufs' := bufs[b := buf];
    forall s | 0 <= s < |disk| && view'[s] != disk'[s] ensures InCache(bufs', s) {
      if s == buf.sector {
        assert CachesSector(bufs'[b], s);
      } else {
        var c :| 0 <= c < |bufs| && CachesSector(bufs[c], s);
        assert bufs'[c] == bufs[c];
      }
    }
    forall c | 0 <= c < |bufs'| && bufs'[c].valid && c != b ensures bufs'[c].sector != buf.sector {
      assert Holds(bufs[c], bufs[b].dev, bufs[b].sector) ==> c == b;
    }
  }
}
