/**
 The pipe of src/pipe.c: a ring of PIPESIZE bytes with 32-bit counters that wrap
 around.  First the ring as a value, then the class that keeps it in an array, then
 every interleaving of readers and writers.
 */
module PipeRing {
  import opened Blocks

  const PIPESIZE: nat := 512
  const WRAP: nat := 0x1_0000_0000

  datatype Ring = Ring(data: seq<Byte>, nread: Word, nwrite: Word)

  predicate Full(r: Ring) {
    r.nwrite == (r.nread + PIPESIZE) % WRAP
  }

  predicate Empty(r: Ring) {
    r.nread == r.nwrite
  }

  /** A counter's slot in the ring, and a counter after 32-bit wrap-around. */
  function Slot(x: nat): (r: nat)
    ensures r < PIPESIZE
  {
    x % PIPESIZE
  }

  function Wrap(x: nat): (r: Word) {
    x % WRAP
  }

  /** p->data[p->nwrite++ % PIPESIZE] = c */
  function Put(r: Ring, c: Byte): (r': Ring)
    requires |r.data| == PIPESIZE
    ensures |r'.data| == PIPESIZE
  {
    Ring(r.data[Slot(r.nwrite) := c], r.nread, Wrap(r.nwrite + 1))
  }

  /** c = p->data[p->nread++ % PIPESIZE] */
  function Get(r: Ring): (g: (Byte, Ring))
    requires |r.data| == PIPESIZE
    ensures |g.1.data| == PIPESIZE
  {
    (r.data[Slot(r.nread)], r.(nread := Wrap(r.nread + 1)))
  }

  /** The ring holds exactly these bytes, oldest first. */
  ghost predicate Holds(r: Ring, q: seq<Byte>) {
    && |r.data| == PIPESIZE && |q| <= PIPESIZE
    && r.nwrite == Wrap(r.nread + |q|)
    && forall i :: 0 <= i < |q| ==> r.data[Slot(r.nread + i)] == q[i]
  }

  lemma ModAdd(k: nat, y: nat)
    ensures (PIPESIZE * k + y) % PIPESIZE == y % PIPESIZE
  {
  }

  /** Because PIPESIZE divides 2^32, wrapping a counter does not move its slots. */
  lemma WrapKeepsSlot(x: nat, i: nat)
    ensures Slot(Wrap(x) + i) == Slot(x + i)
  {
    assert x + i == PIPESIZE * (8388608 * (x / WRAP)) + (x % WRAP + i);
    ModAdd(8388608 * (x / WRAP), x % WRAP + i);
  }

  lemma WrapOn(x: nat, k: nat)
    ensures Wrap(Wrap(x) + k) == Wrap(x + k)
  {
  }

  /** Distinct bytes in flight lie in distinct slots. */
  lemma SlotsDiffer(x: nat, i: nat, j: nat)
    requires i < j < i + PIPESIZE
    ensures Slot(x + i) != Slot(x + j)
  {
  }

  lemma FullEmpty(r: Ring, q: seq<Byte>)
    requires Holds(r, q)
    ensures Full(r) <==> |q| == PIPESIZE
    ensures Empty(r) <==> |q| == 0
  {
    hide Slot;
  }

  lemma PutHolds(r: Ring, q: seq<Byte>, c: Byte)
    requires Holds(r, q) && !Full(r)
    ensures Holds(Put(r, c), q + [c])
  {
    FullEmpty(r, q);
    hide Slot, Wrap, Full;
    var r' := Put(r, c);
    WrapKeepsSlot(r.nread + |q|, 0);
    WrapOn(r.nread + |q|, 1);
    forall i | 0 <= i <= |q| ensures r'.data[Slot(r.nread + i)] == (q + [c])[i] {
      if i < |q| {
        SlotsDiffer(r.nread, i, |q|);
      }
    }
  }

  lemma GetHolds(r: Ring, q: seq<Byte>)
    requires Holds(r, q) && !Empty(r)
    ensures |q| > 0 && Get(r).0 == q[0] && Holds(Get(r).1, q[1..])
  {
    FullEmpty(r, q);
    hide Slot, Wrap, Empty;
    var r' := Get(r).1;
    assert r.data[Slot(r.nread + 0)] == q[0];
    WrapOn(r.nread + 1, |q| - 1);
    forall i | 0 <= i < |q| - 1 ensures r'.data[Slot(r'.nread + i)] == q[1..][i] {
      WrapKeepsSlot(r.nread + 1, i);
      assert r.data[Slot(r.nread + (i + 1))] == q[i + 1];
    }
  }

  // Runs of bytes

  /** How far the byte loop of pipewrite gets before the ring is full. */
  function WriteRun(r: Ring, cs: seq<Byte>): (w: (Ring, nat))
    requires |r.data| == PIPESIZE
    ensures |w.0.data| == PIPESIZE && w.1 <= |cs|
    ensures w.1 == |cs| || Full(w.0)
    decreases |cs|
  {
    if |cs| == 0 || Full(r) then (r, 0) else
      var w := WriteRun(Put(r, cs[0]), cs[1..]);
      (w.0, w.1 + 1)
  }

  /** What the byte loop of piperead takes, at most n bytes. */
  function ReadRun(r: Ring, n: nat): (g: (Ring, seq<Byte>))
    requires |r.data| == PIPESIZE
    ensures |g.0.data| == PIPESIZE
    decreases n
  {
    if n == 0 || Empty(r) then (r, []) else
      var g := Get(r);
      var rest := ReadRun(g.1, n - 1);
      (rest.0, [g.0] + rest.1)
  }

  function Min(a: nat, b: nat): (r: nat) {
    if a < b then a else b
  }

  lemma {:induction false} WriteRunHolds(r: Ring, q: seq<Byte>, cs: seq<Byte>)
    requires Holds(r, q)
    ensures var (r', k) := WriteRun(r, cs);
            k == Min(|cs|, PIPESIZE - |q|) && Holds(r', q + cs[..k])
    decreases |cs|
  {
    FullEmpty(r, q);
    if |cs| == 0 || Full(r) {
      assert q + cs[..0] == q;
    } else {
      PutHolds(r, q, cs[0]);
      hide Holds, Put, Full;
      WriteRunHolds(Put(r, cs[0]), q + [cs[0]], cs[1..]);
      var k := WriteRun(r, cs).1;
      assert q + [cs[0]] + cs[1..][..k - 1] == q + cs[..k];
    }
  }

  lemma {:induction false} ReadRunHolds(r: Ring, q: seq<Byte>, n: nat)
    requires Holds(r, q)
    ensures var (r', out) := ReadRun(r, n);
            var k := Min(n, |q|);
            out == q[..k] && Holds(r', q[k..])
    decreases n
  {
    FullEmpty(r, q);
    if n == 0 || Empty(r) {
      assert q[0..] == q;
    } else {
      GetHolds(r, q);
      hide Holds, Get;
      ReadRunHolds(Get(r).1, q[1..], n - 1);
      var k := Min(n, |q|);
      assert [q[0]] + q[1..][..k - 1] == q[..k] && q[1..][k - 1..] == q[k..];
    }
  }

  // One stretch under p->lock

  datatype Outcome = Returned | Sleeps | Fails

  /** A turn of pipewrite with bytes cs still to write, from taking the lock to giving it up. */
  datatype WriterTurn = WriterTurn(ring: Ring, moved: nat, out: Outcome, wakes: bool)

  function TakeWriterTurn(r: Ring, readopen: bool, killed: bool, cs: seq<Byte>): (t: WriterTurn)
    requires |r.data| == PIPESIZE
    ensures t.moved <= |cs|
  {
    var (r', k) := WriteRun(r, cs);
    if k == |cs| then WriterTurn(r', k, Returned, true)
    else if !readopen || killed then WriterTurn(r', k, Fails, false)
    else WriterTurn(r', k, Sleeps, true)
  }

  /** A turn of piperead for at most n bytes. */
  datatype ReaderTurn = ReaderTurn(ring: Ring, bytes: seq<Byte>, out: Outcome, wakes: bool)

  function TakeReaderTurn(r: Ring, writeopen: bool, killed: bool, n: nat): (t: ReaderTurn)
    requires |r.data| == PIPESIZE
  {
    if Empty(r) && writeopen then ReaderTurn(r, [], if killed then Fails else Sleeps, false)
    else
      var (r', out) := ReadRun(r, n);
      ReaderTurn(r', out, Returned, true)
  }
}
