/** Any number of readers and writers, in any order. */
module PipeRuns {
  import opened Blocks
  import opened PipeRing

  datatype Job = Write(all: seq<Byte>, left: seq<Byte>) | Read(want: nat)

  /** What a call returned: -1, the bytes read (and how many had been read before them), or the count written. */
  datatype Ret = Failed | Got(at: nat, bytes: seq<Byte>) | Wrote(n: nat)
  datatype Mode = Ready | Asleep | Ended(ret: Ret)
  datatype Thread = Thread(job: Job, mode: Mode, killed: bool)

  datatype State = State(
    ring: Ring,
    readopen: bool,
    writeopen: bool,
    threads: map<nat, Thread>,
    written: seq<Byte>,   // every byte a writer has put in, in order
    got: seq<Byte>,       // every byte a reader has taken out, in order
    frees: nat)           // kfree calls

  datatype Action =
    | Start(t: nat, job: Job)     // a thread calls pipewrite or piperead
    | Turn(t: nat)                // a ready thread runs under p->lock until it gives the lock up
    | Close(writable: bool)       // pipeclose by the last holder of that end
    | Kill(t: nat)

  /** wakeup(&p->nread) or wakeup(&p->nwrite): readers sleep on the one, writers on the other. */
  function Wake(threads: map<nat, Thread>, readers: bool): (r: map<nat, Thread>)
    ensures r.Keys == threads.Keys
    ensures forall t :: t in threads ==> r[t] == WakeOne(threads[t], readers)
  {
    map t | t in threads :: WakeOne(threads[t], readers)
  }

  function WakeOne(x: Thread, readers: bool): (r: Thread) {
    if x.mode == Asleep && x.job.Read? == readers then x.(mode := Ready) else x
  }

  function ModeAfter(out: Outcome, ret: Ret): (m: Mode) {
    match out
    case Sleeps => Asleep
    case Fails => Ended(Failed)
    case Returned => Ended(ret)
  }

  predicate Enabled(s: State, a: Action) {
    match a
    case Start(t, job) => t !in s.threads && (if job.Read? then s.readopen else s.writeopen && job.left == job.all)
    case Turn(t) => t in s.threads && s.threads[t].mode == Ready
    case Close(writable) =>
      && (if writable then s.writeopen else s.readopen)
      && forall t :: t in s.threads && s.threads[t].job.Write? == writable ==> s.threads[t].mode.Ended?
    case Kill(t) => t in s.threads && !s.threads[t].mode.Ended?
  }

  function WriterStep(s: State, t: nat): (r: State)
    requires t in s.threads && s.threads[t].job.Write? && |s.ring.data| == PIPESIZE
  {
    var x := s.threads[t];
    var turn := TakeWriterTurn(s.ring, s.readopen, x.killed, x.job.left);
    var awake := if turn.wakes then Wake(s.threads, true) else s.threads;
    s.(ring := turn.ring,
       written := s.written + x.job.left[..turn.moved],
       threads := awake[t := x.(job := x.job.(left := x.job.left[turn.moved..]), mode := ModeAfter(turn.out, Wrote(|x.job.all|)))])
  }

  function ReaderStep(s: State, t: nat): (r: State)
    requires t in s.threads && s.threads[t].job.Read? && |s.ring.data| == PIPESIZE
  {
    var x := s.threads[t];
    var turn := TakeReaderTurn(s.ring, s.writeopen, x.killed, x.job.want);
    var awake := if turn.wakes then Wake(s.threads, false) else s.threads;
    s.(ring := turn.ring,
       got := s.got + turn.bytes,
       threads := awake[t := x.(mode := ModeAfter(turn.out, Got(|s.got|, turn.bytes)))])
  }

  function Step(s: State, a: Action): (r: State)
    requires Enabled(s, a) && |s.ring.data| == PIPESIZE
    ensures |r.ring.data| == PIPESIZE
  {
    match a
    case Start(t, job) => s.(threads := s.threads[t := Thread(job, Ready, false)])
    case Turn(t) => if s.threads[t].job.Write? then WriterStep(s, t) else ReaderStep(s, t)
    case Close(writable) =>
      var s1 := if writable then s.(writeopen := false, threads := Wake(s.threads, true))
                else s.(readopen := false, threads := Wake(s.threads, false));
      if !s1.readopen && !s1.writeopen then s1.(frees := s1.frees + 1) else s1
    case Kill(t) =>
      var x := s.threads[t];
      s.(threads := s.threads[t := x.(killed := true, mode := if x.mode == Asleep then Ready else x.mode)])
  }

  ghost predicate Init(s: State) {
    |s.ring.data| == PIPESIZE && s.ring.nread == s.ring.nwrite == 0 && s.readopen && s.writeopen && s.threads == map[] && s.written == [] && s.got == [] && s.frees == 0
  }

  /** The bytes read are the first of the bytes written, and the ring holds exactly the others. */
  ghost predicate InOrder(s: State) {
    && |s.got| <= |s.written| && s.got == s.written[..|s.got|]
    && Holds(s.ring, s.written[|s.got|..])
    && s.ring.nread == Wrap(|s.got|) && s.ring.nwrite == Wrap(|s.written|)
  }

  /** A closed end has nobody using it. */
  ghost predicate EndsHeld(s: State) {
    forall t :: t in s.threads && !s.threads[t].mode.Ended? ==> if s.threads[t].job.Read? then s.readopen else s.writeopen
  }

  lemma HoldsSize(r: Ring, q: seq<Byte>)
    requires Holds(r, q)
    ensures |r.data| == PIPESIZE
  {
  }

  lemma WriterMoves(s: State, t: nat)
    requires t in s.threads && s.threads[t].job.Write? && |s.ring.data| == PIPESIZE
    ensures var s', left := WriterStep(s, t), s.threads[t].job.left;
            var (r', k) := WriteRun(s.ring, left);
            k <= |left| && s'.ring == r' && s'.written == s.written + left[..k] && s'.got == s.got
  {
    hide WriteRun, Full;
  }

  lemma WriterKeepsOrder(s: State, t: nat)
    requires InOrder(s) && t in s.threads && s.threads[t].job.Write?
    ensures InOrder(WriterStep(s, t))
  {
    hide Holds, WriteRun, Wrap, Full, WriterStep;
    HoldsSize(s.ring, s.written[|s.got|..]);
    var left := s.threads[t].job.left;
    WriterMoves(s, t);
    WriteRunHolds(s.ring, s.written[|s.got|..], left);
    WriteRunCounts(s.ring, left);
    WrapOn(|s.written|, WriteRun(s.ring, left).1);
    Appended(s.written, left[..WriteRun(s.ring, left).1], |s.got|);
  }

  lemma Appended(w: seq<Byte>, x: seq<Byte>, n: nat)
    requires n <= |w|
    ensures (w + x)[..n] == w[..n] && (w + x)[n..] == w[n..] + x
  {
  }

  lemma Consumed(w: seq<Byte>, n: nat, k: nat)
    requires n + k <= |w|
    ensures w[..n + k] == w[..n] + w[n..][..k] && w[n + k..] == w[n..][k..]
  {
  }

  lemma {:induction false} WriteRunCounts(r: Ring, cs: seq<Byte>)
    requires |r.data| == PIPESIZE
    ensures var (r', k) := WriteRun(r, cs); r'.nread == r.nread && r'.nwrite == Wrap(r.nwrite + k)
    decreases |cs|
  {
    if !(|cs| == 0 || Full(r)) {
      WriteRunCounts(Put(r, cs[0]), cs[1..]);
      WrapOn(r.nwrite + 1, WriteRun(r, cs).1 - 1);
    }
  }

  lemma {:induction false} ReadRunCounts(r: Ring, n: nat)
    requires |r.data| == PIPESIZE
    ensures var (r', out) := ReadRun(r, n); r'.nwrite == r.nwrite && r'.nread == Wrap(r.nread + |out|)
    decreases n
  {
    if !(n == 0 || Empty(r)) {
      ReadRunCounts(Get(r).1, n - 1);
      WrapOn(r.nread + 1, |ReadRun(r, n).1| - 1);
    }
  }

  lemma ReaderMoves(s: State, t: nat)
    requires t in s.threads && s.threads[t].job.Read? && |s.ring.data| == PIPESIZE
    ensures var s', n := ReaderStep(s, t), s.threads[t].job.want;
            s'.written == s.written
            && if s'.ring == s.ring && s'.got == s.got then true
               else s'.ring == ReadRun(s.ring, n).0 && s'.got == s.got + ReadRun(s.ring, n).1
  {
    hide ReadRun;
    assert s.got + [] == s.got;
  }

  lemma ReaderKeepsOrder(s: State, t: nat)
    requires InOrder(s) && t in s.threads && s.threads[t].job.Read?
    ensures InOrder(ReaderStep(s, t))
  {
    hide Holds, ReadRun, Wrap, ReaderStep;
    var q, n := s.written[|s.got|..], s.threads[t].job.want;
    HoldsSize(s.ring, q);
    ReaderMoves(s, t);
    ReadRunHolds(s.ring, q, n);
    ReadRunCounts(s.ring, n);
    WrapOn(|s.got|, |ReadRun(s.ring, n).1|);
    Consumed(s.written, |s.got|, Min(n, |q|));
  }

  lemma StepKeepsOrder(s: State, a: Action)
    requires InOrder(s) && EndsHeld(s) && Enabled(s, a)
    ensures InOrder(Step(s, a)) && EndsHeld(Step(s, a))
  {
    if a.Turn? {
      if s.threads[a.t].job.Write? {
        WriterKeepsOrder(s, a.t);
      } else {
        ReaderKeepsOrder(s, a.t);
      }
    }
    hide InOrder, TakeWriterTurn, TakeReaderTurn;
  }

  // Who may be asleep

  /** Nobody sleeps who could go on: writers sleep on a full ring only, readers on an empty one only. */
  ghost predicate SleepersBlocked(s: State) {
    forall t :: t in s.threads && s.threads[t].mode == Asleep ==>
      if s.threads[t].job.Write? then Full(s.ring) && s.readopen else Empty(s.ring) && s.writeopen
  }

  ghost predicate ReaderAsleep(s: State) {
    exists t :: t in s.threads && s.threads[t].mode == Asleep && s.threads[t].job.Read?
  }

  /** A killed writer with more than a ring's worth left runs while a reader sleeps: it fills the ring and leaves without a wakeup. */
  ghost predicate LosesWakeup(s: State, a: Action) {
    && a.Turn? && a.t in s.threads && s.threads[a.t].job.Write? && s.threads[a.t].killed
    && |s.threads[a.t].job.left| > PIPESIZE && ReaderAsleep(s)
  }

  lemma WriterTurnSleepers(s: State, t: nat)
    requires InOrder(s) && EndsHeld(s) && SleepersBlocked(s) && t in s.threads && s.threads[t].mode == Ready && s.threads[t].job.Write?
    ensures SleepersBlocked(WriterStep(s, t)) <==> !LosesWakeup(s, Turn(t))
  {
    var x, q := s.threads[t], s.written[|s.got|..];
    FullEmpty(s.ring, q);
    WriteRunHolds(s.ring, q, x.job.left);
    var turn := TakeWriterTurn(s.ring, s.readopen, x.killed, x.job.left);
    FullEmpty(turn.ring, q + x.job.left[..turn.moved]);
    hide Holds, Full, Empty, WriteRun;
    var s' := WriterStep(s, t);
    if turn.out == Fails && ReaderAsleep(s) {
      var u :| u in s.threads && s.threads[u].mode == Asleep && s.threads[u].job.Read?;
      assert u in s'.threads && s'.threads[u] == s.threads[u];
    }
  }

  lemma ReaderTurnSleepers(s: State, t: nat)
    requires InOrder(s) && SleepersBlocked(s) && t in s.threads && s.threads[t].mode == Ready && s.threads[t].job.Read?
    ensures SleepersBlocked(ReaderStep(s, t))
  {
    hide Holds, Full, ReadRun;
  }

  /** Each action leaves only blocked sleepers, except exactly the killed writer described above. */
  lemma StepSleepers(s: State, a: Action)
    requires InOrder(s) && EndsHeld(s) && SleepersBlocked(s) && Enabled(s, a)
    ensures SleepersBlocked(Step(s, a)) <==> !LosesWakeup(s, a)
  {
    if a.Turn? {
      if s.threads[a.t].job.Write? {
        WriterTurnSleepers(s, a.t);
      } else {
        ReaderTurnSleepers(s, a.t);
      }
    }
  }

  // Whole runs

  ghost predicate Legal(s: State, acts: seq<Action>)
    requires |s.ring.data| == PIPESIZE
    decreases |acts|
  {
    |acts| == 0 || (Enabled(s, acts[0]) && Legal(Step(s, acts[0]), acts[1..]))
  }

  ghost function Run(s: State, acts: seq<Action>): (r: State)
    requires |s.ring.data| == PIPESIZE && Legal(s, acts)
    ensures |r.ring.data| == PIPESIZE
    decreases |acts|
  {
    if |acts| == 0 then s else Run(Step(s, acts[0]), acts[1..])
  }

  ghost predicate NoKills(s: State) {
    forall t :: t in s.threads ==> !s.threads[t].killed
  }

  lemma StepKeepsNoKills(s: State, a: Action)
    requires |s.ring.data| == PIPESIZE && Enabled(s, a) && NoKills(s) && !a.Kill?
    ensures NoKills(Step(s, a))
  {
    hide TakeReaderTurn, TakeWriterTurn;
  }

  lemma {:induction false} RunKeeps(s: State, acts: seq<Action>)
    requires InOrder(s) && EndsHeld(s) && |s.ring.data| == PIPESIZE && Legal(s, acts)
    ensures var t := Run(s, acts); InOrder(t) && EndsHeld(t)
    ensures SleepersBlocked(s) && NoKills(s) && (forall i :: 0 <= i < |acts| ==> !acts[i].Kill?) ==> SleepersBlocked(Run(s, acts))
    decreases |acts|
  {
    if |acts| > 0 {
      StepKeepsOrder(s, acts[0]);
      if SleepersBlocked(s) && NoKills(s) && !acts[0].Kill? {
        StepSleepers(s, acts[0]);
        StepKeepsNoKills(s, acts[0]);
      }
      hide InOrder, EndsHeld, SleepersBlocked, Enabled, Step, NoKills;
      RunKeeps(Step(s, acts[0]), acts[1..]);
    }
  }

  /** In every run the bytes read are a prefix of the bytes written and at most PIPESIZE are in flight. */
  lemma PipeIsFifo(s0: State, acts: seq<Action>)
    requires Init(s0) && Legal(s0, acts)
    ensures var s := Run(s0, acts);
            && |s.got| <= |s.written| <= |s.got| + PIPESIZE
            && s.got == s.written[..|s.got|]
            && s.ring.nread == Wrap(|s.got|) && s.ring.nwrite == Wrap(|s.written|)
            && Holds(s.ring, s.written[|s.got|..])
  {
    RunKeeps(s0, acts);
  }

  /** In every run without kill, no reader sleeps while there is data and no writer sleeps while there is room. */
  lemma NobodySleepsNeedlessly(s0: State, acts: seq<Action>)
    requires Init(s0) && Legal(s0, acts) && forall i :: 0 <= i < |acts| ==> !acts[i].Kill?
    ensures SleepersBlocked(Run(s0, acts))
  {
    RunKeeps(s0, acts);
  }

  /** With kill it can happen: a reader sleeps, a killed writer of PIPESIZE + 1 bytes runs, and the reader sleeps on a full ring. */
  lemma KilledWriterStrandsReader(s0: State, bytes: seq<Byte>)
    requires Init(s0) && |bytes| == PIPESIZE + 1
    ensures var acts := [Start(0, Read(1)), Turn(0), Start(1, Write(bytes, bytes)), Kill(1), Turn(1)];
            && Legal(s0, acts)
            && var s := Run(s0, acts);
               0 in s.threads && s.threads[0].mode == Asleep && Full(s.ring) && !SleepersBlocked(s)
  {
    var acts := [Start(0, Read(1)), Turn(0), Start(1, Write(bytes, bytes)), Kill(1), Turn(1)];
    var s1 := Step(s0, acts[0]);
    var s2 := Step(s1, acts[1]);
    var s3 := Step(s2, acts[2]);
    var s4 := Step(s3, acts[3]);
    assert s4.threads == map[0 := Thread(Read(1), Asleep, false), 1 := Thread(Write(bytes, bytes), Ready, true)];
    assert s4.ring == s0.ring;
    WriteRunHolds(s4.ring, [], bytes);
    FullEmpty(s0.ring, []);
    var s5 := Step(s4, acts[4]);
    FullEmpty(s5.ring, [] + bytes[..PIPESIZE]);
    hide WriteRun, Holds, Full, Empty;
    assert acts[1..][1..][1..][1..] == [acts[4]];
    assert acts[1..][1..][1..][1..][1..] == [];
    assert Legal(s4, [acts[4]]) && Run(s4, [acts[4]]) == s5 by { assert [acts[4]][1..] == []; }
    assert Legal(s3, acts[3..]) && Run(s3, acts[3..]) == s5 by { assert acts[3..][1..] == [acts[4]]; }
    assert Legal(s2, acts[2..]) && Run(s2, acts[2..]) == s5 by { assert acts[2..][1..] == acts[3..]; }
    assert Legal(s1, acts[1..]) && Run(s1, acts[1..]) == s5 by { assert acts[1..][1..] == acts[2..]; }
  }

  // What a call returns, in terms of the run

  /** The run closed that end. */
  ghost predicate Closes(acts: seq<Action>, writable: bool) {
    Close(writable) in acts
  }

  lemma {:induction false} CloseSticks(s: State, acts: seq<Action>)
    requires |s.ring.data| == PIPESIZE && Legal(s, acts)
    ensures var r := Run(s, acts);
            && (r.writeopen <==> s.writeopen && !Closes(acts, true))
            && (r.readopen <==> s.readopen && !Closes(acts, false))
    decreases |acts|
  {
    if |acts| > 0 {
      assert acts == [acts[0]] + acts[1..];
      assert forall w :: Closes(acts, w) <==> acts[0] == Close(w) || Closes(acts[1..], w);
      StepEnds(s, acts[0]);
      hide Step, Closes;
      CloseSticks(Step(s, acts[0]), acts[1..]);
    }
  }

  lemma StepEnds(s: State, a: Action)
    requires |s.ring.data| == PIPESIZE && Enabled(s, a)
    ensures Step(s, a).writeopen <==> s.writeopen && a != Close(true)
    ensures Step(s, a).readopen <==> s.readopen && a != Close(false)
  {
    hide TakeReaderTurn, TakeWriterTurn;
  }

  /** What the next turn of a reader does after this run: only a live, open and drained pipe puts it to sleep. */
  ghost function ReaderMode(acts: seq<Action>, s: State, x: Thread): (m: Mode)
    requires x.job.Read? && |s.got| <= |s.written|
  {
    var rest := s.written[|s.got|..];
    if rest == [] && !Closes(acts, true) then if x.killed then Ended(Failed) else Asleep
    else Ended(Got(|s.got|, rest[..Min(x.job.want, |rest|)]))
  }

  /** And of a writer: it returns once all its bytes are in, and waits for room only while somebody may still read. */
  ghost function WriterMode(acts: seq<Action>, s: State, x: Thread): (m: Mode)
    requires x.job.Write? && |s.got| <= |s.written|
  {
    var room := PIPESIZE - (|s.written| - |s.got|);
    if |x.job.left| <= room then Ended(Wrote(|x.job.all|))
    else if Closes(acts, false) || x.killed then Ended(Failed) else Asleep
  }

  lemma ReaderTurnIs(s0: State, acts: seq<Action>, t: nat)
    requires Init(s0) && Legal(s0, acts)
    requires var s := Run(s0, acts); t in s.threads && s.threads[t].mode == Ready && s.threads[t].job.Read?
    ensures var s := Run(s0, acts);
            && |s.got| <= |s.written| && t in Step(s, Turn(t)).threads
            && Step(s, Turn(t)).threads[t].mode == ReaderMode(acts, s, s.threads[t])
  {
    RunKeeps(s0, acts);
    CloseSticks(s0, acts);
    hide Legal, Run, Closes;
    var s := Run(s0, acts);
    var q := s.written[|s.got|..];
    FullEmpty(s.ring, q);
    ReadRunHolds(s.ring, q, s.threads[t].job.want);
    hide Holds, Empty, ReadRun;
  }

  lemma WriterTurnIs(s0: State, acts: seq<Action>, t: nat)
    requires Init(s0) && Legal(s0, acts)
    requires var s := Run(s0, acts); t in s.threads && s.threads[t].mode == Ready && s.threads[t].job.Write?
    ensures var s := Run(s0, acts);
            && |s.got| <= |s.written| <= |s.got| + PIPESIZE && t in Step(s, Turn(t)).threads
            && Step(s, Turn(t)).threads[t].mode == WriterMode(acts, s, s.threads[t])
            && Step(s, Turn(t)).written
                 == s.written + s.threads[t].job.left[..Min(|s.threads[t].job.left|, PIPESIZE - (|s.written| - |s.got|))]
  {
    RunKeeps(s0, acts);
    CloseSticks(s0, acts);
    hide Legal, Run, Closes;
    var s := Run(s0, acts);
    WriteRunHolds(s.ring, s.written[|s.got|..], s.threads[t].job.left);
    hide Holds, WriteRun;
  }

  // After a close

  /** Nobody waits for an end that is closed. */
  ghost predicate NoneWaits(s: State) {
    forall t :: t in s.threads && s.threads[t].mode == Asleep ==>
      !s.threads[t].killed && if s.threads[t].job.Read? then s.writeopen else s.readopen
  }

  lemma StepKeepsNoneWaits(s: State, a: Action)
    requires |s.ring.data| == PIPESIZE && NoneWaits(s) && Enabled(s, a)
    ensures NoneWaits(Step(s, a))
  {
    hide WriteRun, ReadRun, Full;
  }

  /** One free per pipe, when both ends are closed. */
  ghost predicate FreedOnce(s: State) {
    s.frees == if s.readopen || s.writeopen then 0 else 1
  }

  lemma StepKeepsFreed(s: State, a: Action)
    requires |s.ring.data| == PIPESIZE && FreedOnce(s) && EndsHeld(s) && Enabled(s, a)
    ensures FreedOnce(Step(s, a))
  {
    hide TakeReaderTurn, TakeWriterTurn;
  }

  lemma {:induction false} RunKeepsEnds(s: State, acts: seq<Action>)
    requires |s.ring.data| == PIPESIZE && InOrder(s) && EndsHeld(s) && NoneWaits(s) && FreedOnce(s) && Results(s) && Legal(s, acts)
    ensures var r := Run(s, acts); NoneWaits(r) && FreedOnce(r) && Results(r)
    decreases |acts|
  {
    if |acts| > 0 {
      StepKeepsOrder(s, acts[0]);
      StepKeepsNoneWaits(s, acts[0]);
      StepKeepsFreed(s, acts[0]);
      StepKeepsResults(s, acts[0]);
      hide InOrder, EndsHeld, NoneWaits, FreedOnce, Results, Enabled, Step;
      RunKeepsEnds(Step(s, acts[0]), acts[1..]);
    }
  }

  /**
   End of file and broken pipe.  In every run that closed the write end nobody is asleep reading, and in
   every run that closed the read end nobody is asleep writing; nobody killed is asleep.  The pipe is freed
   exactly when the run closed both ends, once, and then nobody is in a call on it.
   */
  lemma ClosedEnds(s0: State, acts: seq<Action>)
    requires Init(s0) && Legal(s0, acts)
    ensures var s := Run(s0, acts);
            && (forall t :: t in s.threads && s.threads[t].mode == Asleep ==> !Closes(acts, s.threads[t].job.Read?) && !s.threads[t].killed)
            && s.frees == (if Closes(acts, true) && Closes(acts, false) then 1 else 0)
            && (s.frees > 0 ==> forall t :: t in s.threads ==> s.threads[t].mode.Ended?)
  {
    RunKeeps(s0, acts);
    RunKeepsEnds(s0, acts);
    CloseSticks(s0, acts);
    hide Legal, Run, Closes;
  }

  // What calls returned

  ghost predicate ResultOk(s: State, x: Thread) {
    match x.job
    case Read(want) =>
      x.mode.Ended? && x.mode.ret != Failed ==>
        && x.mode.ret.Got? && |x.mode.ret.bytes| <= want && x.mode.ret.at + |x.mode.ret.bytes| <= |s.got|
        && x.mode.ret.bytes == s.got[x.mode.ret.at..x.mode.ret.at + |x.mode.ret.bytes|]
    case Write(all, left) =>
      && |left| <= |all| && left == all[|all| - |left|..]
      && (x.mode.Ended? ==> (x.mode.ret == Failed && left != []) || (x.mode.ret == Wrote(|all|) && left == []))
  }

  ghost predicate ApartResults(a: Thread, b: Thread) {
    a.mode.Ended? && a.mode.ret.Got? && b.mode.Ended? && b.mode.ret.Got? ==>
      a.mode.ret.at + |a.mode.ret.bytes| <= b.mode.ret.at || b.mode.ret.at + |b.mode.ret.bytes| <= a.mode.ret.at
  }

  ghost predicate Results(s: State) {
    && (forall t :: t in s.threads ==> ResultOk(s, s.threads[t]))
    && (forall t, u :: t in s.threads && u in s.threads && t != u ==> ApartResults(s.threads[t], s.threads[u]))
  }

  /** A thread whose turn it is not keeps its job, and does not end. */
  ghost predicate Bystander(x: Thread, y: Thread) {
    y.job == x.job && (y.mode == x.mode || (!x.mode.Ended? && !y.mode.Ended?))
  }

  lemma StepBystanders(s: State, a: Action, t: nat)
    requires |s.ring.data| == PIPESIZE && Enabled(s, a) && t in Step(s, a).threads && a != Turn(t)
    ensures if t in s.threads then Bystander(s.threads[t], Step(s, a).threads[t])
            else a.Start? && Step(s, a).threads[t] == Thread(a.job, Ready, false) && (a.job.Write? ==> a.job.left == a.job.all)
  {
    hide TakeReaderTurn, TakeWriterTurn;
  }

  lemma StepGot(s: State, a: Action)
    requires InOrder(s) && Enabled(s, a)
    ensures |s.got| <= |Step(s, a).got| && Step(s, a).got[..|s.got|] == s.got
  {
    hide TakeReaderTurn, TakeWriterTurn;
  }

  lemma ReadResult(s: State, t: nat)
    requires InOrder(s) && Enabled(s, Turn(t)) && s.threads[t].job.Read?
    ensures var s' := Step(s, Turn(t));
            && t in s'.threads && s'.threads[t].job == s.threads[t].job
            && (s'.threads[t].mode.Ended? ==>
                  var ret := s'.threads[t].mode.ret;
                  ret == Failed || (ret.Got? && ret.at == |s.got| && |ret.bytes| <= s.threads[t].job.want && s'.got == s.got + ret.bytes))
  {
    ReadRunHolds(s.ring, s.written[|s.got|..], s.threads[t].job.want);
    hide ReadRun, Holds;
  }

  lemma WriteResult(s: State, t: nat)
    requires InOrder(s) && Enabled(s, Turn(t)) && s.threads[t].job.Write? && ResultOk(s, s.threads[t])
    ensures var s' := Step(s, Turn(t)); t in s'.threads && s'.got == s.got && s'.threads[t].job.Write? && ResultOk(s', s'.threads[t])
  {
    WriteRunHolds(s.ring, s.written[|s.got|..], s.threads[t].job.left);
    hide WriteRun, Holds;
  }

  lemma StepResult(s: State, a: Action, t: nat)
    requires |s.ring.data| == PIPESIZE && InOrder(s) && Results(s) && Enabled(s, a) && t in Step(s, a).threads
    ensures ResultOk(Step(s, a), Step(s, a).threads[t])
  {
    hide Step, InOrder, Enabled;
    StepGot(s, a);
    var s' := Step(s, a);
    if t in s.threads {
      assert ResultOk(s, s.threads[t]);
    }
    if a != Turn(t) {
      StepBystanders(s, a, t);
    } else {
      TurnThere(s, t);
      if s.threads[t].job.Read? {
        ReadResult(s, t);
      } else {
        WriteResult(s, t);
      }
    }
  }

  lemma TurnThere(s: State, t: nat)
    requires Enabled(s, Turn(t))
    ensures t in s.threads
  {
  }

  lemma StepApart(s: State, a: Action, t: nat, u: nat)
    requires |s.ring.data| == PIPESIZE && InOrder(s) && Results(s) && Enabled(s, a) && t in Step(s, a).threads && u in Step(s, a).threads && t != u
    ensures ApartResults(Step(s, a).threads[t], Step(s, a).threads[u])
    decreases if a == Turn(u) then 1 else 0
  {
    hide Step, InOrder, Enabled;
    if a == Turn(u) {
      StepApart(s, a, u, t);
    } else {
      StepBystanders(s, a, u);
      assert u in s.threads ==> ResultOk(s, s.threads[u]);
      if a != Turn(t) {
        StepBystanders(s, a, t);
        assert t in s.threads && u in s.threads ==> ApartResults(s.threads[t], s.threads[u]);
      } else {
        TurnThere(s, t);
        if s.threads[t].job.Read? {
          ReadResult(s, t);
        } else {
          assert ResultOk(s, s.threads[t]);
          WriteResult(s, t);
        }
      }
    }
  }

  lemma StepKeepsResults(s: State, a: Action)
    requires |s.ring.data| == PIPESIZE && InOrder(s) && Results(s) && Enabled(s, a)
    ensures Results(Step(s, a))
  {
    hide Step, InOrder, Enabled, ResultOk, ApartResults;
    var s' := Step(s, a);
    forall t | t in s'.threads ensures ResultOk(s', s'.threads[t]) {
      StepResult(s, a, t);
    }
    forall t, u | t in s'.threads && u in s'.threads && t != u ensures ApartResults(s'.threads[t], s'.threads[u]) {
      StepApart(s, a, t, u);
    }
  }

  /**
   What the calls of a run returned: a read its own stretch of the bytes read, no longer than asked and
   apart from every other read's; a write its count exactly if all its bytes went in, -1 otherwise.
   */
  lemma CallsReturn(s0: State, acts: seq<Action>)
    requires Init(s0) && Legal(s0, acts)
    ensures Results(Run(s0, acts))
  {
    RunKeeps(s0, acts);
    RunKeepsEnds(s0, acts);
  }
}
