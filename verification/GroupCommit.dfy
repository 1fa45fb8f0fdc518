/**
 Group commit over every interleaving of file-system operations, disk writes and
 crashes (src/log.c over the cache of src/bio.c).  `disk` is what a crash leaves
 behind and `view` what the buffer cache holds; one action is one critical section
 of begin_op, log_write or end_op, or one sector write of commit or recovery.
 */
module GroupCommit {
  import opened Blocks
  import opened Wal
  import opened Bio

  /** An outstanding operation and the log_write calls it may still make. */
  datatype Op = Op(id: nat, left: nat)

  /** One log_write: the operation, the sector and the content it gave it. */
  datatype Event<B> = Event(op: nat, sector: Word, block: B)

  /** Where commit or recovery stands; the number counts the sector writes done in that stage. */
  datatype Stage = Idle | WriteLog(done: nat) | Install(done: nat) | Cleared | Recover(done: nat)

  datatype State<!B(!new)> = State(
    L: Layout<B>,
    disk: Disk<B>,
    view: Disk<B>,
    sectors: seq<Word>,     // log.lh.sector[0..log.lh.n]
    outstanding: int,       // log.outstanding
    committing: bool,       // log.committing
    stage: Stage,
    ops: seq<Op>,           // operations between begin_op and end_op
    nextId: nat,
    from: Disk<B>,             // the disk when the current commit or recovery began
    base: Disk<B>,             // the disk the first boot recovered
    events: seq<Event<B>>,     // every log_write not undone by a crash
    committed: nat,         // how many of them were in the log when a header was last written
    nbuf: nat,              // buffers in the cache
    readers: nat,           // how many of them readers outside any operation may hold at once
    held: nat,              // how many they hold now, on sectors no operation writes
    panicked: bool)

  datatype Action<B> =
    | Begin
    | LogWrite(op: nat, sector: Word, block: B)
    | End(op: nat)
    | Hold
    | LetGo
    | DiskWrite
    | Crash

  /** begin_op goes to sleep instead of admitting the operation. */
  predicate MustWait(n: nat, outstanding: int, committing: bool) {
    committing || n + (outstanding + 1) * MAXOPBLOCKS > LOGSIZE
  }

  /** log_write's two panics. */
  predicate LogWritePanics(n: nat, size: int, outstanding: int) {
    n >= LOGSIZE || n >= size - 1 || outstanding < 1
  }

  /** log_write's search: an already logged sector keeps its place. */
  function Absorb(sectors: seq<Word>, sector: Word): (r: seq<Word>) {
    if sector in sectors then sectors else sectors + [sector]
  }

  /** Buffers bget may not recycle because their block is logged and not yet installed. */
  function Pinned<B(!new)>(s: State<B>): (r: int) {
    |s.sectors| - if s.stage.Install? then s.stage.done else 0
  }

  /** Every buffer is pinned or held: bget panics for a sector that has none. */
  predicate NoBuffer<B(!new)>(s: State<B>) {
    Pinned(s) + s.held >= s.nbuf
  }

  predicate Enabled<B(!new)>(s: State<B>, a: Action<B>) {
    && !s.panicked
    && match a
       case Begin => s.stage == Idle && !MustWait(|s.sectors|, s.outstanding, s.committing)
       case LogWrite(op, sector, block) =>
         op < |s.ops| && s.ops[op].left > 0 && sector < |s.view| && !s.L.InLog(sector)
       case End(op) => op < |s.ops|
       case Hold => !s.stage.Recover? && s.held < s.readers
       case LetGo => s.held > 0
       case DiskWrite => s.stage != Idle
       case Crash => true
  }

  /** A synchronous write of one sector; src/memide.c panics if there is no such sector. */
  function PutSector<B(!new)>(s: State<B>, to: int, src: Disk<B>, source: int, next: Stage): (r: State<B>) {
    if 0 <= to < |s.disk| && 0 <= source < |src| then s.(disk := s.disk[to := src[source]], stage := next)
    else s.(panicked := true)
  }

  function PutHeader<B(!new)>(s: State<B>, sectors: seq<Word>, next: Stage): (r: State<B>) {
    if s.L.start < |s.disk| && |sectors| <= LOGSIZE then s.(disk := PutHead(s.L, s.disk, sectors), stage := next)
    else s.(panicked := true)
  }

  /**
   The next sector write finds no buffer.  The blocks of a commit are cached, so it needs one for the
   log block or the header; recovery needs one for the log block and one for its home sector.
   */
  predicate Starved<B(!new)>(s: State<B>) {
    match s.stage
    case Idle => false
    case WriteLog(k) => NoBuffer(s)
    case Install(k) => NoBuffer(s)
    case Cleared => false
    case Recover(k) =>
      s.nbuf < if s.L.start < |s.from| && k < |s.L.decode(s.from[s.L.start])| then 2 else 1
  }

  /** The next sector write of commit or recovery; from Cleared, the critical section that ends the commit. */
  function WriteSector<B(!new)>(s: State<B>): (r: State<B>) {
    var first := s.L.start + 1;
    match s.stage
    case Idle => s
    case WriteLog(k) =>
      if k < |s.sectors| then PutSector(s, first + k, s.view, s.sectors[k], WriteLog(k + 1))
      else PutHeader(s, s.sectors, Install(0)).(committed := |s.events|)
    case Install(k) =>
      if k < |s.sectors| then PutSector(s, s.sectors[k], s.disk, first + k, Install(k + 1))
      else PutHeader(s, [], Cleared).(sectors := [])
    case Cleared => s.(stage := Idle, committing := false)
    case Recover(k) =>
      if s.L.start >= |s.from| || |s.L.decode(s.from[s.L.start])| > LOGSIZE then s.(panicked := true) else
        var sectors := s.L.decode(s.from[s.L.start]);  // as read_head found them
        if k < |sectors| then PutSector(s, sectors[k], s.disk, first + k, Recover(k + 1))
        else var t := PutHeader(s, [], Idle); t.(view := t.disk)
  }

  function Step<B(!new)>(s: State<B>, a: Action<B>): (r: State<B>)
    requires Enabled(s, a)
    ensures r.L == s.L && r.base == s.base && |r.disk| == |s.disk| && r.nbuf == s.nbuf && r.readers == s.readers
  {
    match a
    case Begin =>
      s.(outstanding := s.outstanding + 1, ops := s.ops + [Op(s.nextId, MAXOPBLOCKS)], nextId := s.nextId + 1)
    case LogWrite(op, sector, block) =>
      if (sector !in s.sectors && NoBuffer(s)) || LogWritePanics(|s.sectors|, s.L.size, s.outstanding) then s.(panicked := true) else
        s.(sectors := Absorb(s.sectors, sector),
           view := s.view[sector := block],
           events := s.events + [Event(s.ops[op].id, sector, block)],
           ops := s.ops[op := s.ops[op].(left := s.ops[op].left - 1)])
    case End(op) =>
      if s.committing then s.(panicked := true) else
        var t := s.(outstanding := s.outstanding - 1, ops := s.ops[..op] + s.ops[op + 1..]);
        if t.outstanding != 0 then t
        else t.(committing := true, from := s.disk, stage := if |t.sectors| > 0 then WriteLog(0) else Cleared)
    case Hold => if NoBuffer(s) then s.(panicked := true) else s.(held := s.held + 1)
    case LetGo => s.(held := s.held - 1)
    case DiskWrite => if Starved(s) then s.(panicked := true) else WriteSector(s)
    case Crash =>
      s.(held := 0, sectors := [], outstanding := 0, committing := false, stage := Recover(0), ops := [],
         view := s.disk, from := s.disk, events := s.events[..if s.committed <= |s.events| then s.committed else 0])
  }

  /** The machine as it boots on a disk: recovery comes first. */
  ghost predicate Init<B(!new)>(s: State<B>) {
    && WellFormed(s.L, s.disk)
    && s == State(s.L, s.disk, s.disk, [], 0, false, Recover(0), [], 0, s.disk, Recovered(s.L, s.disk), [], 0, s.nbuf, s.readers, 0, false)
  }

  // What the invariant is made of

  function UnusedBudget(ops: seq<Op>): (r: nat) {
    if |ops| == 0 then 0 else ops[0].left + UnusedBudget(ops[1..])
  }

  /** The home sectors the first log_writes of a list produce, starting from disk d. */
  function Replay<B(!new)>(d: Disk<B>, events: seq<Event<B>>): (r: Disk<B>)
    ensures |r| == |d|
  {
    if |events| == 0 then d else
      var e := events[|events| - 1];
      var r := Replay(d, events[..|events| - 1]);
      if e.sector < |d| then r[e.sector := e.block] else r
  }

  ghost predicate NoRepeats(sectors: seq<Word>) {
    forall i, j :: 0 <= i < j < |sectors| ==> sectors[i] != sectors[j]
  }

  /** The log struct: who may be running, and how much log space is spoken for. */
  ghost predicate Counted<B(!new)>(s: State<B>) {
    && s.outstanding == |s.ops|
    && (s.committing <==> s.stage.WriteLog? || s.stage.Install? || s.stage.Cleared?)
    && (s.committing || s.stage.Recover? ==> |s.ops| == 0)
    && (forall k :: 0 <= k < |s.ops| ==> s.ops[k].left <= MAXOPBLOCKS)
    && |s.sectors| + UnusedBudget(s.ops) <= LOGSIZE
    && (s.stage.Cleared? || s.stage.Recover? || (s.stage.Idle? && |s.ops| == 0) ==> s.sectors == [])
    && Fits(s.L, |s.disk|, s.sectors) && NoRepeats(s.sectors)
    && s.held <= s.readers && (s.stage.Install? ==> s.stage.done <= |s.sectors|)
  }

  /** No operation has events on both sides of the committed boundary, and none still running has any before it. */
  ghost predicate Whole<B(!new)>(s: State<B>) {
    && s.committed <= |s.events|
    && (s.stage.Install? || s.stage.Cleared? || s.stage.Recover? || s.sectors == [] ==> s.committed == |s.events|)
    && (forall i :: 0 <= i < |s.events| ==> s.events[i].op < s.nextId)
    && (forall k :: 0 <= k < |s.ops| ==> s.ops[k].id < s.nextId)
    && (forall i, k :: 0 <= i < s.committed && 0 <= k < |s.ops| ==> s.events[i].op != s.ops[k].id)
    && (forall i, j :: 0 <= i < s.committed <= j < |s.events| ==> s.events[i].op != s.events[j].op)
  }

  /** The home sectors a crash must give back: those of the log_writes in committed groups. */
  ghost function Durable<B(!new)>(s: State<B>): Disk<B>
    requires s.committed <= |s.events|
  {
    Replay(s.base, s.events[..s.committed])
  }

  /** What is on disk at each stage: a point of the commit or of the recovery that began at `from`. */
  ghost predicate OnDisk<B(!new)>(s: State<B>)
    requires s.L.start + s.L.size <= |s.disk| && s.committed <= |s.events|
  {
    && |s.view| == |s.disk| == |s.from| == |s.base|
    && (!s.stage.Recover? ==> SameHome(s.L, s.view, Replay(s.base, s.events)))
    && match s.stage
       case Idle =>
         && Empty(s.L, s.disk)
         && DiffersOnlyAt(s.L, s.disk, s.view, s.sectors) && SameHome(s.L, s.disk, Durable(s))
       case WriteLog(k) =>
         && Empty(s.L, s.from) && k <= |s.sectors| && Fits(s.L, |s.from|, s.sectors)
         && DiffersOnlyAt(s.L, s.from, s.view, s.sectors) && SameHome(s.L, s.from, Durable(s))
         && s.disk == LogTo(s.L, s.from, s.view, s.sectors, k)
       case Install(k) =>
         && k <= |s.sectors| && Fits(s.L, |s.from|, s.sectors)
         && DiffersOnlyAt(s.L, s.from, s.view, s.sectors)
         && s.disk == InstallTo(s.L, Logged(s.L, s.from, s.view, s.sectors), s.sectors, k)
       case Cleared =>
         Empty(s.L, s.disk) && SameHome(s.L, s.disk, s.view)
       case Recover(k) =>
         && WellFormed(s.L, s.from) && k <= |s.L.decode(s.from[s.L.start])|
         && s.disk == InstallTo(s.L, s.from, s.L.decode(s.from[s.L.start]), k)
         && SameHome(s.L, Recovered(s.L, s.from), Durable(s))
  }

  /** A disk whose log header holds no transaction. */
  ghost predicate Empty<B(!new)>(L: Layout<B>, d: Disk<B>) {
    WellFormed(L, d) && |L.decode(d[L.start])| == 0
  }

  ghost predicate Inv<B(!new)>(s: State<B>) {
    && s.L.start + s.L.size <= |s.disk|
    && Counted(s) && Whole(s) && OnDisk(s)
  }

  // Every action keeps the invariant

  lemma {:induction false} BudgetAppend(ops: seq<Op>, op: Op)
    ensures UnusedBudget(ops + [op]) == UnusedBudget(ops) + op.left
  {
    if |ops| > 0 {
      BudgetAppend(ops[1..], op);
      assert (ops + [op])[1..] == ops[1..] + [op];
    }
  }

  lemma {:induction false} BudgetSplit(ops: seq<Op>, k: nat)
    requires k < |ops|
    ensures UnusedBudget(ops) == UnusedBudget(ops[..k] + ops[k + 1..]) + ops[k].left
    ensures forall op: Op :: UnusedBudget(ops[k := op]) == UnusedBudget(ops) - ops[k].left + op.left
  {
    if k > 0 {
      BudgetSplit(ops[1..], k - 1);
      assert (ops[..k] + ops[k + 1..])[1..] == ops[1..][..k - 1] + ops[1..][k..];
      forall op: Op ensures UnusedBudget(ops[k := op]) == UnusedBudget(ops) - ops[k].left + op.left {
        assert ops[k := op][1..] == ops[1..][k - 1 := op];
      }
    } else {
      assert ops[..0] + ops[1..] == ops[1..];
    }
  }

  /** Every admitted operation still fits: its full budget, on top of everyone else's, is within LOGSIZE. */
  lemma {:induction false} BudgetBound(ops: seq<Op>)
    requires forall k :: 0 <= k < |ops| ==> ops[k].left <= MAXOPBLOCKS
    ensures UnusedBudget(ops) <= |ops| * MAXOPBLOCKS
  {
    if |ops| > 0 {
      BudgetBound(ops[1..]);
    }
  }

  lemma BeginKeepsInv<B(!new)>(s: State<B>)
    requires Inv(s) && Enabled(s, Begin)
    ensures Inv(Step(s, Begin)) && !Step(s, Begin).panicked
  {
    BudgetAppend(s.ops, Op(s.nextId, MAXOPBLOCKS));
    BudgetBound(s.ops);
  }

  /** One log_write moves one unit of an operation's budget into the log, or absorbs it. */
  lemma LogWriteKeepsCounted<B(!new)>(s: State<B>, op: nat, sector: Word, block: B)
    requires Inv(s) && Enabled(s, LogWrite(op, sector, block))
    ensures var t := Step(s, LogWrite(op, sector, block));
            Counted(t) && (t.panicked <==> |s.sectors| >= s.L.size - 1 || (sector !in s.sectors && NoBuffer(s)))
  {
    BudgetSplit(s.ops, op);
  }

  lemma LogWriteKeepsWhole<B(!new)>(s: State<B>, op: nat, sector: Word, block: B)
    requires Counted(s) && Whole(s) && Enabled(s, LogWrite(op, sector, block))
    ensures Whole(Step(s, LogWrite(op, sector, block)))
  {
  }

  /** A logged block changes the cached content only: the disk keeps every committed group. */
  lemma LogWriteKeepsOnDisk<B(!new)>(s: State<B>, op: nat, sector: Word, block: B)
    requires Inv(s) && Enabled(s, LogWrite(op, sector, block))
    requires Whole(Step(s, LogWrite(op, sector, block)))
    ensures OnDisk(Step(s, LogWrite(op, sector, block)))
  {
    var t := Step(s, LogWrite(op, sector, block));
    if !t.panicked {
      assert t.events[..|t.events| - 1] == s.events;
      assert t.events[..t.committed] == s.events[..s.committed];
      assert s.stage.Idle?;
    }
  }

  lemma EndKeepsBooks<B(!new)>(s: State<B>, op: nat)
    requires Inv(s) && Enabled(s, End(op))
    ensures var t := Step(s, End(op)); Counted(t) && Whole(t) && !t.panicked
  {
    hide OnDisk, UnusedBudget, Layout.Lawful, Home, Replay, WriteSector, Starved;
    BudgetSplit(s.ops, op);
  }

  lemma EndKeepsOnDisk<B(!new)>(s: State<B>, op: nat)
    requires Inv(s) && Enabled(s, End(op)) && Whole(Step(s, End(op)))
    ensures OnDisk(Step(s, End(op)))
  {
    assert s.stage.Idle?;
    assert s.events[..|s.events|] == s.events;
  }

  /** Recovering the disk of any state gives back the log_writes of the committed groups, and nothing else. */
  lemma CrashRecovers<B(!new)>(s: State<B>)
    requires Inv(s)
    ensures WellFormed(s.L, s.disk) && SameHome(s.L, Recovered(s.L, s.disk), Durable(s))
  {
    assert s.committed == |s.events| ==> s.events[..s.committed] == s.events;
    match s.stage
    case Idle =>
    case WriteLog(k) => CrashBeforeCommitPoint(s.L, s.from, s.view, s.sectors, k);
    case Install(k) => CrashAfterCommitPoint(s.L, s.from, s.view, s.sectors, k);
    case Cleared =>
    case Recover(k) => CrashDuringInstall(s.L, s.from, k);
  }

  lemma CrashKeepsInv<B(!new)>(s: State<B>)
    requires Inv(s) && Enabled(s, Crash)
    ensures Inv(Step(s, Crash)) && !Step(s, Crash).panicked
  {
    CrashRecovers(s);
    var t := Step(s, Crash);
    assert t.events[..t.committed] == s.events[..s.committed];
  }

  lemma DiskWriteKeepsBooks<B(!new)>(s: State<B>)
    requires Inv(s) && Enabled(s, DiskWrite)
    ensures var t := WriteSector(s); Counted(t) && Whole(t) && !t.panicked
  {
    hide Replay, DiffersOnlyAt, SameHome, Layout.Lawful, LogTo, InstallTo, UnusedBudget;
    match s.stage
    case Idle =>
    case WriteLog(k) =>
    case Install(k) =>
    case Cleared =>
    case Recover(k) =>
  }

  lemma LogBlockKeepsOnDisk<B(!new)>(s: State<B>)
    requires Inv(s) && s.stage.WriteLog? && s.stage.done < |s.sectors|
    ensures OnDisk(WriteSector(s))
  {
    var k := s.stage.done;
    assert WriteSector(s).disk == LogTo(s.L, s.from, s.view, s.sectors, k + 1);
  }

  /** The header write is the commit point: from here on every event so far is durable. */
  lemma HeaderKeepsOnDisk<B(!new)>(s: State<B>)
    requires Inv(s) && s.stage.WriteLog? && s.stage.done == |s.sectors|
    ensures OnDisk(WriteSector(s)) && WriteSector(s).committed == |s.events|
  {
    assert WriteSector(s).disk == Logged(s.L, s.from, s.view, s.sectors);
  }

  lemma HomeBlockKeepsOnDisk<B(!new)>(s: State<B>)
    requires Inv(s) && s.stage.Install? && s.stage.done < |s.sectors|
    ensures OnDisk(WriteSector(s))
  {
    var k, h := s.stage.done, Logged(s.L, s.from, s.view, s.sectors);
    assert WriteSector(s).disk == InstallTo(s.L, h, s.sectors, k + 1);
  }

  lemma ClearKeepsOnDisk<B(!new)>(s: State<B>)
    requires Inv(s) && s.stage.Install? && s.stage.done == |s.sectors|
    ensures OnDisk(WriteSector(s))
  {
    CrashAfterClear(s.L, s.from, s.view, s.sectors);
  }

  lemma RecoverBlockKeepsOnDisk<B(!new)>(s: State<B>)
    requires Inv(s) && s.stage.Recover? && s.stage.done < |s.L.decode(s.from[s.L.start])|
    ensures OnDisk(WriteSector(s))
  {
    var k, sectors := s.stage.done, s.L.decode(s.from[s.L.start]);
    assert WriteSector(s).disk == InstallTo(s.L, s.from, sectors, k + 1);
  }

  lemma RecoverClearKeepsOnDisk<B(!new)>(s: State<B>)
    requires Inv(s) && s.stage.Recover? && s.stage.done == |s.L.decode(s.from[s.L.start])|
    ensures OnDisk(WriteSector(s))
  {
    assert s.events[..s.committed] == s.events;
    assert WriteSector(s).disk == Recovered(s.L, s.from);
  }

  lemma DiskWriteKeepsOnDisk<B(!new)>(s: State<B>)
    requires Inv(s) && Enabled(s, DiskWrite)
    ensures OnDisk(WriteSector(s))
  {
    match s.stage
    case Idle =>
    case WriteLog(k) => if k < |s.sectors| { LogBlockKeepsOnDisk(s); } else { HeaderKeepsOnDisk(s); }
    case Install(k) => if k < |s.sectors| { HomeBlockKeepsOnDisk(s); } else { ClearKeepsOnDisk(s); }
    case Cleared => assert s.events[..s.committed] == s.events;
    case Recover(k) =>
      if k < |s.L.decode(s.from[s.L.start])| { RecoverBlockKeepsOnDisk(s); } else { RecoverClearKeepsOnDisk(s); }
  }

  /** A log with room for LOGSIZE blocks, and a cache that has a buffer left when they and the readers' are taken. */
  predicate Roomy<B(!new)>(s: State<B>) {
    s.L.size > LOGSIZE && s.nbuf > LOGSIZE + s.readers
  }

  lemma PanicKeepsInv<B(!new)>(s: State<B>)
    requires Inv(s)
    ensures Inv(s.(panicked := true))
  {
    hide Replay, DiffersOnlyAt, SameHome, Layout.Lawful, LogTo, InstallTo, UnusedBudget, Fits, NoRepeats;
  }

  lemma StarvedIsCramped<B(!new)>(s: State<B>)
    requires Counted(s) && Starved(s)
    ensures !Roomy(s)
  {
    hide Layout.Lawful, UnusedBudget, Fits, NoRepeats;
  }

  lemma DiskWriteKeepsInv<B(!new)>(s: State<B>)
    requires Inv(s) && Enabled(s, DiskWrite)
    ensures var t := Step(s, DiskWrite); Inv(t) && (t.panicked <==> Starved(s)) && (Starved(s) ==> !Roomy(s))
  {
    hide Starved, OnDisk, Counted, Whole, WriteSector;
    if Starved(s) {
      PanicKeepsInv(s);
      StarvedIsCramped(s);
    } else {
      DiskWriteKeepsBooks(s);
      DiskWriteKeepsOnDisk(s);
      SectorWriteKeepsSizes(s);
    }
  }

  lemma SectorWriteKeepsSizes<B(!new)>(s: State<B>)
    ensures WriteSector(s).L == s.L && |WriteSector(s).disk| == |s.disk|
  {
  }

  lemma StepKeepsInv<B(!new)>(s: State<B>, a: Action<B>)
    requires Inv(s) && Enabled(s, a)
    ensures Inv(Step(s, a))
    ensures Step(s, a).panicked ==> !Roomy(s)
  {
    match a
    case Begin => BeginKeepsInv(s);
    case LogWrite(op, sector, block) =>
      LogWriteKeepsCounted(s, op, sector, block);
      LogWriteKeepsWhole(s, op, sector, block);
      LogWriteKeepsOnDisk(s, op, sector, block);
      BudgetSplit(s.ops, op);
    case End(op) =>
      EndKeepsBooks(s, op);
      EndKeepsOnDisk(s, op);
    case Crash => CrashKeepsInv(s);
    case Hold =>
    case LetGo =>
    case DiskWrite => DiskWriteKeepsInv(s);
  }

  // Whole runs

  ghost predicate Legal<B(!new)>(s: State<B>, acts: seq<Action<B>>)
    decreases |acts|
  {
    |acts| == 0 || (Enabled(s, acts[0]) && Legal(Step(s, acts[0]), acts[1..]))
  }

  ghost function Run<B(!new)>(s: State<B>, acts: seq<Action<B>>): State<B>
    requires Legal(s, acts)
    decreases |acts|
  {
    if |acts| == 0 then s else Run(Step(s, acts[0]), acts[1..])
  }

  lemma {:induction false} RunKeepsInv<B(!new)>(s: State<B>, acts: seq<Action<B>>)
    requires Inv(s) && Legal(s, acts) && (s.panicked ==> !Roomy(s))
    ensures var t := Run(s, acts);
            Inv(t) && t.L == s.L && t.base == s.base && t.nbuf == s.nbuf && t.readers == s.readers && (t.panicked ==> !Roomy(s))
    decreases |acts|
  {
    hide Inv, Step;
    if |acts| > 0 {
      StepKeepsInv(s, acts[0]);
      RunKeepsInv(Step(s, acts[0]), acts[1..]);
    }
  }

  lemma InitInv<B(!new)>(s: State<B>)
    requires Init(s)
    ensures Inv(s)
  {
  }

  /** Both events of an operation are committed, or neither is. */
  ghost predicate AllOrNothing<B(!new)>(events: seq<Event<B>>, committed: nat) {
    forall i, j :: 0 <= i < |events| && 0 <= j < |events| && events[i].op == events[j].op ==> (i < committed <==> j < committed)
  }

  /**
   Crash safety of every run, however operations, sector writes and crashes interleave: recovering
   the disk as it stands gives exactly the log_writes of the committed groups, every operation is
   in a committed group entirely or not at all, and when nothing is running everything is committed.
   */
  lemma CrashSafety<B(!new)>(s0: State<B>, acts: seq<Action<B>>)
    requires Init(s0) && Legal(s0, acts)
    ensures var s := Run(s0, acts);
            && s.committed <= |s.events|
            && WellFormed(s.L, s.disk)
            && SameHome(s.L, Recovered(s.L, s.disk), Replay(Recovered(s0.L, s0.disk), s.events[..s.committed]))
            && AllOrNothing(s.events, s.committed)
            && (s.stage.Idle? && |s.ops| == 0 ==> s.committed == |s.events| && SameHome(s.L, s.disk, s.view))
  {
    InitInv(s0);
    RunKeepsInv(s0, acts);
    CrashRecovers(Run(s0, acts));
  }

  /** The books group commit relies on, in every reachable state. */
  lemma GroupCommitInvariant<B(!new)>(s0: State<B>, acts: seq<Action<B>>)
    requires Init(s0) && Legal(s0, acts)
    ensures var s := Run(s0, acts);
            && (s.committing ==> s.outstanding == 0)
            && (s.committing ==> forall op, sector, block :: !Enabled(s, LogWrite(op, sector, block)))
            && |s.sectors| + UnusedBudget(s.ops) <= LOGSIZE
            && NoRepeats(s.sectors)
  {
    InitInv(s0);
    RunKeepsInv(s0, acts);
  }

  /** What one action made durable no later action loses. */
  lemma CommittedStays<B(!new)>(s: State<B>, a: Action<B>)
    requires Inv(s) && Enabled(s, a)
    ensures var t := Step(s, a);
            s.committed <= t.committed <= |t.events| && t.events[..s.committed] == s.events[..s.committed]
  {
    hide OnDisk, Layout.Lawful, UnusedBudget, Replay, WriteSector, Starved, NoBuffer;
    match a
    case Begin =>
    case LogWrite(op, sector, block) =>
    case End(op) =>
    case Hold =>
    case LetGo =>
    case DiskWrite => SectorWriteKeepsEvents(s);
    case Crash =>
  }

  lemma SectorWriteKeepsEvents<B(!new)>(s: State<B>)
    ensures var t := WriteSector(s); t.events == s.events && (t.committed == s.committed || t.committed == |s.events|)
  {
  }

  // When a run panics

  /** Two states with the same fixed parameters: the layout and the sizes of disk and cache. */
  ghost predicate SameMachine<B(!new)>(s: State<B>, t: State<B>) {
    t.L == s.L && |t.disk| == |s.disk| && t.nbuf == s.nbuf && t.readers == s.readers
  }

  /** Up and idle, with an empty log and k buffers held by readers. */
  ghost predicate Booted<B(!new)>(s: State<B>, k: nat) {
    Inv(s) && s.stage.Idle? && !s.panicked && s.sectors == [] && s.ops == [] && s.held == k
  }

  /** Recovery runs to its end, or finds no buffer. */
  lemma {:induction false} Boots<B(!new)>(s: State<B>) returns (acts: seq<Action<B>>)
    requires Inv(s) && s.stage.Recover? && !s.panicked && s.held == 0
    ensures Legal(s, acts)
    ensures var t := Run(s, acts); SameMachine(s, t) && if t.panicked then s.nbuf < 2 else Booted(t, 0)
    decreases |s.L.decode(s.from[s.L.start])| - s.stage.done
  {
    StepKeepsInv(s, DiskWrite);
    DiskWriteKeepsBooks(s);
    hide Replay, DiffersOnlyAt, SameHome, Layout.Lawful, LogTo, InstallTo, UnusedBudget;
    var t := Step(s, DiskWrite);
    if t.panicked || t.stage.Idle? {
      acts := [DiskWrite];
      assert acts[1..] == [];
    } else {
      var rest := Boots(t);
      acts := [DiskWrite] + rest;
      assert acts[1..] == rest;
    }
  }

  /** Readers take all the buffers they may hold, or find none. */
  lemma {:induction false} ReadersFill<B(!new)>(s: State<B>, k: nat) returns (acts: seq<Action<B>>)
    requires Booted(s, k)
    ensures Legal(s, acts)
    ensures var t := Run(s, acts); SameMachine(s, t) && if t.panicked then s.nbuf <= s.readers else Booted(t, s.readers)
    decreases s.readers - k
  {
    InvLengths(s);
    if k == s.readers {
      acts := [];
    } else {
      StepKeepsInv(s, Hold);
      hide Inv;
      var t := Step(s, Hold);
      if t.panicked {
        acts := [Hold];
        assert acts[1..] == [];
      } else {
        var rest := ReadersFill(t, k + 1);
        acts := [Hold] + rest;
        assert acts[1..] == rest;
      }
    }
  }

  /** Three admitted operations with k log_writes of the 30 they may make behind them. */
  ghost predicate Filling<B(!new)>(s: State<B>, homes: seq<Word>, k: nat) {
    && Inv(s) && s.stage.Idle? && !s.panicked && k <= |homes| && s.sectors == homes[..k] && |s.ops| == 3 && s.held == s.readers
    && forall j :: 0 <= j < 3 ==> s.ops[j].left == if k <= MAXOPBLOCKS * j then MAXOPBLOCKS
                                                  else if k >= MAXOPBLOCKS * (j + 1) then 0 else MAXOPBLOCKS * (j + 1) - k
  }

  lemma InvLengths<B(!new)>(s: State<B>)
    requires Inv(s)
    ensures |s.view| == |s.disk| && Counted(s)
  {
  }

  /** One more of the 30 log_writes: it panics exactly when the log or the cache has no room for its sector. */
  lemma FillStep<B(!new)>(s: State<B>, homes: seq<Word>, k: nat, block: B)
    requires NoRepeats(homes) && Home(s.L, |s.disk|, homes) && Filling(s, homes, k) && k < |homes| && k < LOGSIZE
    ensures var a := LogWrite(k / MAXOPBLOCKS, homes[k], block);
            && Enabled(s, a)
            && (Step(s, a).panicked <==> k >= s.L.size - 1 || k + s.readers >= s.nbuf)
            && Step(s, a).stage.Idle?
            && (!Step(s, a).panicked ==> Filling(Step(s, a), homes, k + 1))
  {
    hide Inv;
    InvLengths(s);
    var a := LogWrite(k / MAXOPBLOCKS, homes[k], block);
    StepKeepsInv(s, a);
    LogWriteKeepsCounted(s, k / MAXOPBLOCKS, homes[k], block);
    assert homes[..k + 1] == homes[..k] + [homes[k]];
  }

  /** The 30 log_writes are made, or one of them panics. */
  lemma {:induction false} FillsUp<B(!new)>(s: State<B>, homes: seq<Word>, k: nat, block: B) returns (acts: seq<Action<B>>)
    requires LOGSIZE <= |homes| && NoRepeats(homes) && Home(s.L, |s.disk|, homes)
    requires Filling(s, homes, k) && k <= LOGSIZE && (k > 0 ==> k < s.L.size && k + s.readers <= s.nbuf)
    ensures Legal(s, acts)
    ensures var t := Run(s, acts);
            && SameMachine(s, t) && t.stage.Idle?
            && (if t.panicked then s.L.size <= LOGSIZE || s.nbuf < LOGSIZE + s.readers
                else Filling(t, homes, LOGSIZE) && s.L.size > LOGSIZE && s.nbuf >= LOGSIZE + s.readers)
    decreases LOGSIZE - k
  {
    hide Inv, Step;
    if k == LOGSIZE {
      acts := [];
    } else {
      var a := LogWrite(k / MAXOPBLOCKS, homes[k], block);
      FillStep(s, homes, k, block);
      if Step(s, a).panicked {
        acts := [a];
        assert acts[1..] == [];
      } else {
        var rest := FillsUp(Step(s, a), homes, k + 1, block);
        acts := [a] + rest;
        assert acts[1..] == rest;
      }
    }
  }

  /** From idle, three operations are admitted and make their log_writes. */
  lemma ThreeOperations<B(!new)>(s: State<B>, homes: seq<Word>, block: B) returns (acts: seq<Action<B>>)
    requires LOGSIZE <= |homes| && NoRepeats(homes) && Home(s.L, |s.disk|, homes) && Booted(s, s.readers)
    ensures Legal(s, acts)
    ensures var t := Run(s, acts);
            && SameMachine(s, t) && t.stage.Idle?
            && (if t.panicked then s.L.size <= LOGSIZE || s.nbuf < LOGSIZE + s.readers
                else Filling(t, homes, LOGSIZE) && s.L.size > LOGSIZE && s.nbuf >= LOGSIZE + s.readers)
  {
    var s2, s3, s4 := Step(s, Begin), Step(Step(s, Begin), Begin), Step(Step(Step(s, Begin), Begin), Begin);
    BeginKeepsInv(s);
    BeginKeepsInv(s2);
    BeginKeepsInv(s3);
    var fill := FillsUp(s4, homes, 0, block);
    hide Inv, Step;
    RunPrepend(s3, Begin, fill);
    RunPrepend(s2, Begin, [Begin] + fill);
    RunPrepend(s, Begin, [Begin] + ([Begin] + fill));
    acts := [Begin] + ([Begin] + ([Begin] + fill));
  }

  /** The three operations end, and the last one's commit asks for a buffer. */
  lemma CommitAsks<B(!new)>(s: State<B>, homes: seq<Word>) returns (acts: seq<Action<B>>)
    requires Filling(s, homes, LOGSIZE) && s.nbuf >= LOGSIZE + s.readers
    ensures Legal(s, acts)
    ensures var t := Run(s, acts);
            SameMachine(s, t) && (t.panicked <==> s.nbuf == LOGSIZE + s.readers) && (t.panicked ==> t.stage == WriteLog(0))
  {
    InvLengths(s);
    var s2, s3, s4 := Step(s, End(0)), Step(Step(s, End(0)), End(0)), Step(Step(Step(s, End(0)), End(0)), End(0));
    StepKeepsInv(s, End(0));
    StepKeepsInv(s2, End(0));
    StepKeepsInv(s3, End(0));
    DiskWriteKeepsBooks(s4);
    hide Inv;
    assert s4.sectors == s.sectors && s4.stage == WriteLog(0) && s4.held == s.readers;
    assert Starved(s4) <==> s.nbuf == LOGSIZE + s.readers;
    var last := [DiskWrite];
    assert last[1..] == [];
    assert Legal(s4, last) && Run(s4, last) == Step(s4, DiskWrite);
    hide Step;
    RunPrepend(s3, End(0), last);
    RunPrepend(s2, End(0), [End(0)] + last);
    RunPrepend(s, End(0), [End(0)] + ([End(0)] + last));
    acts := [End(0)] + ([End(0)] + ([End(0)] + last));
  }

  /**
   The most demanding run: boot, readers take all they may, three operations log 30 sectors and the
   last one commits.  It panics exactly when the log or the cache is too small: in log_write, before
   any commit, when only the log is, and in the commit when only one buffer is missing.
   */
  lemma FullLoad<B(!new)>(s0: State<B>, homes: seq<Word>, block: B) returns (acts: seq<Action<B>>)
    requires Init(s0) && LOGSIZE <= |homes| && NoRepeats(homes) && Home(s0.L, |s0.disk|, homes)
    ensures Legal(s0, acts) && (Run(s0, acts).panicked <==> !Roomy(s0))
    ensures s0.L.size <= LOGSIZE && s0.nbuf > LOGSIZE + s0.readers ==> Run(s0, acts).stage.Idle?
    ensures s0.L.size > LOGSIZE && s0.nbuf == LOGSIZE + s0.readers ==> Run(s0, acts).stage == WriteLog(0)
  {
    InitInv(s0);
    acts := Boots(s0);
    var s1 := Run(s0, acts);
    if !s1.panicked {
      var hold := ReadersFill(s1, 0);
      var s2 := Run(s1, hold);
      hide Inv, Step, Filling;
      RunAppend(s0, acts, hold);
      acts := acts + hold;
      if !s2.panicked {
        var load := ThreeOperations(s2, homes, block);
        var s3 := Run(s2, load);
        RunAppend(s0, acts, load);
        acts := acts + load;
        if !s3.panicked {
          var commit := CommitAsks(s3, homes);
          RunAppend(s0, acts, commit);
          acts := acts + commit;
        }
      }
    }
  }

  lemma RunPrepend<B(!new)>(s: State<B>, a: Action<B>, acts: seq<Action<B>>)
    requires Enabled(s, a) && Legal(Step(s, a), acts)
    ensures Legal(s, [a] + acts) && Run(s, [a] + acts) == Run(Step(s, a), acts)
  {
    hide Step;
    assert ([a] + acts)[1..] == acts;
  }

  lemma {:induction false} RunAppend<B(!new)>(s: State<B>, acts: seq<Action<B>>, more: seq<Action<B>>)
    requires Legal(s, acts) && Legal(Run(s, acts), more)
    ensures Legal(s, acts + more) && Run(s, acts + more) == Run(Run(s, acts), more)
    decreases |acts|
  {
    hide Step;
    if |acts| == 0 {
      assert acts + more == more;
    } else {
      RunAppend(Step(s, acts[0]), acts[1..], more);
      assert (acts + more)[1..] == acts[1..] + more;
    }
  }

  /** The sector writes a commit still has to make. */
  ghost function ToGo<B(!new)>(s: State<B>): (r: int) {
    match s.stage
    case WriteLog(k) => 2 * |s.sectors| - k + 3
    case Install(k) => |s.sectors| - k + 2
    case Cleared => 1
    case _ => 0
  }

  /** Every commit comes to an end: left alone it finds no buffer, or after its sector writes operations are admitted again. */
  lemma {:induction false} CommitEnds<B(!new)>(s: State<B>) returns (acts: seq<Action<B>>)
    requires Inv(s) && s.committing && !s.panicked
    ensures Legal(s, acts) && |acts| <= ToGo(s) && forall i :: 0 <= i < |acts| ==> acts[i] == DiskWrite
    ensures var t := Run(s, acts);
            if t.panicked then !Roomy(s) else t.stage.Idle? && !t.committing && t.sectors == [] && Legal(s, acts + [Begin])
    decreases ToGo(s)
  {
    hide Inv, Step, Enabled, ToGo, Roomy;
    CommitStep(s);
    var t := Step(s, DiskWrite);
    if t.panicked || t.stage.Idle? {
      acts := [DiskWrite];
      SingleRun(s, DiskWrite);
      LegalAppend(s, acts, Begin);
    } else {
      var rest := CommitEnds(t);
      acts := [DiskWrite] + rest;
      RunPrepend(s, DiskWrite, rest);
      if !Run(t, rest).panicked {
        RunPrepend(s, DiskWrite, rest + [Begin]);
        assert acts + [Begin] == [DiskWrite] + (rest + [Begin]);
      }
    }
  }

  /** One sector write of a commit brings it one closer to its end. */
  lemma CommitTurn<B(!new)>(s: State<B>)
    requires s.committing && (s.stage.WriteLog? || s.stage.Install? || s.stage.Cleared?)
    requires (s.stage.WriteLog? || s.stage.Install?) ==> s.stage.done <= |s.sectors|
    ensures 1 <= ToGo(s)
    ensures var t := WriteSector(s);
            && t.nbuf == s.nbuf && t.readers == s.readers && t.L == s.L && t.ops == s.ops
            && (!t.panicked ==> 0 <= ToGo(t) < ToGo(s) && (t.committing <==> !t.stage.Idle?))
  {
  }

  lemma CommitStep<B(!new)>(s: State<B>)
    requires Inv(s) && s.committing && !s.panicked
    ensures Enabled(s, DiskWrite) && 1 <= ToGo(s)
    ensures var t := Step(s, DiskWrite);
            if t.panicked then !Roomy(s)
            else && Inv(t) && 0 <= ToGo(t) < ToGo(s) && (Roomy(t) <==> Roomy(s)) && (t.committing <==> !t.stage.Idle?)
                 && (t.stage.Idle? ==> t.sectors == [] && Enabled(t, Begin))
  {
    hide WriteSector, ToGo, Starved, OnDisk, Whole, Fits, NoRepeats, UnusedBudget;
    CommitAt(s);
    DiskWriteKeepsInv(s);
    CommitTurn(s);
  }

  lemma CommitAt<B(!new)>(s: State<B>)
    requires Inv(s) && s.committing
    ensures s.stage.WriteLog? || s.stage.Install? || s.stage.Cleared?
    ensures (s.stage.WriteLog? || s.stage.Install?) ==> s.stage.done <= |s.sectors|
  {
    hide Replay, DiffersOnlyAt, SameHome, Layout.Lawful, LogTo, InstallTo, UnusedBudget;
  }

  // Who is admitted

  lemma {:induction false} LegalAppend<B(!new)>(s: State<B>, acts: seq<Action<B>>, a: Action<B>)
    requires Legal(s, acts)
    ensures Legal(s, acts + [a]) <==> Enabled(Run(s, acts), a)
    decreases |acts|
  {
    hide Step, Enabled;
    if |acts| == 0 {
      assert acts + [a] == [a] && [a][1..] == [];
    } else {
      LegalAppend(Step(s, acts[0]), acts[1..], a);
      assert (acts + [a])[1..] == acts[1..] + [a];
    }
  }

  /**
   begin_op admits exactly as much as the log can take: after any run that neither panicked nor is
   committing or recovering, one more operation is admitted if and only if its full budget, on top of
   the full budgets of all operations running and the blocks already logged, is within LOGSIZE.
   */
  lemma AdmitsIff<B(!new)>(s0: State<B>, acts: seq<Action<B>>)
    requires Init(s0) && Legal(s0, acts)
    ensures var s := Run(s0, acts);
            Legal(s0, acts + [Begin]) <==>
              !s.panicked && s.stage.Idle? && |s.sectors| + (|s.ops| + 1) * MAXOPBLOCKS <= LOGSIZE
  {
    InitInv(s0);
    RunKeepsInv(s0, acts);
    LegalAppend(s0, acts, Begin);
    InvLengths(Run(s0, acts));
    hide Inv, Run, Legal;
  }

  /** One operation that makes its log_writes k up to m, one per sector. */
  function Writes<B(!new)>(homes: seq<Word>, k: nat, m: nat, block: B): (r: seq<Action<B>>)
    requires k <= m <= |homes|
    ensures |r| == m - k && forall i :: 0 <= i < m - k ==> r[i] == LogWrite(0, homes[k + i], block)
    decreases m - k
  {
    if k == m then [] else [LogWrite(0, homes[k], block)] + Writes(homes, k + 1, m, block)
  }

  ghost predicate OneWriting<B(!new)>(s: State<B>, homes: seq<Word>, k: nat) {
    && Inv(s) && s.stage.Idle? && !s.panicked && |s.ops| == 1 && k <= |homes| && k <= MAXOPBLOCKS
    && s.ops[0].left == MAXOPBLOCKS - k && s.sectors == homes[..k]
  }

  lemma OneWriteStep<B(!new)>(s: State<B>, homes: seq<Word>, k: nat, block: B)
    requires NoRepeats(homes) && Home(s.L, |s.disk|, homes) && OneWriting(s, homes, k) && k < |homes| && k < MAXOPBLOCKS
    requires k < s.L.size - 1 && k + s.held < s.nbuf
    ensures Enabled(s, LogWrite(0, homes[k], block))
    ensures var t := Step(s, LogWrite(0, homes[k], block)); OneWriting(t, homes, k + 1) && t.held == s.held
  {
    hide Inv;
    InvLengths(s);
    StepKeepsInv(s, LogWrite(0, homes[k], block));
    LogWriteKeepsCounted(s, 0, homes[k], block);
    assert homes[..k + 1] == homes[..k] + [homes[k]];
  }

  lemma {:induction false} OneWrites<B(!new)>(s: State<B>, homes: seq<Word>, k: nat, m: nat, block: B)
    requires NoRepeats(homes) && Home(s.L, |s.disk|, homes) && OneWriting(s, homes, k) && k <= m <= |homes| && m <= MAXOPBLOCKS
    requires m < s.L.size && m + s.held <= s.nbuf
    ensures Legal(s, Writes(homes, k, m, block)) && OneWriting(Run(s, Writes(homes, k, m, block)), homes, m)
    decreases m - k
  {
    hide Inv, Step, OneWriting;
    if k < m {
      OneWriteStep(s, homes, k, block);
      OneWrites(Step(s, LogWrite(0, homes[k], block)), homes, k + 1, m, block);
      RunPrepend(s, LogWrite(0, homes[k], block), Writes(homes, k + 1, m, block));
    }
  }

  /** Operations overlap: from idle one starts and logs any m blocks it may, and a second one is admitted before it ends. */
  lemma OperationsOverlap<B(!new)>(s: State<B>, homes: seq<Word>, m: nat, block: B)
    requires Booted(s, s.held) && NoRepeats(homes) && Home(s.L, |s.disk|, homes) && m <= MAXOPBLOCKS && m <= |homes|
    requires m < s.L.size && m + s.held <= s.nbuf
    ensures Legal(s, [Begin] + (Writes(homes, 0, m, block) + [Begin]))
    ensures var t := Run(s, [Begin] + (Writes(homes, 0, m, block) + [Begin])); !t.panicked && |t.ops| == 2 && t.sectors == homes[..m]
  {
    var s1 := Step(s, Begin);
    BeginKeepsInv(s);
    InvLengths(s);
    assert OneWriting(s1, homes, 0);
    OneWrites(s1, homes, 0, m, block);
    var s2 := Run(s1, Writes(homes, 0, m, block));
    InvLengths(s2);
    hide Inv, Run, Legal;
    LegalAppend(s1, Writes(homes, 0, m, block), Begin);
    assert Enabled(s2, Begin);
    SingleRun(s2, Begin);
    hide Step;
    RunAppend(s1, Writes(homes, 0, m, block), [Begin]);
    RunPrepend(s, Begin, Writes(homes, 0, m, block) + [Begin]);
  }

  lemma SingleRun<B(!new)>(s: State<B>, a: Action<B>)
    requires Enabled(s, a)
    ensures Legal(s, [a]) && Run(s, [a]) == Step(s, a)
  {
    hide Step, Enabled;
    assert [a][1..] == [];
  }

  ghost predicate NeverPanics<B(!new)>(s0: State<B>) {
    forall acts: seq<Action<B>> :: Legal(s0, acts) ==> !Run(s0, acts).panicked
  }

  /**
   Operations that make at most MAXOPBLOCKS log_writes never make the log or the cache panic if and
   only if log.size > LOGSIZE and the cache has more buffers than LOGSIZE and what readers may hold.
   */
  lemma PanicFreeIff<B(!new)>(s0: State<B>, homes: seq<Word>, block: B)
    requires Init(s0) && LOGSIZE <= |homes| && NoRepeats(homes) && Home(s0.L, |s0.disk|, homes)
    ensures NeverPanics(s0) <==> s0.L.size > LOGSIZE && s0.nbuf > LOGSIZE + s0.readers
  {
    var worst := FullLoad(s0, homes, block);
    if Roomy(s0) {
      forall acts: seq<Action<B>> | Legal(s0, acts) ensures !Run(s0, acts).panicked {
        InitInv(s0);
        RunKeepsInv(s0, acts);
      }
    }
  }

  /** src/param.h makes NBUF equal to LOGSIZE: whatever log.size is, some run panics. */
  lemma ShippedPanics<B(!new)>(s0: State<B>, homes: seq<Word>, block: B)
    requires Init(s0) && LOGSIZE <= |homes| && NoRepeats(homes) && Home(s0.L, |s0.disk|, homes)
    requires s0.nbuf == NBUF
    ensures !NeverPanics(s0)
  {
    var worst := FullLoad(s0, homes, block);
  }
}
