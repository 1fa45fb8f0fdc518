/**
 The on-disk redo log of src/log.c as a function of disk contents: what each
 sector write of commit and of recovery leaves on disk, what recovery makes of any
 disk, and the crash theorems.  A disk is the sequence of its sectors, and each
 step below is one atomic sector write.
 */
module Wal {
  import opened Blocks

  const MAXOPBLOCKS: nat := 10
  const LOGSIZE: nat := MAXOPBLOCKS * 3

  type Disk<B> = seq<B>

  /**
   log.start, log.size and the format of the header sector.  The header is sector `start` and the
   log blocks follow it; `encode` is what write_head makes of a header block and `decode` what
   read_head finds in one.
   */
  datatype Layout<!B(!new)> = Layout(start: nat, size: nat, decode: B -> seq<Word>, encode: (B, seq<Word>) -> B) {
    predicate InLog(s: int) {
      start <= s < start + size
    }

    /** What was written to a header is read back. */
    ghost predicate Lawful() {
      forall b: B, sectors: seq<Word> {:trigger encode(b, sectors)} :: |sectors| <= LOGSIZE ==> decode(encode(b, sectors)) == sectors
    }
  }

  // Disks

  /** Sectors a transaction may name: on the disk and outside the log. */
  ghost predicate Home<B(!new)>(L: Layout<B>, size: nat, sectors: seq<Word>) {
    forall i :: 0 <= i < |sectors| ==> sectors[i] < size && !L.InLog(sectors[i])
  }

  /** A sector list that fits in the log of a disk with this many sectors. */
  ghost predicate Fits<B(!new)>(L: Layout<B>, size: nat, sectors: seq<Word>) {
    L.Lawful() && L.start + L.size <= size && |sectors| < L.size && |sectors| <= LOGSIZE && Home(L, size, sectors)
  }

  ghost predicate WellFormed<B(!new)>(L: Layout<B>, d: Disk<B>) {
    && L.start + L.size <= |d| && 0 < L.size
    && Fits(L, |d|, L.decode(d[L.start]))
  }

  ghost predicate SameHome<B(!new)>(L: Layout<B>, d: Disk<B>, e: Disk<B>) {
    |d| == |e| && forall s :: 0 <= s < |d| && !L.InLog(s) ==> d[s] == e[s]
  }

  /** The disk after the first k sector writes of write_log, where `view` is the cached content. */
  function LogTo<B(!new)>(L: Layout<B>, d: Disk<B>, view: Disk<B>, sectors: seq<Word>, k: nat): (r: Disk<B>)
    requires k <= |sectors| && |view| == |d| && L.start + |sectors| < |d|
    requires forall i :: 0 <= i < |sectors| ==> sectors[i] < |view|
    ensures |r| == |d|
  {
    if k == 0 then d else LogTo(L, d, view, sectors, k - 1)[L.start + k := view[sectors[k - 1]]]
  }

  /** The disk after write_head stored this sector list. */
  function PutHead<B(!new)>(L: Layout<B>, d: Disk<B>, sectors: seq<Word>): (r: Disk<B>)
    requires L.start < |d| && |sectors| <= LOGSIZE
    ensures |r| == |d|
  {
    d[L.start := L.encode(d[L.start], sectors)]
  }

  /** The disk after the first k sector writes of install_trans. */
  function InstallTo<B(!new)>(L: Layout<B>, d: Disk<B>, sectors: seq<Word>, k: nat): (r: Disk<B>)
    requires k <= |sectors| && L.start + |sectors| < |d|
    requires forall i :: 0 <= i < |sectors| ==> sectors[i] < |d|
    ensures |r| == |d|
  {
    if k == 0 then d else
      var e := InstallTo(L, d, sectors, k - 1);
      e[sectors[k - 1] := e[L.start + k]]
  }

  /** What recover_from_log, run to its end, makes of a disk. */
  function Recovered<B(!new)>(L: Layout<B>, d: Disk<B>): (r: Disk<B>)
    requires WellFormed(L, d)
    ensures |r| == |d|
  {
    var sectors := L.decode(d[L.start]);
    PutHead(L, InstallTo(L, d, sectors, |sectors|), [])
  }

  /** The disk after sector write number i of recovery. */
  function RecoveryDisk<B(!new)>(L: Layout<B>, d: Disk<B>, i: nat): (r: Disk<B>)
    requires WellFormed(L, d) && i <= |L.decode(d[L.start])|
    ensures |r| == |d|
  {
    var sectors := L.decode(d[L.start]);
    if i < |sectors| then InstallTo(L, d, sectors, i + 1) else Recovered(L, d)
  }

  /** Every disk state recovery passes through: home sectors, then the cleared header. */
  function RecoveryTrace<B(!new)>(L: Layout<B>, d: Disk<B>): (r: seq<Disk<B>>)
    requires WellFormed(L, d)
    ensures |r| == |L.decode(d[L.start])| + 1
  {
    seq(|L.decode(d[L.start])| + 1, i requires 0 <= i <= |L.decode(d[L.start])| => RecoveryDisk(L, d, i))
  }

  /** The disk at the commit point: all log blocks and the header written. */
  function Logged<B(!new)>(L: Layout<B>, d: Disk<B>, view: Disk<B>, sectors: seq<Word>): (r: Disk<B>)
    requires |view| == |d| && Fits(L, |d|, sectors)
    ensures |r| == |d|
  {
    PutHead(L, LogTo(L, d, view, sectors, |sectors|), sectors)
  }

  /** The disk after sector write number i of commit. */
  function CommitDisk<B(!new)>(L: Layout<B>, d: Disk<B>, view: Disk<B>, sectors: seq<Word>, i: nat): (r: Disk<B>)
    requires |view| == |d| && Fits(L, |d|, sectors) && i < 2 * |sectors| + 2
    ensures |r| == |d|
  {
    var n := |sectors|;
    if i < n then LogTo(L, d, view, sectors, i + 1)
    else if i <= 2 * n then InstallTo(L, Logged(L, d, view, sectors), sectors, i - n)
    else PutHead(L, InstallTo(L, Logged(L, d, view, sectors), sectors, n), [])
  }

  /** Every disk state commit passes through: log blocks, header, home sectors, cleared header. */
  function CommitTrace<B(!new)>(L: Layout<B>, d: Disk<B>, view: Disk<B>, sectors: seq<Word>): (r: seq<Disk<B>>)
    requires |view| == |d| && Fits(L, |d|, sectors)
    ensures |r| == 2 * |sectors| + 2
  {
    seq(2 * |sectors| + 2, i requires 0 <= i < 2 * |sectors| + 2 => CommitDisk(L, d, view, sectors, i))
  }

  /** The disk states write_log and install_trans pass through. */
  function LogTrace<B(!new)>(L: Layout<B>, d: Disk<B>, view: Disk<B>, sectors: seq<Word>, k: nat): (r: seq<Disk<B>>)
    requires k <= |sectors| && |view| == |d| && Fits(L, |d|, sectors)
  {
    if k == 0 then [] else LogTrace(L, d, view, sectors, k - 1) + [LogTo(L, d, view, sectors, k)]
  }

  function InstallTrace<B(!new)>(L: Layout<B>, d: Disk<B>, sectors: seq<Word>, k: nat): (r: seq<Disk<B>>)
    requires k <= |sectors| && Fits(L, |d|, sectors)
  {
    if k == 0 then [] else InstallTrace(L, d, sectors, k - 1) + [InstallTo(L, d, sectors, k)]
  }

  lemma {:induction false} LogTraceAt<B(!new)>(L: Layout<B>, d: Disk<B>, view: Disk<B>, sectors: seq<Word>, k: nat)
    requires k <= |sectors| && |view| == |d| && Fits(L, |d|, sectors)
    ensures var r := LogTrace(L, d, view, sectors, k);
            |r| == k && forall i :: 0 <= i < k ==> r[i] == LogTo(L, d, view, sectors, i + 1)
  {
    if k > 0 {
      LogTraceAt(L, d, view, sectors, k - 1);
    }
  }

  lemma {:induction false} InstallTraceAt<B(!new)>(L: Layout<B>, d: Disk<B>, sectors: seq<Word>, k: nat)
    requires k <= |sectors| && Fits(L, |d|, sectors)
    ensures var r := InstallTrace(L, d, sectors, k);
            |r| == k && forall i :: 0 <= i < k ==> r[i] == InstallTo(L, d, sectors, i + 1)
  {
    if k > 0 {
      InstallTraceAt(L, d, sectors, k - 1);
    }
  }

  /** The states of a commit, one by one. */
  lemma CommitTraceAt<B(!new)>(L: Layout<B>, d: Disk<B>, view: Disk<B>, sectors: seq<Word>, a: seq<Disk<B>>, c: seq<Disk<B>>, i: nat)
    requires |view| == |d| && Fits(L, |d|, sectors) && i < 2 * |sectors| + 2
    requires a == LogTrace(L, d, view, sectors, |sectors|) && c == InstallTrace(L, Logged(L, d, view, sectors), sectors, |sectors|)
    ensures var n, h := |sectors|, Logged(L, d, view, sectors);
            && |a| == n == |c|
            && CommitTrace(L, d, view, sectors)[i]
                 == if i < n then a[i] else if i == n then h else if i <= 2 * n then c[i - n - 1] else PutHead(L, InstallTo(L, h, sectors, n), [])
  {
    hide LogTo, InstallTo, PutHead, LogTrace, InstallTrace, Layout.Lawful, Logged, CommitDisk;
    LogTraceAt(L, d, view, sectors, |sectors|);
    InstallTraceAt(L, Logged(L, d, view, sectors), sectors, |sectors|);
    CommitDiskIs(L, d, view, sectors, i);
  }

  /** commit is write_log, the header write, install_trans and the header clear, in that order. */
  lemma CommitTraceParts<B(!new)>(L: Layout<B>, d: Disk<B>, view: Disk<B>, sectors: seq<Word>)
    requires |view| == |d| && Fits(L, |d|, sectors)
    ensures var n, h := |sectors|, Logged(L, d, view, sectors);
            CommitTrace(L, d, view, sectors)
              == LogTrace(L, d, view, sectors, n) + [h] + InstallTrace(L, h, sectors, n) + [PutHead(L, InstallTo(L, h, sectors, n), [])]
  {
    hide LogTo, InstallTo, PutHead, LogTrace, InstallTrace, Layout.Lawful, Logged, CommitTrace;
    var n, t := |sectors|, CommitTrace(L, d, view, sectors);
    var a, c := LogTrace(L, d, view, sectors, n), InstallTrace(L, Logged(L, d, view, sectors), sectors, n);
    CommitTraceAt(L, d, view, sectors, a, c, n);
    CommitTraceAt(L, d, view, sectors, a, c, 2 * n + 1);
    CommitLogs(L, d, view, sectors, a, c);
    CommitInstalls(L, d, view, sectors, a, c);
    Spliced(t, n);
  }

  lemma CommitLogs<B(!new)>(L: Layout<B>, d: Disk<B>, view: Disk<B>, sectors: seq<Word>, a: seq<Disk<B>>, c: seq<Disk<B>>)
    requires |view| == |d| && Fits(L, |d|, sectors)
    requires a == LogTrace(L, d, view, sectors, |sectors|) && c == InstallTrace(L, Logged(L, d, view, sectors), sectors, |sectors|)
    ensures CommitTrace(L, d, view, sectors)[..|sectors|] == a
  {
    hide LogTo, InstallTo, PutHead, LogTrace, InstallTrace, Layout.Lawful, Logged, CommitTrace, Fits;
    CommitTraceAt(L, d, view, sectors, a, c, 0);
    forall i | 0 <= i < |sectors| ensures CommitTrace(L, d, view, sectors)[i] == a[i] {
      CommitTraceAt(L, d, view, sectors, a, c, i);
    }
  }

  lemma CommitInstalls<B(!new)>(L: Layout<B>, d: Disk<B>, view: Disk<B>, sectors: seq<Word>, a: seq<Disk<B>>, c: seq<Disk<B>>)
    requires |view| == |d| && Fits(L, |d|, sectors)
    requires a == LogTrace(L, d, view, sectors, |sectors|) && c == InstallTrace(L, Logged(L, d, view, sectors), sectors, |sectors|)
    ensures CommitTrace(L, d, view, sectors)[|sectors| + 1..2 * |sectors| + 1] == c
  {
    hide LogTo, InstallTo, PutHead, LogTrace, InstallTrace, Layout.Lawful, Logged, CommitTrace, Fits;
    CommitTraceAt(L, d, view, sectors, a, c, 0);
    var n, t := |sectors|, CommitTrace(L, d, view, sectors);
    forall i | 0 <= i < n ensures t[n + 1..2 * n + 1][i] == c[i] {
      CommitTraceAt(L, d, view, sectors, a, c, n + 1 + i);
    }
  }

  lemma CommitDiskIs<B(!new)>(L: Layout<B>, d: Disk<B>, view: Disk<B>, sectors: seq<Word>, i: nat)
    requires |view| == |d| && Fits(L, |d|, sectors) && i < 2 * |sectors| + 2
    ensures var n, h := |sectors|, Logged(L, d, view, sectors);
            CommitDisk(L, d, view, sectors, i)
              == if i < n then LogTo(L, d, view, sectors, i + 1) else if i == n then h
                 else if i <= 2 * n then InstallTo(L, h, sectors, i - n) else PutHead(L, InstallTo(L, h, sectors, n), [])
  {
    hide LogTo, PutHead, Layout.Lawful, Logged;
  }

  lemma Spliced<T>(t: seq<T>, n: nat)
    requires |t| == 2 * n + 2
    ensures t == t[..n] + [t[n]] + t[n + 1..2 * n + 1] + [t[2 * n + 1]]
  {
  }

  lemma RecoveryTraceParts<B(!new)>(L: Layout<B>, d: Disk<B>)
    requires WellFormed(L, d)
    ensures var sectors := L.decode(d[L.start]);
            RecoveryTrace(L, d) == InstallTrace(L, d, sectors, |sectors|) + [Recovered(L, d)]
  {
    InstallTraceAt(L, d, L.decode(d[L.start]), |L.decode(d[L.start])|);
  }

  // How each write acts on the disk

  /** write_log touches log blocks only, and fills the first k of them. */
  lemma {:induction false} LogToContents<B(!new)>(L: Layout<B>, d: Disk<B>, view: Disk<B>, sectors: seq<Word>, k: nat)
    requires k <= |sectors| && |view| == |d| && Fits(L, |d|, sectors)
    ensures var r := LogTo(L, d, view, sectors, k);
            && (forall i :: 0 <= i < k ==> r[L.start + 1 + i] == view[sectors[i]])
            && (forall s :: 0 <= s < |d| && !(L.start < s <= L.start + k) ==> r[s] == d[s])
  {
    if k > 0 {
      LogToContents(L, d, view, sectors, k - 1);
    }
  }

  /** The last of the first k log blocks that holds sector s, or -1. */
  function LastAt(sectors: seq<Word>, k: nat, s: int): (r: int)
    requires k <= |sectors|
    ensures -1 <= r < k
    ensures r >= 0 ==> sectors[r] == s
    ensures r < 0 ==> forall i :: 0 <= i < k ==> sectors[i] != s
  {
    if k == 0 then -1 else if sectors[k - 1] == s then k - 1 else LastAt(sectors, k - 1, s)
  }

  /** install_trans leaves the log region alone and gives each listed sector the content of its last log block. */
  lemma {:induction false} InstalledSector<B(!new)>(L: Layout<B>, d: Disk<B>, sectors: seq<Word>, k: nat, s: nat)
    requires k <= |sectors| && Fits(L, |d|, sectors) && s < |d|
    ensures var i := LastAt(sectors, k, s);
            InstallTo(L, d, sectors, k)[s] == if i < 0 then d[s] else d[L.start + 1 + i]
    ensures L.InLog(s) || s !in sectors ==> InstallTo(L, d, sectors, k)[s] == d[s]
  {
    if k > 0 {
      InstalledSector(L, d, sectors, k - 1, s);
      InstalledSector(L, d, sectors, k - 1, L.start + k);
    }
  }

  /** What install_trans leaves alone. */
  lemma InstallFrame<B(!new)>(L: Layout<B>, d: Disk<B>, sectors: seq<Word>, k: nat)
    requires k <= |sectors| && Fits(L, |d|, sectors)
    ensures forall s :: 0 <= s < |d| && (L.InLog(s) || s !in sectors) ==> InstallTo(L, d, sectors, k)[s] == d[s]
  {
    forall s | 0 <= s < |d| && (L.InLog(s) || s !in sectors) ensures InstallTo(L, d, sectors, k)[s] == d[s] {
      InstalledSector(L, d, sectors, k, s);
    }
  }

  /** Installing over a disk that is already partly installed gives the same disk. */
  lemma InstallAbsorbs<B(!new)>(L: Layout<B>, d: Disk<B>, e: Disk<B>, sectors: seq<Word>)
    requires Fits(L, |d|, sectors) && |e| == |d|
    requires forall s :: 0 <= s < |d| && (L.InLog(s) || s !in sectors) ==> e[s] == d[s]
    ensures InstallTo(L, e, sectors, |sectors|) == InstallTo(L, d, sectors, |sectors|)
  {
    var n := |sectors|;
    forall s | 0 <= s < |d| ensures InstallTo(L, e, sectors, n)[s] == InstallTo(L, d, sectors, n)[s] {
      InstalledSector(L, d, sectors, n, s);
      InstalledSector(L, e, sectors, n, s);
    }
  }

  // Crash theorems

  lemma CrashDuringInstall<B(!new)>(L: Layout<B>, d: Disk<B>, k: nat)
    requires WellFormed(L, d) && k <= |L.decode(d[L.start])|
    ensures var e := InstallTo(L, d, L.decode(d[L.start]), k);
            WellFormed(L, e) && Recovered(L, e) == Recovered(L, d)
  {
    var sectors := L.decode(d[L.start]);
    var e := InstallTo(L, d, sectors, k);
    InstallFrame(L, d, sectors, k);
    InstallAbsorbs(L, d, e, sectors);
  }

  lemma CrashAfterRecovery<B(!new)>(L: Layout<B>, d: Disk<B>)
    requires WellFormed(L, d)
    ensures var e := Recovered(L, d);
            WellFormed(L, e) && SameHome(L, Recovered(L, e), e)
  {
  }

  /** A crash anywhere in recovery loses nothing: recovering again ends in the same home sectors. */
  lemma RecoveryCrash<B(!new)>(L: Layout<B>, d: Disk<B>, i: nat)
    requires WellFormed(L, d) && i < |RecoveryTrace(L, d)|
    ensures var e := RecoveryTrace(L, d)[i];
            WellFormed(L, e) && SameHome(L, Recovered(L, e), Recovered(L, d))
  {
    if i < |L.decode(d[L.start])| {
      CrashDuringInstall(L, d, i + 1);
    } else {
      CrashAfterRecovery(L, d);
    }
  }

  /** e is a disk the recovery of d passes through. */
  ghost predicate CrashStep<B(!new)>(L: Layout<B>, d: Disk<B>, e: Disk<B>) {
    WellFormed(L, d) && e in RecoveryTrace(L, d)
  }

  /** Each disk was left behind by a crash during the recovery of the one before it. */
  ghost predicate CrashChain<B(!new)>(L: Layout<B>, chain: seq<Disk<B>>) {
    forall i, j :: 0 <= i && j == i + 1 && j < |chain| ==> CrashStep(L, chain[i], chain[j])
  }

  /** Any number of crashes during recovery ends in the home sectors one undisturbed recovery gives. */
  lemma {:induction false} RecoverySurvivesCrashes<B(!new)>(L: Layout<B>, chain: seq<Disk<B>>)
    requires |chain| > 0 && WellFormed(L, chain[0]) && CrashChain(L, chain)
    ensures var last := chain[|chain| - 1];
            WellFormed(L, last) && SameHome(L, Recovered(L, last), Recovered(L, chain[0]))
  {
    var n := |chain|;
    if n > 1 {
      RecoverySurvivesCrashes(L, chain[..n - 1]);
      var d := chain[n - 2];
      assert CrashStep(L, d, chain[n - 1]);
      var i :| 0 <= i < |RecoveryTrace(L, d)| && RecoveryTrace(L, d)[i] == chain[n - 1];
      RecoveryCrash(L, d, i);
    }
  }

  /** The disk and the cache differ only on the logged sectors. */
  ghost predicate DiffersOnlyAt<B(!new)>(L: Layout<B>, d: Disk<B>, view: Disk<B>, sectors: seq<Word>) {
    |view| == |d| && forall s :: 0 <= s < |d| && !L.InLog(s) && s !in sectors ==> view[s] == d[s]
  }

  /** Until the header is written a crash recovers the old home sectors. */
  lemma CrashBeforeCommitPoint<B(!new)>(L: Layout<B>, d: Disk<B>, view: Disk<B>, sectors: seq<Word>, k: nat)
    requires WellFormed(L, d) && |L.decode(d[L.start])| == 0
    requires |view| == |d| && Fits(L, |d|, sectors) && k <= |sectors|
    ensures var e := LogTo(L, d, view, sectors, k);
            WellFormed(L, e) && SameHome(L, Recovered(L, e), d)
  {
    LogToContents(L, d, view, sectors, k);
  }

  /** A disk whose log blocks hold the cached content of the listed sectors. */
  ghost predicate HoldsTransaction<B(!new)>(L: Layout<B>, h: Disk<B>, view: Disk<B>, sectors: seq<Word>) {
    && |h| == |view| && Fits(L, |h|, sectors)
    && (forall i :: 0 <= i < |sectors| ==> h[L.start + 1 + i] == view[sectors[i]])
    && (forall s :: 0 <= s < |h| && !L.InLog(s) && s !in sectors ==> h[s] == view[s])
  }

  lemma LoggedHoldsTransaction<B(!new)>(L: Layout<B>, d: Disk<B>, view: Disk<B>, sectors: seq<Word>)
    requires Fits(L, |d|, sectors) && DiffersOnlyAt(L, d, view, sectors)
    ensures HoldsTransaction(L, Logged(L, d, view, sectors), view, sectors)
  {
    LogToContents(L, d, view, sectors, |sectors|);
  }

  /** Installing a logged transaction gives every home sector its cached content. */
  lemma InstallGivesView<B(!new)>(L: Layout<B>, h: Disk<B>, view: Disk<B>, sectors: seq<Word>)
    requires HoldsTransaction(L, h, view, sectors)
    ensures SameHome(L, InstallTo(L, h, sectors, |sectors|), view)
  {
    var n := |sectors|;
    forall s | 0 <= s < |h| && !L.InLog(s) ensures InstallTo(L, h, sectors, n)[s] == view[s] {
      InstalledSector(L, h, sectors, n, s);
      assert LastAt(sectors, n, s) >= 0 ==> h[L.start + 1 + LastAt(sectors, n, s)] == view[s];
    }
  }

  lemma LoggedHead<B(!new)>(L: Layout<B>, d: Disk<B>, view: Disk<B>, sectors: seq<Word>)
    requires |view| == |d| && Fits(L, |d|, sectors)
    ensures var h := Logged(L, d, view, sectors);
            WellFormed(L, h) && L.decode(h[L.start]) == sectors
  {
  }

  /** From the header write on a crash recovers the new home sectors. */
  lemma CrashAfterCommitPoint<B(!new)>(L: Layout<B>, d: Disk<B>, view: Disk<B>, sectors: seq<Word>, k: nat)
    requires Fits(L, |d|, sectors) && DiffersOnlyAt(L, d, view, sectors) && k <= |sectors|
    ensures var e := InstallTo(L, Logged(L, d, view, sectors), sectors, k);
            WellFormed(L, e) && SameHome(L, Recovered(L, e), view)
  {
    var h := Logged(L, d, view, sectors);
    LoggedHead(L, d, view, sectors);
    CrashDuringInstall(L, h, k);
    LoggedHoldsTransaction(L, d, view, sectors);
    InstallGivesView(L, h, view, sectors);
  }

  /** After the header is cleared the new home sectors are in place. */
  lemma CrashAfterClear<B(!new)>(L: Layout<B>, d: Disk<B>, view: Disk<B>, sectors: seq<Word>)
    requires Fits(L, |d|, sectors) && DiffersOnlyAt(L, d, view, sectors)
    ensures var e := PutHead(L, InstallTo(L, Logged(L, d, view, sectors), sectors, |sectors|), []);
            WellFormed(L, e) && |L.decode(e[L.start])| == 0 && SameHome(L, e, view) && SameHome(L, Recovered(L, e), view)
  {
    LoggedHoldsTransaction(L, d, view, sectors);
    InstallGivesView(L, Logged(L, d, view, sectors), view, sectors);
  }

  /**
   Crash atomicity of commit.  Wherever commit is cut off, recovery restores exactly the old
   home sectors or exactly the new ones, and the new ones if and only if the header was written.
   */
  lemma CommitIsAtomic<B(!new)>(L: Layout<B>, d: Disk<B>, view: Disk<B>, sectors: seq<Word>, i: nat)
    requires WellFormed(L, d) && |L.decode(d[L.start])| == 0
    requires Fits(L, |d|, sectors) && DiffersOnlyAt(L, d, view, sectors)
    requires i < |CommitTrace(L, d, view, sectors)|
    ensures var e := CommitTrace(L, d, view, sectors)[i];
            WellFormed(L, e) && SameHome(L, Recovered(L, e), if i < |sectors| then d else view)
  {
    var n := |sectors|;
    if i < n {
      CrashBeforeCommitPoint(L, d, view, sectors, i + 1);
    } else if i <= 2 * n {
      CrashAfterCommitPoint(L, d, view, sectors, i - n);
    } else {
      CrashAfterClear(L, d, view, sectors);
    }
  }

  /** The same with any number of further crashes during recovery. */
  lemma CommitIsAtomicUnderRepeatedCrashes<B(!new)>(L: Layout<B>, d: Disk<B>, view: Disk<B>, sectors: seq<Word>, i: nat, chain: seq<Disk<B>>)
    requires WellFormed(L, d) && |L.decode(d[L.start])| == 0
    requires Fits(L, |d|, sectors) && DiffersOnlyAt(L, d, view, sectors)
    requires i < |CommitTrace(L, d, view, sectors)|
    requires |chain| > 0 && chain[0] == CommitTrace(L, d, view, sectors)[i] && CrashChain(L, chain)
    ensures var last := chain[|chain| - 1];
            WellFormed(L, last) && SameHome(L, Recovered(L, last), if i < |sectors| then d else view)
  {
    CommitIsAtomic(L, d, view, sectors, i);
    RecoverySurvivesCrashes(L, chain);
  }
}
