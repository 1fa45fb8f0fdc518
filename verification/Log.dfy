/** The log of src/log.c, working through the buffer cache. */
module Log {
  import opened Blocks
  import opened Bio
  import opened Wal
  import opened LogHeader
  import opened PinnedBuffers
  import opened GroupCommit

  /** A sector with no dirty copy in a quiet cache reads as it is on disk. */
  lemma CleanSeesDisk(c: BCache, s: nat, bufs: seq<Buf>)
    requires |bufs| == NBUF && Quiet(bufs) && s !in Dirty(bufs) && s < |c.disk|
    requires Refines(bufs, c.disk, c.view) && Coherent(bufs, c.disk)
    ensures c.view[s] == c.disk[s]
  {
    if InCache(bufs, s) {
      var b :| 0 <= b < |bufs| && CachesSector(bufs[b], s);
      assert !bufs[b].dirty;
    }
  }

  lemma DirtyUnchanged(bufs: seq<Buf>, b: nat, x: Buf)
    requires b < |bufs| && !bufs[b].dirty && !x.dirty
    ensures Dirty(bufs[b := x]) == Dirty(bufs)
  {
    var bufs' := bufs[b := x];
    forall s | s in Dirty(bufs) ensures s in Dirty(bufs') {
      var c :| 0 <= c < |bufs| && bufs[c].dirty && bufs[c].sector == s;
      assert bufs'[c] == bufs[c];
    }
    forall s | s in Dirty(bufs') ensures s in Dirty(bufs) {
      var c :| 0 <= c < |bufs'| && bufs'[c].dirty && bufs'[c].sector == s;
      assert bufs'[c] == bufs[c];
    }
  }

  /** bread of a sector nobody holds or has logged. */
  method ReadClean(c: BCache, s: nat) returns (ok: bool, b: nat)
    requires c.Valid() && Quiet(c.bufs) && s !in Dirty(c.bufs) && s < |c.disk|
    modifies c`bufs, c`disk, c`history
    ensures ok <==> |Dirty(old(c.bufs))| < NBUF
    ensures ok ==>
              && c.Valid() && c.disk == old(c.disk) && c.history == old(c.history)
              && b < NBUF && !old(c.bufs)[b].dirty && s < |c.view| == |c.disk| && c.view[s] == c.disk[s]
              && |c.bufs| == |old(c.bufs)| == NBUF && Dirty(c.bufs) == Dirty(old(c.bufs))
              && c.bufs == old(c.bufs)[b := Buf(ROOTDEV, s, true, true, false, c.view[s])]
  {
    ghost var bufs0 := c.bufs;
    b := 0;
    CleanIff(bufs0);
    DirtyHolders(bufs0);
    CleanSeesDisk(c, s, bufs0);
    hide Dirty, Linked, Permutation, ByRelease;
    var r := c.Bread(ROOTDEV, s);
    if !r.Got? {
      assert Cached(bufs0, ROOTDEV, s) ==> HasClean(bufs0);
      return false, b;
    }
    b := r.b;
    DirtyUnchanged(bufs0, b, c.bufs[b]);
    return true, b;
  }

  /** bread of a home block while buffer b1 is held: either the block is pinned, or nothing is. */
  method ReadHome(c: BCache, home: nat, ghost b1: nat, ghost pinned: bool) returns (b2: nat)
    requires c.Valid() && home < |c.disk| && b1 < NBUF && !Holds(c.bufs[b1], ROOTDEV, home)
    requires forall b :: 0 <= b < NBUF && b != b1 ==> !c.bufs[b].busy
    requires c.bufs[b1].busy
    requires if pinned then exists b: nat :: PinnedAt(c.bufs, b, home)
             else forall b :: 0 <= b < NBUF ==> !c.bufs[b].dirty
    modifies c`bufs, c`disk, c`history
    ensures c.Valid() && c.disk == old(c.disk) && c.history == old(c.history)
    ensures b2 < NBUF && b2 != b1 && home < |c.view| == |c.disk| && |old(c.bufs)| == NBUF
    ensures c.bufs == old(c.bufs)[b2 := Buf(ROOTDEV, home, true, true, pinned, c.view[home])]
    ensures if pinned then Holds(old(c.bufs)[b2], ROOTDEV, home) else !old(c.bufs)[b2].dirty
  {
    ghost var bufs0 := c.bufs;
    if !pinned {
      assert Clean(c.bufs[if b1 == 0 then 1 else 0]);
    } else {
      ghost var b: nat :| PinnedAt(c.bufs, b, home);
      assert Cached(c.bufs, ROOTDEV, home);
      assert forall a :: 0 <= a < NBUF && Holds(bufs0[a], ROOTDEV, home) ==> Holds(bufs0[a], bufs0[b].dev, bufs0[b].sector);
    }
    hide Linked, Permutation, ByRelease, Refines, Coherent;
    var r := c.Bread(ROOTDEV, home);
    b2 := r.b;
  }

  /** The two breads at the top of the loops of write_log and install_trans. */
  method ReadPair(c: BCache, log: nat, home: nat) returns (ok: bool, b1: nat, b2: nat)
    requires c.Valid() && Quiet(c.bufs) && log != home && log < |c.disk| && home < |c.disk|
    requires log !in Dirty(c.bufs) && (home in Dirty(c.bufs) || Dirty(c.bufs) == {})
    modifies c`bufs, c`disk, c`history
    ensures ok <==> |Dirty(old(c.bufs))| < NBUF
    ensures ok ==>
              && c.Valid() && c.disk == old(c.disk) && c.history == old(c.history)
              && log < |c.view| == |c.disk| && home < |c.view| && c.view[log] == c.disk[log]
              && b1 < NBUF && b2 < NBUF && b1 != b2
              && c.bufs == old(c.bufs)[b1 := Buf(ROOTDEV, log, true, true, false, c.view[log])]
                                      [b2 := Buf(ROOTDEV, home, true, true, home in Dirty(old(c.bufs)), c.view[home])]
              && !old(c.bufs)[b1].dirty
              && (if home in Dirty(old(c.bufs)) then Holds(old(c.bufs)[b2], ROOTDEV, home) else !old(c.bufs)[b2].dirty)
  {
    b2 := 0;
    ghost var bufs0 := c.bufs;
    DirtyHolders(bufs0);
    hide BCache.Valid, Dirty, OneCopy;
    ok, b1 := ReadClean(c, log);
    if ok {
      if home in Dirty(bufs0) {
        ghost var b: nat :| PinnedAt(bufs0, b, home);
        assert PinnedAt(c.bufs, b, home);
      }
      b2 := ReadHome(c, home, b1, home in Dirty(bufs0));
    }
  }

  lemma DirtyOnRoot(bufs: seq<Buf>, disk: seq<Block>, view: seq<Block>)
    requires Refines(bufs, disk, view) && Coherent(bufs, disk)
    ensures AllOnRoot(bufs)
  {
  }

  /** The dirty sectors once the pair is released, having written the destination. */
  lemma DirtyAfterCopy(bufs: seq<Buf>, b1: nat, b2: nat, x1: Buf, x2: Buf, log: nat, home: nat)
    requires |bufs| == NBUF && b1 < NBUF && b2 < NBUF && b1 != b2 && OneCopy(bufs) && AllOnRoot(bufs)
    requires !bufs[b1].dirty && log !in Dirty(bufs) && log != home && (home in Dirty(bufs) || Dirty(bufs) == {})
    requires if home in Dirty(bufs) then Holds(bufs[b2], ROOTDEV, home) else !bufs[b2].dirty
    requires x1.sector == log && !x1.dirty && x2.sector == home && (x2.dirty ==> home in Dirty(bufs))
    ensures Dirty(bufs[b1 := x1][b2 := x2]) == if x2.dirty then Dirty(bufs) else Dirty(bufs) - {home}
  {
    var bufs' := bufs[b1 := x1][b2 := x2];
    forall s | s in Dirty(bufs) && s != home ensures s in Dirty(bufs') {
      var b :| 0 <= b < |bufs| && bufs[b].dirty && bufs[b].sector == s;
      assert bufs'[b] == bufs[b];
    }
    forall s | s in Dirty(bufs') ensures s in Dirty(bufs) && (s != home || x2.dirty) {
      var b :| 0 <= b < |bufs'| && bufs'[b].dirty && bufs'[b].sector == s;
      if b != b2 {
        assert bufs[b] == bufs'[b];
        assert home in Dirty(bufs) ==> (Holds(bufs[b], bufs[b2].dev, bufs[b2].sector) ==> b == b2);
      }
    }
    assert x2.dirty ==> bufs'[b2].dirty;
  }

  /** memmove, bwrite and the two brelses of those loops. */
  method WritePair(c: BCache, dst: nat, src: nat)
    requires c.Valid() && dst < NBUF && src < NBUF && dst != src
    requires c.bufs[dst].busy && c.bufs[dst].valid && c.bufs[src].busy && c.bufs[src].valid
    requires c.bufs[src].dirty || c.bufs[src].data == c.disk[c.bufs[src].sector]
    requires c.bufs[src].sector != c.bufs[dst].sector
    modifies c
    ensures c.Valid()
    ensures c.bufs == old(c.bufs)[dst := old(c.bufs)[dst].(data := old(c.bufs)[src].data, busy := false, dirty := false)]
                                 [src := old(c.bufs)[src].(busy := false)]
    ensures c.bufs[dst].sector < |old(c.disk)|
    ensures c.disk == old(c.disk)[c.bufs[dst].sector := c.bufs[dst].data]
    ensures c.view == old(c.view)[c.bufs[dst].sector := c.bufs[dst].data]
    ensures c.history == old(c.history) + [c.disk]
  {
    hide Linked, Permutation, ByRelease, OneCopy, Coherent;
    c.Store(dst, c.bufs[src].data);
    var done := c.Bwrite(dst);
    done := c.Brelse(src);
    done := c.Brelse(dst);
  }

  /**
   The body of the loops of write_log and install_trans: read log block `log` and home block `home`
   and write one over the other.
   */
  method CopyBlock(c: BCache, log: nat, home: nat, toLog: bool) returns (ok: bool)
    requires c.Valid() && Quiet(c.bufs) && log != home && log < |c.disk| && home < |c.disk|
    requires log !in Dirty(c.bufs) && (home in Dirty(c.bufs) || Dirty(c.bufs) == {})
    modifies c
    ensures ok <==> |Dirty(old(c.bufs))| < NBUF
    ensures ok ==>
              var dst, src := if toLog then log else home, if toLog then home else log;
              && c.Valid() && Quiet(c.bufs)
              && c.disk == old(c.disk)[dst := old(c.view)[src]]
              && c.view == old(c.view)[dst := old(c.view)[src]]
              && c.history == old(c.history) + [c.disk]
              && Dirty(c.bufs) == Dirty(old(c.bufs)) - {dst}
  {
    hide Linked, Permutation, ByRelease, Coherent, Refines, Dirty, AllOnRoot;
    ghost var bufs0 := c.bufs;
    DirtyOnRoot(c.bufs, c.disk, c.view);
    var b1, b2;
    ok, b1, b2 := ReadPair(c, log, home);
    if !ok {
      return;
    }
    if home !in Dirty(bufs0) {
      CleanSeesDisk(c, home, bufs0);
    }
    if toLog {
      WritePair(c, b1, b2);
    } else {
      WritePair(c, b2, b1);
    }
    DirtyAfterCopy(bufs0, b1, b2, c.bufs[b1], c.bufs[b2], log, home);
    assert c.bufs == bufs0[b1 := c.bufs[b1]][b2 := c.bufs[b2]];
    return;
  }


  /** Write new content into a held, unlogged block and release it. */
  method WriteBack(c: BCache, b: nat, data: Block)
    requires c.Valid() && b < NBUF && c.bufs[b].busy && c.bufs[b].valid && !c.bufs[b].dirty
    requires forall a :: 0 <= a < NBUF && a != b ==> !c.bufs[a].busy
    modifies c
    ensures c.Valid() && Quiet(c.bufs) && Dirty(c.bufs) == Dirty(old(c.bufs))
    ensures old(c.bufs)[b].sector < |old(c.disk)| == |old(c.view)|
    ensures c.disk == old(c.disk)[old(c.bufs)[b].sector := data]
    ensures c.view == old(c.view)[old(c.bufs)[b].sector := data]
    ensures c.history == old(c.history) + [c.disk]
  {
    ghost var bufs0 := c.bufs;
    hide Dirty, Linked, Permutation, ByRelease, OneCopy, Coherent;
    c.Store(b, data);
    var done := c.Bwrite(b);
    done := c.Brelse(b);
    DirtyUnchanged(bufs0, b, c.bufs[b]);
    assert c.bufs == bufs0[b := c.bufs[b]];
  }

  /** Release a held block that was only read. */
  method Release(c: BCache, b: nat)
    requires c.Valid() && b < NBUF && c.bufs[b].busy && c.bufs[b].valid && !c.bufs[b].dirty
    requires c.bufs[b].data == c.disk[c.bufs[b].sector]
    requires forall a :: 0 <= a < NBUF && a != b ==> !c.bufs[a].busy
    modifies c`bufs, c`next, c`prev, c`order, c`stamp, c`clock
    ensures c.Valid() && Quiet(c.bufs) && Dirty(c.bufs) == Dirty(old(c.bufs))
  {
    ghost var bufs0 := c.bufs;
    hide Dirty, Linked, Permutation, ByRelease, OneCopy, Coherent;
    var done := c.Brelse(b);
    DirtyUnchanged(bufs0, b, c.bufs[b]);
    assert c.bufs == bufs0[b := c.bufs[b]];
  }

  ghost function SetOf(sectors: seq<Word>): set<nat> {
    set i | 0 <= i < |sectors| :: sectors[i] as nat
  }

  lemma {:induction false} SetOfCount(sectors: seq<Word>)
    requires NoRepeats(sectors)
    ensures |SetOf(sectors)| == |sectors|
  {
    if |sectors| > 0 {
      var n := |sectors| - 1;
      SetOfCount(sectors[..n]);
      SetOfPrefix(sectors, n);
      assert sectors[..n + 1] == sectors;
      assert sectors[n] as nat !in SetOf(sectors[..n]);
    }
  }

  lemma SetOfPrefix(sectors: seq<Word>, k: nat)
    requires k < |sectors|
    ensures SetOf(sectors[..k + 1]) == SetOf(sectors[..k]) + {sectors[k] as nat}
  {
    var a, b := sectors[..k], sectors[..k + 1];
    forall s | s in SetOf(a) ensures s in SetOf(b) {
      var i :| 0 <= i < k && a[i] as nat == s;
      assert b[i] as nat == s;
    }
    assert b[k] as nat in SetOf(b);
  }

  class Log {
    const cache: BCache
    const start: nat                 // log.start
    const size: nat                  // log.size
    var outstanding: int             // log.outstanding
    var committing: bool             // log.committing
    var sectors: seq<Word>           // log.lh.sector[0..log.lh.n]

    constructor (cache: BCache, start: nat, size: nat)
      ensures this.cache == cache && this.start == start && this.size == size
      ensures outstanding == 0 && !committing && sectors == []
    {
      this.cache, this.start, this.size := cache, start, size;
      outstanding, committing, sectors := 0, false, [];
    }

    ghost function L(): Layout<Block> {
      At(start, size)
    }

    /** Nobody holds a buffer, and no block of the log region is waiting to be written. */
    ghost predicate Ready()
      reads this, cache
    {
      && cache.Valid() && Quiet(cache.bufs) && |cache.view| == |cache.disk|
      && Fits(L(), |cache.disk|, sectors)
      && forall s :: s in Dirty(cache.bufs) ==> !L().InLog(s)
    }

    /** In a ready cache the log region reads as it is on disk. */
    lemma LogRegionClean()
      requires Ready()
      ensures forall s :: 0 <= s < |cache.disk| && L().InLog(s) ==> cache.view[s] == cache.disk[s]
    {
      forall s | 0 <= s < |cache.disk| && L().InLog(s) ensures cache.view[s] == cache.disk[s] {
        CleanSeesDisk(cache, s, cache.bufs);
      }
    }

    /** write_log, started on disk d with cached content v, has copied the first k blocks. */
    ghost predicate LogWritten(d: Disk<Block>, v: Disk<Block>, h: seq<Disk<Block>>, k: nat)
      reads this, cache
    {
      && Ready() && k <= |sectors| && |v| == |d| == |cache.disk|
      && cache.disk == LogTo(L(), d, v, sectors, k)
      && SameHome(L(), cache.view, v)
      && cache.history == h + LogTrace(L(), d, v, sectors, k)
    }

    /** One turn of the loop of write_log; it fails only when every buffer is pinned. */
    method LogOne(tail: nat, ghost d0: Disk<Block>, ghost v0: Disk<Block>, ghost h0: seq<Disk<Block>>) returns (ok: bool)
      requires tail < |sectors| && LogWritten(d0, v0, h0, tail)
      requires NoRepeats(sectors) && Dirty(cache.bufs) == SetOf(sectors)
      modifies cache
      ensures ok <==> |sectors| < NBUF
      ensures ok ==> LogWritten(d0, v0, h0, tail + 1) && Dirty(cache.bufs) == SetOf(sectors)
    {
      SetOfCount(sectors);
      assert sectors[tail] as nat in SetOf(sectors);
      hide BCache.Valid, Dirty, Quiet, Layout.Lawful, SetOf;
      ok := CopyBlock(cache, start + tail + 1, sectors[tail], true);
    }

    /** write_log: copy modified blocks from cache to log. */
    method WriteLog() returns (ok: bool)
      requires Ready() && NoRepeats(sectors) && Dirty(cache.bufs) == SetOf(sectors)
      modifies cache
      ensures ok <==> |sectors| == 0 || |sectors| < NBUF
      ensures ok ==> LogWritten(old(cache.disk), old(cache.view), old(cache.history), |sectors|)
      ensures ok ==> Dirty(cache.bufs) == SetOf(sectors)
    {
      hide BCache.Valid, Dirty, Quiet, Layout.Lawful, SetOf;
      ghost var d0, v0, h0 := cache.disk, cache.view, cache.history;
      var tail := 0;
      while tail < |sectors|
        invariant LogWritten(d0, v0, h0, tail)
        invariant Dirty(cache.bufs) == SetOf(sectors)
        invariant tail == 0 || |sectors| < NBUF
      {
        ok := LogOne(tail, d0, v0, h0);
        if !ok {
          return false;
        }
        tail := tail + 1;
      }
      return true;
    }

    /** write_head: write the in-memory header to disk. */
    method WriteHead()
      requires Ready() && |Dirty(cache.bufs)| < NBUF
      modifies cache
      ensures Ready() && Dirty(cache.bufs) == old(Dirty(cache.bufs))
      ensures cache.disk == PutHead(L(), old(cache.disk), sectors)
      ensures SameHome(L(), cache.view, old(cache.view))
      ensures cache.history == old(cache.history) + [cache.disk]
    {
      hide BCache.Valid, Layout.Lawful, EncodeHead;
      var ok, b := ReadClean(cache, start);
      var data := FillHead(cache.bufs[b].data, sectors);
      WriteBack(cache, b, data);
    }

    /** read_head: read the header from disk into memory. */
    method ReadHead()
      requires Ready() && |Dirty(cache.bufs)| < NBUF && WellFormed(L(), cache.disk)
      modifies cache, this`sectors
      ensures Ready() && Dirty(cache.bufs) == old(Dirty(cache.bufs))
      ensures cache.disk == old(cache.disk) && cache.view == old(cache.view) && cache.history == old(cache.history)
      ensures sectors == L().decode(cache.disk[start])
    {
      hide BCache.Valid, Layout.Lawful, DecodeHead;
      var ok, b := ReadClean(cache, start);
      sectors := ScanHead(cache.bufs[b].data);
      Release(cache, b);
    }

    /** install_trans, started on disk d with dirty sectors `pinned`, has installed the first k blocks. */
    ghost predicate Installed(d: Disk<Block>, v: Disk<Block>, h: seq<Disk<Block>>, pinned: set<nat>, k: nat)
      reads this, cache
    {
      && Ready() && k <= |sectors| && |v| == |d| == |cache.disk|
      && cache.disk == InstallTo(L(), d, sectors, k)
      && cache.view == InstallTo(L(), v, sectors, k)
      && cache.history == h + InstallTrace(L(), d, sectors, k)
      && Dirty(cache.bufs) == pinned - SetOf(sectors[..k])
    }

    lemma NothingInstalled()
      requires Ready()
      ensures Installed(cache.disk, cache.view, cache.history, Dirty(cache.bufs), 0)
    {
      hide BCache.Valid, Dirty, Quiet, Layout.Lawful;
    }

    /** One turn of the loop of install_trans. */
    method InstallOne(tail: nat, ghost d0: Disk<Block>, ghost v0: Disk<Block>, ghost h0: seq<Disk<Block>>, ghost pinned: set<nat>)
      requires tail < |sectors| && Installed(d0, v0, h0, pinned, tail) && |pinned| < NBUF
      requires pinned == {} || (NoRepeats(sectors) && pinned == SetOf(sectors))
      requires forall s :: 0 <= s < |d0| && L().InLog(s) ==> v0[s] == d0[s]
      modifies cache
      ensures Installed(d0, v0, h0, pinned, tail + 1)
    {
      hide BCache.Valid, Dirty, Quiet, Layout.Lawful, InstallTo, InstallTrace, SetOf;
      PinnedNext(sectors, tail, pinned);
      InstallTurn(L(), d0, v0, sectors, tail);
      var ok := CopyBlock(cache, start + tail + 1, sectors[tail], false);
    }

    /** install_trans: copy committed blocks from the log to their home location. */
    method InstallTrans()
      requires Ready() && |Dirty(cache.bufs)| < NBUF
      requires Dirty(cache.bufs) == {} || (NoRepeats(sectors) && Dirty(cache.bufs) == SetOf(sectors))
      modifies cache
      ensures Installed(old(cache.disk), old(cache.view), old(cache.history), old(Dirty(cache.bufs)), |sectors|)
    {
      ghost var d0, v0, h0, pinned := cache.disk, cache.view, cache.history, Dirty(cache.bufs);
      LogRegionClean();
      NothingInstalled();
      hide BCache.Valid, Dirty, Quiet, Layout.Lawful, SetOf, InstallTo, InstallTrace;
      var tail := 0;
      while tail < |sectors|
        invariant Installed(d0, v0, h0, pinned, tail)
      {
        InstallOne(tail, d0, v0, h0, pinned);
        tail := tail + 1;
      }
    }

    /** The steps commit and recovery share: install, set log.lh.n to 0 and clear the header. */
    method InstallAndClear()
      requires Ready() && |Dirty(cache.bufs)| < NBUF
      requires Dirty(cache.bufs) == {} || (NoRepeats(sectors) && Dirty(cache.bufs) == SetOf(sectors))
      modifies cache, this`sectors
      ensures Ready() && Dirty(cache.bufs) == {} && sectors == []
      ensures cache.disk == PutHead(L(), InstallTo(L(), old(cache.disk), old(sectors), |old(sectors)|), [])
      ensures cache.history == old(cache.history) + (InstallTrace(L(), old(cache.disk), old(sectors), |old(sectors)|) + [cache.disk])
    {
      hide BCache.Valid, Dirty, Quiet, Layout.Lawful, InstallTo, InstallTrace, SetOf, EncodeHead, DecodeHead;
      InstallTrans();
      assert sectors[..|sectors|] == sectors;
      sectors := [];
      WriteHead();
    }

    /** recover_from_log: redo the committed transaction, if there is one, and clear the log. */
    method RecoverFromLog()
      requires Ready() && Dirty(cache.bufs) == {} && WellFormed(L(), cache.disk)
      modifies cache, this`sectors
      ensures Ready() && Dirty(cache.bufs) == {} && sectors == []
      ensures cache.disk == Recovered(L(), old(cache.disk))
      ensures cache.history == old(cache.history) + RecoveryTrace(L(), old(cache.disk))
    {
      RecoveryTraceParts(L(), cache.disk);
      hide BCache.Valid, Dirty, Quiet, Layout.Lawful, InstallTo, InstallTrace, SetOf, EncodeHead, DecodeHead, RecoveryTrace;
      ReadHead();
      InstallAndClear();
    }

    /** The first half of commit, up to and including the commit point. */
    method LogAndSeal() returns (ok: bool)
      requires Ready() && NoRepeats(sectors) && Dirty(cache.bufs) == SetOf(sectors) && |sectors| > 0
      modifies cache
      ensures ok <==> |sectors| < NBUF
      ensures ok ==>
                && Ready() && Dirty(cache.bufs) == SetOf(sectors) && |old(cache.view)| == |old(cache.disk)|
                && cache.disk == Logged(L(), old(cache.disk), old(cache.view), sectors)
                && cache.history == old(cache.history)
                                    + (LogTrace(L(), old(cache.disk), old(cache.view), sectors, |sectors|) + [cache.disk])
    {
      hide BCache.Valid, Dirty, Quiet, Layout.Lawful, LogTo, LogTrace, SetOf, EncodeHead, DecodeHead, NoRepeats;
      SetOfCount(sectors);
      ok := WriteLog();
      if ok {
        WriteHead();
      }
    }

    /** commit: the whole transaction reaches the disk, unless it pins every buffer of the cache. */
    method Commit() returns (ok: bool)
      requires Ready() && NoRepeats(sectors) && Dirty(cache.bufs) == SetOf(sectors)
      modifies cache, this`sectors
      ensures ok <==> |old(sectors)| == 0 || |old(sectors)| < NBUF
      ensures ok ==> Ready() && sectors == [] && Dirty(cache.bufs) == {}
      ensures ok && |old(sectors)| == 0 ==> cache.history == old(cache.history) && cache.disk == old(cache.disk)
      ensures ok && |old(sectors)| > 0 ==>
                cache.history == old(cache.history) + CommitTrace(L(), old(cache.disk), old(cache.view), old(sectors))
    {
      ok := true;
      if |sectors| > 0 {
        CommitTraceParts(L(), cache.disk, cache.view, sectors);
        SetOfCount(sectors);
        hide BCache.Valid, Dirty, Quiet, Layout.Lawful, InstallTo, InstallTrace, Logged, LogTo, LogTrace, SetOf, EncodeHead, DecodeHead, CommitTrace;
        ghost var h0 := cache.history;
        ghost var t1 := LogTrace(L(), cache.disk, cache.view, sectors, |sectors|);
        ok := LogAndSeal();
        if !ok {
          return;
        }
        ghost var h := cache.disk;
        ghost var t2 := InstallTrace(L(), h, sectors, |sectors|);
        InstallAndClear();
        Join(h0, t1, [h], t2, [cache.disk]);
      } else {
        assert SetOf(sectors) == {};
      }
    }

    /** One turn of begin_op under log.lock; false means the caller sleeps on the log. */
    method BeginOp() returns (admitted: bool)
      modifies this`outstanding
      ensures admitted <==> !MustWait(|sectors|, old(outstanding), committing)
      ensures outstanding == if admitted then old(outstanding) + 1 else old(outstanding)
    {
      if committing {
        return false;
      } else if |sectors| + (outstanding + 1) * MAXOPBLOCKS > LOGSIZE {
        return false;
      }
      outstanding := outstanding + 1;
      return true;
    }

    /** log_write: record the held buffer's sector, once, and pin the buffer. */
    method LogWrite(b: nat) returns (ok: bool)
      requires cache.Valid() && b < NBUF && cache.bufs[b].busy && cache.bufs[b].valid && cache.bufs[b].sector < 0x1_0000_0000
      requires NoRepeats(sectors) && Dirty(cache.bufs) == SetOf(sectors)
      modifies this`sectors, cache`bufs
      ensures ok <==> !LogWritePanics(|old(sectors)|, size, outstanding)
      ensures ok <==> outstanding >= 1 && |old(sectors)| < LOGSIZE && |old(sectors)| < size - 1
      ensures !ok ==> sectors == old(sectors) && cache.bufs == old(cache.bufs)
      ensures ok ==> sectors == Absorb(old(sectors), old(cache.bufs)[b].sector)
      ensures ok ==> cache.bufs == old(cache.bufs)[b := old(cache.bufs)[b].(dirty := true)]
      ensures cache.Valid() && NoRepeats(sectors) && Dirty(cache.bufs) == SetOf(sectors)
    {
      if |sectors| >= LOGSIZE || |sectors| >= size - 1 || outstanding < 1 {
        return false;
      }
      var sector: Word := cache.bufs[b].sector;
      var i := 0;
      while i < |sectors| && sectors[i] != sector
        invariant 0 <= i <= |sectors|
        invariant sector !in sectors[..i]
      {
        i := i + 1;
      }
      PinDirties(cache.bufs, b);
      AbsorbSet(sectors, sector);
      if i == |sectors| {
        sectors := sectors + [sector];
      } else {
        sectors := sectors[i := sector];
      }
      hide Dirty, SetOf, BCache.Valid;
      cache.Pin(b);
      return true;
    }

    /** end_op: the last operation out commits everything logged since the last commit; the others touch no buffer. */
    method EndOp() returns (ok: bool)
      requires outstanding == 1 && !committing ==> Ready() && NoRepeats(sectors) && Dirty(cache.bufs) == SetOf(sectors)
      modifies cache, this`sectors, this`outstanding, this`committing
      ensures outstanding == old(outstanding) - 1
      ensures ok <==> !old(committing) && (outstanding == 0 ==> |old(sectors)| == 0 || |old(sectors)| < NBUF)
      ensures ok ==> !committing
      ensures old(committing) || outstanding != 0 ==>
                sectors == old(sectors) && committing == old(committing) && cache.bufs == old(cache.bufs)
                && cache.disk == old(cache.disk) && cache.history == old(cache.history)
      ensures ok && outstanding == 0 ==> Ready() && sectors == [] && Dirty(cache.bufs) == {}
      ensures ok && outstanding == 0 && |old(sectors)| > 0 ==>
                cache.history == old(cache.history) + CommitTrace(L(), old(cache.disk), old(cache.view), old(sectors))
    {
      hide BCache.Valid, Dirty, Quiet, Layout.Lawful, SetOf, CommitTrace;
      outstanding := outstanding - 1;
      if committing {
        return false;
      }
      if outstanding == 0 {
        committing := true;
        ok := Commit();
        if !ok {
          return;
        }
        committing := false;
      }
      return true;
    }
  }

  lemma PinDirties(bufs: seq<Buf>, b: nat)
    requires b < |bufs|
    ensures Dirty(bufs[b := bufs[b].(dirty := true)]) == Dirty(bufs) + {bufs[b].sector}
  {
    var bufs' := bufs[b := bufs[b].(dirty := true)];
    forall s | s in Dirty(bufs) ensures s in Dirty(bufs') {
      var c :| 0 <= c < |bufs| && bufs[c].dirty && bufs[c].sector == s;
      assert bufs'[c].dirty && bufs'[c].sector == s;
    }
    assert bufs'[b].dirty;
  }

  lemma AbsorbSet(sectors: seq<Word>, sector: Word)
    ensures SetOf(Absorb(sectors, sector)) == SetOf(sectors) + {sector as nat}
  {
    var r := Absorb(sectors, sector);
    if sector in sectors {
      var i :| 0 <= i < |sectors| && sectors[i] == sector;
      assert sectors[i] as nat in SetOf(sectors);
    } else {
      SetOfPrefix(r, |sectors|);
      assert r[..|sectors|] == sectors && r[..|sectors| + 1] == r;
    }
  }

  lemma Join<T>(h: seq<T>, a: seq<T>, b: seq<T>, c: seq<T>, d: seq<T>)
    ensures h + (a + b) + (c + d) == h + (a + b + c + d)
  {
  }

  /** One turn of install_trans on the disk and on the cached content. */
  lemma InstallTurn<B(!new)>(L: Layout<B>, d: Disk<B>, v: Disk<B>, sectors: seq<Word>, k: nat)
    requires |v| == |d| && Fits(L, |d|, sectors) && k < |sectors|
    requires forall s :: 0 <= s < |d| && L.InLog(s) ==> v[s] == d[s]
    ensures var block := InstallTo(L, v, sectors, k)[L.start + k + 1];
            && InstallTo(L, d, sectors, k + 1) == InstallTo(L, d, sectors, k)[sectors[k] := block]
            && InstallTo(L, v, sectors, k + 1) == InstallTo(L, v, sectors, k)[sectors[k] := block]
            && InstallTrace(L, d, sectors, k + 1) == InstallTrace(L, d, sectors, k) + [InstallTo(L, d, sectors, k + 1)]
  {
    InstallFrame(L, d, sectors, k);
    InstallFrame(L, v, sectors, k);
  }

  /** The next sector to install is still pinned, unless nothing was. */
  lemma PinnedNext(sectors: seq<Word>, k: nat, pinned: set<nat>)
    requires k < |sectors| && (pinned == {} || (NoRepeats(sectors) && pinned == SetOf(sectors)))
    ensures var now := pinned - SetOf(sectors[..k]);
            && (sectors[k] as nat in now || now == {}) && |now| <= |pinned|
            && now - {sectors[k] as nat} == pinned - SetOf(sectors[..k + 1])
  {
    SetOfPrefix(sectors, k);
    assert sectors[k] as nat in SetOf(sectors);
    SubsetCount(pinned - SetOf(sectors[..k]), pinned);
  }

  lemma {:induction false} SubsetCount(a: set<nat>, b: set<nat>)
    requires a <= b
    ensures |a| <= |b|
  {
    assert b == a + (b - a);
  }

  /** Outside the log region the cache differs from the disk on logged sectors only: no uncommitted block is home. */
  lemma OnlyLoggedBlocksDiffer(log: Log)
    requires log.Ready() && Dirty(log.cache.bufs) == SetOf(log.sectors)
    ensures DiffersOnlyAt(log.L(), log.cache.disk, log.cache.view, log.sectors)
  {
    var c := log.cache;
    forall s | 0 <= s < |c.disk| && s !in log.sectors ensures c.view[s] == c.disk[s] {
      CleanSeesDisk(c, s, c.bufs);
    }
  }
}
