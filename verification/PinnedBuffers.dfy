/** How many buffers of the cache hold logged, not yet installed, blocks. */
module PinnedBuffers {
  import opened Bio

  ghost function Dirty(bufs: seq<Buf>): set<nat> {
    set b | 0 <= b < |bufs| && bufs[b].dirty :: bufs[b].sector
  }

  ghost predicate PinnedAt(bufs: seq<Buf>, b: nat, s: nat) {
    b < |bufs| && bufs[b].dirty && Holds(bufs[b], ROOTDEV, s)
  }

  ghost predicate Quiet(bufs: seq<Buf>) {
    forall b :: 0 <= b < |bufs| ==> !bufs[b].busy
  }

  ghost predicate AllOnRoot(bufs: seq<Buf>) {
    forall b :: 0 <= b < |bufs| && bufs[b].dirty ==> bufs[b].dev == ROOTDEV
  }

  /** One sector per dirty buffer: the set of dirty sectors is as large as the number of dirty buffers. */
  lemma {:induction false} AllDirtyCount(bufs: seq<Buf>)
    requires OneCopy(bufs) && AllOnRoot(bufs) && forall b :: 0 <= b < |bufs| ==> bufs[b].dirty
    ensures |Dirty(bufs)| == |bufs|
  {
    if |bufs| > 0 {
      var n := |bufs| - 1;
      var front := bufs[..n];
      AllDirtyCount(front);
      assert bufs[n].sector !in Dirty(front) by {
        forall b | 0 <= b < n ensures front[b].sector != bufs[n].sector {
          assert bufs[b] == front[b];
          assert Holds(bufs[b], bufs[n].dev, bufs[n].sector) ==> b == n;
        }
      }
      assert Dirty(bufs) == Dirty(front) + {bufs[n].sector} by {
        forall s | s in Dirty(bufs) ensures s in Dirty(front) + {bufs[n].sector} {
          var b :| 0 <= b < |bufs| && bufs[b].dirty && bufs[b].sector == s;
          assert b < n ==> front[b] == bufs[b];
        }
        forall s | s in Dirty(front) ensures s in Dirty(bufs) {
          var b :| 0 <= b < n && front[b].dirty && front[b].sector == s;
          assert front[b] == bufs[b];
        }
      }
    } else {
      assert Dirty(bufs) == {};
    }
  }

  lemma {:induction false} DirtyAtMost(bufs: seq<Buf>)
    ensures |Dirty(bufs)| <= |bufs|
    ensures (exists b :: 0 <= b < |bufs| && !bufs[b].dirty) ==> |Dirty(bufs)| < |bufs|
  {
    if |bufs| == 0 {
      assert Dirty(bufs) == {};
    } else {
      var n := |bufs| - 1;
      var front := bufs[..n];
      DirtyAtMost(front);
      var last := if bufs[n].dirty then {bufs[n].sector} else {};
      assert Dirty(bufs) == Dirty(front) + last by {
        forall s | s in Dirty(bufs) ensures s in Dirty(front) + last {
          var b :| 0 <= b < |bufs| && bufs[b].dirty && bufs[b].sector == s;
          assert b < n ==> front[b] == bufs[b];
        }
        forall s | s in Dirty(front) ensures s in Dirty(bufs) {
          var b :| 0 <= b < n && front[b].dirty && front[b].sector == s;
          assert front[b] == bufs[b];
        }
      }
      assert |Dirty(bufs)| <= |Dirty(front)| + |last|;
      if b :| 0 <= b < |bufs| && !bufs[b].dirty {
        assert b < n ==> !front[b].dirty;
      }
    }
  }

  lemma DirtyHolders(bufs: seq<Buf>)
    requires AllOnRoot(bufs)
    ensures forall b :: 0 <= b < |bufs| && bufs[b].dirty ==> bufs[b].sector in Dirty(bufs)
    ensures forall s :: s in Dirty(bufs) ==> exists b: nat :: PinnedAt(bufs, b, s)
  {
    forall s | s in Dirty(bufs) ensures exists b: nat :: PinnedAt(bufs, b, s) {
      var b :| 0 <= b < |bufs| && bufs[b].dirty && bufs[b].sector == s;
      assert PinnedAt(bufs, b, s);
    }
  }

  /** bget can recycle a buffer exactly while fewer than all buffers hold logged blocks. */
  lemma CleanIff(bufs: seq<Buf>)
    requires OneCopy(bufs) && AllOnRoot(bufs) && Quiet(bufs)
    ensures HasClean(bufs) <==> |Dirty(bufs)| < |bufs|
  {
    DirtyAtMost(bufs);
    if !HasClean(bufs) {
      forall b | 0 <= b < |bufs| ensures bufs[b].dirty {
        assert !Clean(bufs[b]);
      }
      AllDirtyCount(bufs);
    } else {
      var b :| 0 <= b < |bufs| && Clean(bufs[b]);
      assert !bufs[b].dirty;
    }
  }
}
