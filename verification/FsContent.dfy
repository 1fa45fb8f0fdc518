/** What calls of bmap, writei and itrunc mean for the bytes of every file. */
module FsContent {
  import opened Blocks
  import opened FileTree
  import opened FsLayout
  import opened FsState
  import opened FileBytes

  /** Bytes off.. of file f have become src; every other byte of every file is as it was. */
  ghost predicate Wrote(s: State, s': State, sb: Super, f: nat, off: nat, src: seq<Byte>) {
    && Ok(s', sb) && f < |s.inodes| == |s'.inodes| && SameHead(s.d, s'.d, sb.ninodes)
    && s'.inodes == s.inodes[f := s.inodes[f].(addrs := s'.inodes[f].addrs)]
    && Edited(Vol(s, sb), Vol(s', sb), f, off, src)
  }

  /** Allocation writes nothing a file can see. */
  lemma SteppedWrote(s: State, s': State, sb: Super, f: nat, P: set<Pos>, p: Pos, addr: Word, off: nat)
    requires Ok(s, sb) && Stepped(s, s', sb, f, P, p, addr)
    ensures Wrote(s, s', sb, f, off, [])
  {
    hide Sound, Extends, Edited;
    ExtendsEdited(Vol(s, sb), Vol(s', sb), f, P, off);
  }

  lemma WroteThen(s: State, s1: State, s2: State, sb: Super, f: nat, off: nat, a: seq<Byte>, b: seq<Byte>)
    requires Wrote(s, s1, sb, f, off, a) && Wrote(s1, s2, sb, f, off + |a|, b)
    ensures Wrote(s, s2, sb, f, off, a + b)
  {
    hide Ok, Vol, Edited, SameHead;
    SameHeadThen(s.d, s1.d, s2.d, sb.ninodes);
    EditedThen(Vol(s, sb), Vol(s1, sb), Vol(s2, sb), f, off, a, b);
  }

  lemma SameHeadThen(d: Disk, d1: Disk, d2: Disk, ninodes: nat)
    requires SameHead(d, d1, ninodes) && SameHead(d1, d2, ninodes)
    ensures SameHead(d, d2, ninodes)
  {
  }

  /** One turn of writei's loop, after bmap: the bytes of that one block change as asked. */
  lemma PatchWrote(s: State, sb: Super, f: nat, off: nat, src: seq<Byte>)
    requires Ok(s, sb) && f < |s.inodes| && off < MAXBYTES && off % BSIZE + |src| <= BSIZE
    requires HasBlock(Vol(s, sb), f, off)
    ensures var a := NodeOf(Vol(s, sb), f, LeafOf(off / BSIZE));
            a < |s.d| && Wrote(s, s.(d := s.d[a := Patch(s.d[a], off % BSIZE, src)]), sb, f, off, src)
  {
    hide Bit, Edited, Sound, Patch, NodeOf, HasBlock, GetWord;
    var v := Vol(s, sb);
    PatchEdited(v, f, off, src);
    var a := NodeOf(v, f, LeafOf(off / BSIZE));
    var s' := s.(d := s.d[a := Patch(s.d[a], off % BSIZE, src)]);
    UsedDependsOnBitmap(s.d, s'.d, sb.size, sb.ninodes);
    assert Vol(s', sb) == v.(d := s'.d);
  }

  // Inode write-back

  lemma UpdateOk(s: State, sb: Super, f: nat)
    requires Ok(s, sb) && f < |s.inodes|
    ensures IBlock(f) < |s.d|
    ensures var s' := s.(d := StoreInode(s.d, f, s.inodes[f]));
            Ok(s', sb) && Vol(s', sb) == Vol(s, sb).(d := s'.d) && SameData(s.d, s'.d, DataStart(sb.size, sb.ninodes))
            && forall g: nat :: g < |s.inodes| ==> (Synced(s', g) <==> g == f || Synced(s, g))
  {
    hide PutDinode, GetDinode, Bit, GetWord, Sound;
    Regions(sb.size, sb.ninodes, f, 0);
    var s' := s.(d := StoreInode(s.d, f, s.inodes[f]));
    UsedDependsOnBitmap(s.d, s'.d, sb.size, sb.ninodes);
    MetaKeeps(Vol(s, sb), s'.d);
    forall g: nat | g < |s.inodes| ensures Synced(s', g) <==> g == f || Synced(s, g) {
      Regions(sb.size, sb.ninodes, g, 0);
      StoreInodeReads(s.d, f, s.inodes[f], g);
    }
  }

  // ialloc

  /** The inode ialloc leaves on disk, and ilock then reads. */
  function Newborn(kind: Half): (r: Dinode) {
    BlankInode().(kind := kind)
  }

  /** ialloc clears the inode it takes: the invariant survives exactly if that inode had no addresses left. */
  lemma IallocOkIff(s: State, sb: Super, f: nat, kind: Half)
    requires Ok(s, sb) && f < |s.inodes|
    ensures IBlock(f) < |s.d|
    ensures var s' := State(StoreInode(s.d, f, Newborn(kind)), s.inodes[f := Newborn(kind)]);
            Ok(s', sb) <==> s.inodes[f].addrs == NoAddrs()
  {
    hide PutDinode, GetDinode, Bit, GetWord, Sound, NoAddrs;
    Regions(sb.size, sb.ninodes, f, 0);
    var s' := State(StoreInode(s.d, f, Newborn(kind)), s.inodes[f := Newborn(kind)]);
    UsedDependsOnBitmap(s.d, s'.d, sb.size, sb.ninodes);
    OkSound(s, sb);
    ForgetSoundIff(Vol(s, sb), f, s'.d);
    assert Maps(s'.inodes) == Maps(s.inodes)[f := NoAddrs()];
    assert Vol(s', sb) == Vol(s, sb).(d := s'.d, files := Vol(s, sb).files[f := NoAddrs()]);
  }

  // Steps of readi and writei

  lemma WroteFacts(s: State, s': State, sb: Super, f: nat, off: nat, src: seq<Byte>, g: nat, o: nat)
    requires Wrote(s, s', sb, f, off, src) && g < |s.inodes| && o < MAXBYTES
    ensures Ok(s', sb) && |s'.inodes| == |s.inodes| && s'.inodes[f].size == s.inodes[f].size
    ensures ByteAfter(Vol(s, sb), Vol(s', sb), f, off, src, g, o)
  {
    hide Ok, ByteAfter, SameHead;
  }

  lemma WroteKeepsBlock(s: State, s': State, sb: Super, f: nat, off: nat, src: seq<Byte>)
    requires Wrote(s, s', sb, f, off, src) && off < MAXBYTES && HasBlock(Vol(s, sb), f, off)
    ensures HasBlock(Vol(s', sb), f, off)
  {
    WroteFacts(s, s', sb, f, off, src, f, off);
  }

  /** The bytes of one block, as bmap finds it, are the file's bytes. */
  lemma ChunkBytes(s: State, s': State, sb: Super, f: nat, off: nat, m: nat, a: Word, part: seq<Byte>)
    requires f < |s.inodes| && off < MAXBYTES && off % BSIZE + m <= BSIZE && Wrote(s, s', sb, f, off, [])
    requires a == NodeOf(Vol(s', sb), f, LeafOf(off / BSIZE)) && 0 < a < |s'.d|
    requires part == s'.d[a].at[off % BSIZE..off % BSIZE + m]
    ensures forall k :: 0 <= k < m ==> off + k < MAXBYTES && part[k] == ByteAt(Vol(s, sb), f, off + k)
  {
    hide Ok, SameHead, Wrote, LeafOf, NodeOf;
    forall k | 0 <= k < m
      ensures off + k < MAXBYTES && part[k] == ByteAt(Vol(s, sb), f, off + k)
    {
      assert (off + k) / BSIZE == off / BSIZE && (off + k) % BSIZE == off % BSIZE + k;
      WroteFacts(s, s', sb, f, off, [], f, off + k);
    }
  }

  lemma ReadStart(s: State, sb: Super, f: nat, off: nat)
    requires Ok(s, sb) && f < |s.inodes|
    ensures s.inodes[f].size <= MAXBYTES && Wrote(s, s, sb, f, off, [])
  {
    hide Sound, Laid, ByteAt, HasBlock;
  }

  lemma CoversAt(s: State, sb: Super, f: nat, a: nat, b: nat, at: nat)
    requires Ok(s, sb) && f < |s.inodes| && b <= s.inodes[f].size
    ensures Covers(Vol(s, sb), f, a, b) && a <= at < b ==> at < MAXBYTES && HasBlock(Vol(s, sb), f, at)
  {
    hide Sound, Laid, HasBlock, Vol;
  }

  lemma ReadOn(s: State, s1: State, s2: State, sb: Super, f: nat, off: nat, at: nat, m: nat)
    requires Wrote(s, s1, sb, f, off, []) && Wrote(s1, s2, sb, f, at, []) && at + m <= MAXBYTES
    ensures Wrote(s, s2, sb, f, off, []) && Ok(s2, sb) && |s2.inodes| == |s.inodes| && s2.inodes[f].size == s.inodes[f].size
    ensures forall k :: at <= k < at + m ==> ByteAt(Vol(s1, sb), f, k) == ByteAt(Vol(s, sb), f, k)
  {
    hide Ok, ByteAt, HasBlock, SameHead, Vol;
    forall g, o | 0 <= g < |s.inodes| && 0 <= o < MAXBYTES ensures ByteAfter(Vol(s, sb), Vol(s2, sb), f, off, [], g, o) {
      assert ByteAfter(Vol(s, sb), Vol(s1, sb), f, off, [], g, o);
      assert ByteAfter(Vol(s1, sb), Vol(s2, sb), f, at, [], g, o);
    }
    SameHeadThen(s.d, s1.d, s2.d, sb.ninodes);
    forall k | at <= k < at + m ensures ByteAt(Vol(s1, sb), f, k) == ByteAt(Vol(s, sb), f, k) {
      assert ByteAfter(Vol(s, sb), Vol(s1, sb), f, off, [], f, k);
    }
  }

  /** Inside writei's loop: the bytes so far are written, in blocks that are there. */
  ghost predicate Writing(s: State, s': State, sb: Super, f: nat, off: nat, done: seq<Byte>) {
    && Wrote(s, s', sb, f, off, done)
    && Covers(Vol(s', sb), f, off, off + |done|)
    && (HasRoots(Vol(s, sb), f, off, off + |done|) ==> s'.inodes == s.inodes)
  }

  /** What a completed writei has done. */
  ghost predicate Written(s: State, s': State, sb: Super, f: nat, off: nat, src: seq<Byte>) {
    && Ok(s', sb) && f < |s.inodes| == |s'.inodes|
    && s'.inodes == s.inodes[f := s.inodes[f].(addrs := s'.inodes[f].addrs, size := s'.inodes[f].size)]
    && s'.inodes[f].size == (if off + |src| > s.inodes[f].size then off + |src| else s.inodes[f].size)
    && Edited(Vol(s, sb), Vol(s', sb), f, off, src)
    && (Covers(Vol(s, sb), f, 0, s.inodes[f].size) ==> Covers(Vol(s', sb), f, 0, s'.inodes[f].size))
    && (off + |src| > s.inodes[f].size ==> Synced(s', f))
    && (off + |src| <= s.inodes[f].size && Synced(s, f) ==> (Synced(s', f) <==> HasRoots(Vol(s, sb), f, off, off + |src|)))
    && (off + |src| <= s.inodes[f].size && HasRoots(Vol(s, sb), f, off, off + |src|) ==> (Synced(s', f) <==> Synced(s, f)))
    && (forall g: nat :: g < |s.inodes| && g != f && Synced(s, g) ==> Synced(s', g))
  }

  lemma WriteStart(s: State, sb: Super, f: nat, off: nat)
    requires Ok(s, sb) && f < |s.inodes|
    ensures s.inodes[f].size <= MAXBYTES && Writing(s, s, sb, f, off, [])
  {
    ReadStart(s, sb, f, off);
    hide Ok, Wrote, HasBlock;
  }

  lemma WritingFacts(s: State, s': State, sb: Super, f: nat, off: nat, done: seq<Byte>)
    requires Writing(s, s', sb, f, off, done)
    ensures Ok(s', sb) && f < |s.inodes| == |s'.inodes| && s'.inodes[f].size == s.inodes[f].size
  {
    hide Ok, Covers, SameHead, ByteAfter;
  }

  lemma WriteOn(s: State, s1: State, s2: State, sb: Super, f: nat, off: nat, done: seq<Byte>, part: seq<Byte>)
    requires Writing(s, s1, sb, f, off, done)
    requires var at := off + |done|;
             at < MAXBYTES && at % BSIZE + |part| <= BSIZE && Wrote(s1, s2, sb, f, at, part) && HasBlock(Vol(s2, sb), f, at)
             && (HasRoot(Vol(s1, sb), f, at) ==> s2.inodes == s1.inodes)
    requires s.inodes[f].size <= MAXBYTES && |part| > 0
    ensures Writing(s, s2, sb, f, off, done + part)
  {
    hide Ok, SameHead, ByteAt, Vol, NodeOf, LeafOf;
    var v, v1, v2, at := Vol(s, sb), Vol(s1, sb), Vol(s2, sb), off + |done|;
    WroteThen(s, s1, s2, sb, f, off, done, part);
    forall o | off <= o < at + |part| && o < MAXBYTES ensures HasBlock(v2, f, o) {
      WroteFacts(s1, s2, sb, f, at, part, f, o);
      if o >= at {
        assert o / BSIZE == at / BSIZE;
      }
    }
    if HasRoots(v, f, off, at + |part|) {
      assert HasRoots(v, f, off, at);
      SameRoot(s, s1, sb, f, at);
      assert HasRoot(v, f, at);
    }
  }

  lemma SameRoot(s: State, s': State, sb: Super, f: nat, o: nat)
    requires f < |s.inodes| && s'.inodes == s.inodes && o < MAXBYTES
    ensures HasRoot(Vol(s', sb), f, o) <==> HasRoot(Vol(s, sb), f, o)
  {
  }

  /** bmap leaves the in-memory inode alone if addrs[] already leads towards the block. */
  lemma SteppedRoots(s: State, s': State, sb: Super, f: nat, off: nat, addr: Word)
    requires off < MAXBYTES && Stepped(s, s', sb, f, PathTo(LeafOf(off / BSIZE)), LeafOf(off / BSIZE), addr)
    ensures HasRoot(Vol(s, sb), f, off) ==> s'.inodes == s.inodes
  {
    hide Ok, Extends, NodeOf, PathTo, LeafOf;
    PathKeepsRoots(Vol(s, sb), Vol(s', sb), f, off);
    assert s'.inodes[f].addrs == Vol(s', sb).files[f] && s.inodes[f].addrs == Vol(s, sb).files[f];
  }

  lemma ResizeOk(s: State, sb: Super, f: nat, n: Word)
    requires Ok(s, sb) && f < |s.inodes| && n <= MAXBYTES
    ensures var s' := s.(inodes := s.inodes[f := s.inodes[f].(size := n)]); Ok(s', sb) && Vol(s', sb) == Vol(s, sb)
  {
    hide Sound, Laid;
    var s' := s.(inodes := s.inodes[f := s.inodes[f].(size := n)]);
    assert Maps(s'.inodes) == Maps(s.inodes);
  }

  lemma HeadKeepsSync(s: State, s': State, sb: Super, g: nat)
    requires Ok(s, sb) && SameHead(s.d, s'.d, sb.ninodes) && g < |s.inodes| == |s'.inodes| && s'.inodes[g] == s.inodes[g]
    ensures Synced(s, g) <==> Synced(s', g)
  {
    hide Sound, GetDinode, GetWord, Bit;
    Regions(sb.size, sb.ninodes, g, 0);
  }

  /** The write grew the file: iupdate has put the new addresses and size on disk. */
  lemma GrownWritten(s: State, s1: State, s2: State, s3: State, sb: Super, f: nat, off: nat, src: seq<Byte>)
    requires Ok(s, sb) && Writing(s, s1, sb, f, off, src) && off <= s.inodes[f].size < off + |src| <= MAXBYTES
    requires s2 == s1.(inodes := s1.inodes[f := s1.inodes[f].(size := off + |src|)]) && Ok(s2, sb) && Vol(s2, sb) == Vol(s1, sb)
    requires s3.inodes == s2.inodes && Ok(s3, sb) && Vol(s3, sb) == Vol(s2, sb).(d := s3.d)
    requires SameData(s2.d, s3.d, DataStart(sb.size, sb.ninodes))
    requires forall g: nat :: g < |s2.inodes| ==> (Synced(s3, g) <==> g == f || Synced(s2, g))
    ensures Written(s, s3, sb, f, off, src)
  {
    hide Ok, ByteAt, SameData, SameHead, Synced;
    var v, v1, v3 := Vol(s, sb), Vol(s1, sb), Vol(s3, sb);
    OkSound(s1, sb);
    MetaKeeps(v1, s3.d);
    forall g, o | 0 <= g < |s.inodes| && 0 <= o < MAXBYTES ensures ByteAfter(v, v3, f, off, src, g, o) {
      WroteFacts(s, s1, sb, f, off, src, g, o);
      ExtendsKeepsBytes(v1, v3, f, {}, g, o);
    }
    forall o | 0 <= o < off + |src| && o < MAXBYTES && Covers(v, f, 0, s.inodes[f].size) ensures HasBlock(v3, f, o) {
      WroteFacts(s, s1, sb, f, off, src, f, o);
      assert o < off ==> HasBlock(v, f, o);
      assert HasBlock(v1, f, o);
    }
    forall g: nat | g < |s.inodes| && g != f && Synced(s, g) ensures Synced(s3, g) {
      HeadKeepsSync(s, s2, sb, g);
    }
  }

  lemma OkSound(s: State, sb: Super)
    requires Ok(s, sb)
    ensures Sound(Vol(s, sb)) && Vol(s, sb).lo == DataStart(sb.size, sb.ninodes)
  {
  }

  /** A write that filled in an address of the inode has left the disk's copy behind. */
  lemma MissingRootUnsyncs(s: State, s': State, sb: Super, f: nat, off: nat, src: seq<Byte>)
    requires Ok(s, sb) && Writing(s, s', sb, f, off, src) && Synced(s, f) && !HasRoots(Vol(s, sb), f, off, off + |src|)
    ensures !Synced(s', f)
  {
    hide Sound, GetDinode, GetWord, Bit, ByteAt, NodeOf, LeafOf;
    Regions(sb.size, sb.ninodes, f, 0);
    var o :| off <= o < off + |src| && o < MAXBYTES && !HasRoot(Vol(s, sb), f, o);
    assert HasBlock(Vol(s', sb), f, o);
    BlockNeedsRoot(Vol(s', sb), f, o);
    RootNode(s, sb, f, RootOf(LeafOf(o / BSIZE)));
    RootNode(s', sb, f, RootOf(LeafOf(o / BSIZE)));
    assert s'.inodes[f] != s.inodes[f];
    assert DiskInode(s'.d, f) == DiskInode(s.d, f);
  }

  /** In particular a file whose blocks are all there stays as it is on disk. */
  lemma MappedStaysSynced(s: State, s': State, sb: Super, f: nat, off: nat, src: seq<Byte>)
    requires Written(s, s', sb, f, off, src) && Covers(Vol(s, sb), f, 0, s.inodes[f].size) && Synced(s, f)
    ensures Synced(s', f)
  {
    hide Ok, ByteAt, NodeOf, Synced, Edited;
    if off + |src| <= s.inodes[f].size {
      forall o | off <= o < off + |src| && o < MAXBYTES ensures HasRoot(Vol(s, sb), f, o) {
        assert HasBlock(Vol(s, sb), f, o);
        BlockNeedsRoot(Vol(s, sb), f, o);
      }
    }
  }

  /** The write stayed inside the file: the inode on disk is current exactly if no address was filled in. */
  lemma InPlaceWritten(s: State, s': State, sb: Super, f: nat, off: nat, src: seq<Byte>)
    requires Ok(s, sb) && Writing(s, s', sb, f, off, src) && off + |src| <= s.inodes[f].size
    ensures Written(s, s', sb, f, off, src)
  {
    hide Ok, ByteAt, SameHead, Synced, Vol, HasBlock, HasRoots;
    if Synced(s, f) && !HasRoots(Vol(s, sb), f, off, off + |src|) {
      MissingRootUnsyncs(s, s', sb, f, off, src);
    }
    forall o | 0 <= o < s.inodes[f].size && o < MAXBYTES && Covers(Vol(s, sb), f, 0, s.inodes[f].size)
      ensures HasBlock(Vol(s', sb), f, o)
    {
      WroteFacts(s, s', sb, f, off, src, f, o);
    }
    forall g: nat | g < |s.inodes| && s'.inodes[g] == s.inodes[g] ensures Synced(s, g) <==> Synced(s', g) {
      HeadKeepsSync(s, s', sb, g);
    }
  }

  // itrunc

  /** An inode with its first c addresses cleared. */
  function Cleared(di: Dinode, c: nat): (r: Dinode)
    requires c <= NDIRECT + 2
    ensures c == 0 ==> r == di
  {
    assert [] + di.addrs.at[0..] == di.addrs.at;
    di.(addrs := Addrs(seq(c, _ => 0) + di.addrs.at[c..]))
  }

  lemma ClearNext(di: Dinode, c: nat)
    requires c < NDIRECT + 2
    ensures Cleared(di, c).addrs.at[c] == di.addrs.at[c]
    ensures Cleared(di, c + 1) == Cleared(di, c).(addrs := Addrs(Cleared(di, c).addrs.at[c := 0]))
    ensures di.addrs.at[c] == 0 ==> Cleared(di, c + 1) == Cleared(di, c)
  {
    assert di.addrs.at[c] == 0 ==> Cleared(di, c).addrs.at[c := 0] == Cleared(di, c).addrs.at;
    assert Cleared(di, c + 1).addrs.at == Cleared(di, c).addrs.at[c := 0];
  }

  lemma RootNode(s: State, sb: Super, f: nat, p: Pos)
    requires f < |s.inodes| && OkPos(p) && IsRoot(p)
    ensures NodeOf(Vol(s, sb), f, p) == s.inodes[f].addrs.at[Slot(p)]
  {
  }

  /** After k of itrunc's frees: exactly those bits are clear, and nothing outside the bitmap has changed. */
  ghost predicate Freeing(s: State, d': Disk, sb: Super, f: nat, k: nat) {
    && Ok(s, sb) && f < |s.inodes| && k <= NTRUNC && |d'| == |s.d|
    && (forall x :: 0 <= x < |s.d| && !(BitStart(sb.ninodes) <= x < DataStart(sb.size, sb.ninodes)) ==> d'[x] == s.d[x])
    && Used(d', sb.size, sb.ninodes) == Used(s.d, sb.size, sb.ninodes) - Freed(Vol(s, sb), f, k)
  }

  /** The next block itrunc meets is still marked: bfree does not panic. */
  lemma FreeingNext(s: State, d': Disk, sb: Super, f: nat, k: nat)
    requires Freeing(s, d', sb, f, k) && k < NTRUNC
    ensures Laid(d', sb)
    ensures var a := NodeOf(Vol(s, sb), f, TruncPos(k));
            if a == 0 then Freeing(s, d', sb, f, k + 1)
            else a < sb.size && Bit(d', sb.ninodes, a) && BBlock(a, sb.ninodes) < |d'|
                 && Freeing(s, PutBitAt(d', sb.ninodes, a, false), sb, f, k + 1)
  {
    hide Bit, NodeOf, PutBitAt, Freed, GetWord;
    var v := Vol(s, sb);
    var a := NodeOf(v, f, TruncPos(k));
    OkSound(s, sb);
    FreedNext(v, f, k);
    if a != 0 {
      assert a in Used(d', sb.size, sb.ninodes);
      Regions(sb.size, sb.ninodes, f, a);
      var d2 := PutBitAt(d', sb.ninodes, a, false);
      assert Used(d2, sb.size, sb.ninodes) == Used(d', sb.size, sb.ninodes) - {a as nat};
    }
  }

  /** With no indirect block there are no indirect leaves to free. */
  lemma NoIndirect(s: State, d': Disk, sb: Super, f: nat)
    requires Freeing(s, d', sb, f, NDIRECT) && NodeOf(Vol(s, sb), f, IndRoot) == 0
    ensures Freeing(s, d', sb, f, NTRUNC)
  {
    var v := Vol(s, sb);
    hide Bit, Ok, Vol;
    forall b: nat ensures FreedAt(v, f, NTRUNC, b) <==> FreedAt(v, f, NDIRECT, b) {
      if FreedAt(v, f, NTRUNC, b) {
        var k: nat :| k < NTRUNC && NodeOf(v, f, TruncPos(k)) == b;
        assert k < NDIRECT;
      }
      if FreedAt(v, f, NDIRECT, b) {
        var k: nat :| k < NDIRECT && NodeOf(v, f, TruncPos(k)) == b;
        assert k < NTRUNC;
      }
    }
    assert Freed(v, f, NTRUNC) == Freed(v, f, NDIRECT);
  }

  /** The state itrunc leaves: an empty file, its blocks free, all other files as they were. */
  lemma TruncOk(s: State, d': Disk, sb: Super, f: nat)
    requires Freeing(s, d', sb, f, NTRUNC)
    ensures var s' := State(d', s.inodes[f := Cleared(s.inodes[f], NDIRECT + 1).(size := 0)]);
            Ok(s', sb) && SameData(s.d, d', DataStart(sb.size, sb.ninodes)) && Vol(s', sb) == Trunc(Vol(s, sb), f, d')
  {
    hide Bit, NodeOf, GetWord, Freed;
    var v := Vol(s, sb);
    var s' := State(d', s.inodes[f := Cleared(s.inodes[f], NDIRECT + 1).(size := 0)]);
    OkSound(s, sb);
    TruncSound(v, f, d');
    assert Vol(s', sb).files == Trunc(v, f, d').files;
    forall b: nat | b < v.lo ensures b in Used(d', sb.size, sb.ninodes) {
      FreedAbove(v, f, b);
    }
  }

  lemma FreedAbove(v: Volume, f: nat, b: nat)
    requires Sound(v) && f < |v.files| && b < v.lo
    ensures b !in Freed(v, f, NTRUNC)
  {
    forall k: nat | k < NTRUNC ensures NodeOf(v, f, TruncPos(k)) == b ==> b == 0 {
      assert InUse(v, f, TruncPos(k));
    }
  }

  /** What a completed itrunc has done. */
  ghost predicate Emptied(s: State, s': State, sb: Super, f: nat) {
    && Ok(s', sb) && f < |s.inodes|
    && s'.inodes == s.inodes[f := Cleared(s.inodes[f], NDIRECT + 1).(size := 0)]
    && SameData(s.d, s'.d, DataStart(sb.size, sb.ninodes)) && Vol(s', sb) == Trunc(Vol(s, sb), f, s'.d)
    && Synced(s', f) && forall g: nat :: g < |s.inodes| && Synced(s, g) ==> Synced(s', g)
  }

  lemma EmptiedInode(s: State, s': State, sb: Super, f: nat)
    requires Emptied(s, s', sb, f)
    ensures Ok(s', sb) && |s'.inodes| == |s.inodes| && IBlock(f) < |s'.d| && DiskInode(s'.d, f) == s'.inodes[f]
    ensures s'.inodes[f].size == 0 && s'.inodes[f].kind == s.inodes[f].kind
    ensures forall g :: 0 <= g < |s.inodes| && g != f ==> s'.inodes[g] == s.inodes[g]
  {
    hide Ok, DiskInode, Vol;
  }

  lemma NothingToCover(v: Volume, f: nat)
    requires f < |v.files|
    ensures Covers(v, f, 0, 0)
  {
  }

  lemma UpdateEmptied(s: State, s1: State, s2: State, sb: Super, f: nat)
    requires Freeing(s, s1.d, sb, f, NTRUNC) && s1.inodes == s.inodes[f := Cleared(s.inodes[f], NDIRECT + 1).(size := 0)]
    requires Ok(s1, sb) && Vol(s1, sb) == Trunc(Vol(s, sb), f, s1.d) && SameData(s.d, s1.d, DataStart(sb.size, sb.ninodes))
    requires s2.inodes == s1.inodes && Ok(s2, sb) && Vol(s2, sb) == Vol(s1, sb).(d := s2.d)
    requires SameData(s1.d, s2.d, DataStart(sb.size, sb.ninodes))
    requires forall g: nat :: g < |s1.inodes| ==> (Synced(s2, g) <==> g == f || Synced(s1, g))
    ensures Emptied(s, s2, sb, f)
  {
    hide Ok, Synced, Vol;
    forall g: nat | g < |s.inodes| && g != f && Synced(s, g) ensures Synced(s1, g) {
      HeadKeepsSync(s, s1, sb, g);
    }
  }

  /** What itrunc leaves for ialloc to forget: an address remains exactly if the file had a double-indirect block. */
  lemma EmptiedAddrs(s: State, s': State, sb: Super, f: nat)
    requires Emptied(s, s', sb, f)
    ensures s'.inodes[f].addrs == NoAddrs() <==> NodeOf(Vol(s, sb), f, DblRoot) == 0
  {
    hide Ok, Vol, Synced, SameData;
    RootNode(s, sb, f, DblRoot);
    var at := s'.inodes[f].addrs.at;
    assert at == seq(NDIRECT + 1, _ => 0) + s.inodes[f].addrs.at[NDIRECT + 1..];
    assert at[NDIRECT + 1] == s.inodes[f].addrs.at[NDIRECT + 1];
    if at[NDIRECT + 1] == 0 {
      assert at == NoAddrs().at;
    }
  }

  /** itrunc changes no byte of any other file, and leaves only double-indirect bytes in its own. */
  lemma EmptiedBytes(s: State, s': State, sb: Super, f: nat, g: nat, o: nat)
    requires Ok(s, sb) && Emptied(s, s', sb, f) && g < |s.inodes| && o < MAXBYTES
    ensures ByteAt(Vol(s', sb), g, o)
              == if g == f && o < (NDIRECT + NINDIRECT) * BSIZE then 0 else ByteAt(Vol(s, sb), g, o)
  {
    OkSound(s, sb);
    var v := Vol(s, sb);
    TruncSound(v, f, s'.d);
    assert InUse(v, g, LeafOf(o / BSIZE));
    hide NodeOf, Ok, Vol, Sound;
  }
}
