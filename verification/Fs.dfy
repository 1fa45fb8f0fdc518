/** src/fs.c: balloc, bfree, bmap, itrunc, iupdate, readi, writei. */
module Fs {
  import opened Blocks
  import opened FileTree
  import opened FsLayout
  import opened FsState
  import opened FileBytes
  import opened FsContent

  datatype Io = Count(n: nat) | Refused | Device | Panic

  lemma BitInBlock(d: Disk, ninodes: nat, base: nat, bi: nat)
    requires base % BPB == 0 && bi < BPB && BBlock(base, ninodes) < |d|
    ensures BBlock(base + bi, ninodes) == BBlock(base, ninodes) && (base + bi) % BPB == bi
    ensures Bit(d, ninodes, base + bi) == GetBit(d[BBlock(base, ninodes)], bi)
  {
    hide GetBit;
  }

  lemma ClaimInBlock(d: Disk, ninodes: nat, base: nat, bi: nat)
    requires base % BPB == 0 && bi < BPB && BBlock(base, ninodes) < |d| && base + bi < |d|
    ensures BBlock(base + bi, ninodes) == BBlock(base, ninodes)
    ensures Claim(d, ninodes, base + bi)
              == d[BBlock(base, ninodes) := PutBit(d[BBlock(base, ninodes)], bi, true)][base + bi := ZeroBlock()]
  {
    hide GetBit, PutBit;
  }

  lemma AllocFacts(s: State, sb: Super)
    requires Ok(s, sb)
    ensures Laid(s.d, sb) && sb.size <= |s.d| && sb.size < 0x8000_0000
    ensures forall b: nat :: b < DataStart(sb.size, sb.ninodes) ==> Bit(s.d, sb.ninodes, b)
    ensures forall b: nat :: b < sb.size ==> BBlock(b, sb.ninodes) < |s.d|
  {
    hide Bit, Sound;
  }

  /** Nothing hangs below an absent node. */
  lemma AbsentBelow(v: Volume, f: nat, p: Pos)
    requires f < |v.files| && OkPos(p) && !IsRoot(p)
    ensures NodeOf(v, f, Parent(p)) == 0 ==> NodeOf(v, f, p) == 0
  {
  }

  lemma RootGrown(s: State, sb: Super, f: nat, p: Pos, b: Word)
    requires Ok(s, sb) && CanPlant(Vol(s, sb), f, p, b) && b < sb.size && IsRoot(p)
    ensures BBlock(b, sb.ninodes) < |s.d|
    ensures Grown(s, sb, f, p, b)
              == State(Claim(s.d, sb.ninodes, b),
                       s.inodes[f := s.inodes[f].(addrs := Addrs(s.inodes[f].addrs.at[Slot(p) := b]))])
  {
    Regions(sb.size, sb.ninodes, f, b);
    hide PutBitAt, Ok, Sound, Bit;
  }

  lemma ChildGrown(s: State, sb: Super, f: nat, p: Pos, b: Word)
    requires Ok(s, sb) && CanPlant(Vol(s, sb), f, p, b) && b < sb.size && !IsRoot(p)
    ensures BBlock(b, sb.ninodes) < |s.d|
    ensures NodeOf(Vol(s, sb), f, Parent(p)) < |s.d|
    ensures Grown(s, sb, f, p, b)
              == State(StoreEntry(Claim(s.d, sb.ninodes, b), NodeOf(Vol(s, sb), f, Parent(p)), Slot(p), b), s.inodes)
  {
    var v := Vol(s, sb);
    GrownVolume(s, sb, f, p, b);
    MetaKeeps(v, PutBitAt(s.d, sb.ninodes, b, true));
    assert InUse(v, f, Parent(p));
    assert Node(PutBitAt(s.d, sb.ninodes, b, true), s.inodes[f].addrs, Parent(p)) == NodeOf(v, f, Parent(p));
    hide PutBitAt, Ok, Sound, Bit, Node, NodeOf, StoreEntry;
  }

  /** The inner loop of balloc: the first free block among the n whose bits share base's block. */
  method FirstClear(d: Disk, ninodes: nat, base: nat, n: nat) returns (bi: nat)
    requires base % BPB == 0 && n <= BPB && BBlock(base, ninodes) < |d|
    ensures bi <= n
    ensures forall c: nat :: base <= c < base + bi ==> Bit(d, ninodes, c)
    ensures bi < n ==> !Bit(d, ninodes, base + bi)
  {
    hide Bit, GetBit;
    var data := d[BBlock(base, ninodes)];
    bi := 0;
    while bi < n
      invariant 0 <= bi <= n
      invariant forall c: nat :: base <= c < base + bi ==> Bit(d, ninodes, c)
    {
      BitInBlock(d, ninodes, base, bi);
      if !GetBit(data, bi) {
        return;
      }
      bi := bi + 1;
    }
  }

  class FileSystem {
    var disk: Disk
    var inodes: seq<Dinode>
    ghost const sb: Super

    /** The in-memory inodes as ilock fills them in from the disk. */
    constructor Mount(d: Disk, ghost sb0: Super)
      requires Laid(d, sb0)
      ensures disk == d && sb == sb0 && |inodes| == sb.ninodes
      ensures forall i :: 0 <= i < |inodes| ==> IBlock(i) < |d| && inodes[i] == DiskInode(d, i)
    {
      hide DiskInode, GetWord;
      var ninodes := GetWord(d[1], 2);
      disk, inodes, sb := d, [], sb0;
      new;
      var i := 0;
      while i < ninodes
        invariant 0 <= i <= ninodes && i == |inodes| && disk == d
        invariant forall k :: 0 <= k < i ==> IBlock(k) < |d| && inodes[k] == DiskInode(d, k)
      {
        Regions(sb.size, sb.ninodes, i, 0);
        inodes := inodes + [DiskInode(disk, i)];
        i := i + 1;
      }
    }

    ghost function St(): (s: State)
      reads this
    {
      State(disk, inodes)
    }

    ghost function V(): (v: Volume)
      reads this
      ensures |v.files| == |inodes| && v.d == disk
    {
      Vol(St(), sb)
    }

    method ReadSb() returns (size: Word, ninodes: Word)
      requires Laid(disk, sb)
      ensures size == sb.size && ninodes == sb.ninodes
    {
      size, ninodes := GetWord(disk[1], 0), GetWord(disk[1], 2);
    }

    /** balloc: the lowest free block, marked and zeroed; it panics when every bit is set. */
    method Balloc() returns (ok: bool, b: Word)
      requires Ok(St(), sb)
      modifies `disk
      ensures !ok <==> AllUsed(old(disk), sb)
      ensures !ok ==> disk == old(disk)
      ensures ok ==> DataStart(sb.size, sb.ninodes) <= b < sb.size && !Bit(old(disk), sb.ninodes, b)
      ensures ok ==> forall c: nat :: c < b ==> Bit(old(disk), sb.ninodes, c)
      ensures ok ==> BBlock(b, sb.ninodes) < old(|disk|) && disk == Claim(old(disk), sb.ninodes, b)
    {
      hide Ok, Laid, Bit, PutBit, GetBit, PutBitAt, BBlock, Claim, Vol;
      AllocFacts(St(), sb);
      var size, ninodes := ReadSb();
      var base := 0;
      while base < size
        invariant base % BPB == 0 && disk == old(disk)
        invariant forall c: nat :: c < base && c < size ==> Bit(disk, ninodes, c)
      {
        var n := if base + BPB < size then BPB else size - base;
        var bi := FirstClear(disk, ninodes, base, n);
        if bi < n {
          ClaimInBlock(disk, ninodes, base, bi);
          var data := disk[BBlock(base, ninodes)];
          disk := disk[BBlock(base, ninodes) := PutBit(data, bi, true)];
          disk := disk[base + bi := ZeroBlock()];
          return true, base + bi;
        }
        base := base + BPB;
      }
      return false, 0;
    }

    /** bfree: clears the bit of a used block; freeing a free block panics. */
    method Bfree(b: nat) returns (ok: bool)
      requires Laid(disk, sb) && b < sb.size
      modifies `disk
      ensures ok <==> Bit(old(disk), sb.ninodes, b)
      ensures BBlock(b, sb.ninodes) < old(|disk|)
      ensures disk == if ok then PutBitAt(old(disk), sb.ninodes, b, false) else old(disk)
    {
      var _, ninodes := ReadSb();
      var s, bi := BBlock(b, ninodes), b % BPB;
      var data := disk[s];
      if !GetBit(data, bi) {
        return false;
      }
      disk := disk[s := PutBit(data, bi, false)];
      return true;
    }

    /** The address in slot i of inode f, filled in by balloc if it is 0. */
    method RootEntry(f: nat, i: nat, ghost p: Pos) returns (ok: bool, addr: Word)
      requires Ok(St(), sb) && f < |inodes| && OkPos(p) && IsRoot(p) && Slot(p) == i
      modifies this
      ensures ok ==> Stepped(old(St()), St(), sb, f, {p}, p, addr)
      ensures !ok ==> AllUsed(disk, sb) && old(NodeOf(V(), f, p)) == 0
    {
      hide Ok, Stepped, Sound, AllUsed, Bit, PutBitAt;
      ok, addr := true, inodes[f].addrs.at[i];
      if addr != 0 {
        StayStepped(St(), sb, f, {p}, p);
        return;
      }
      ok, addr := Balloc();
      if ok {
        FreshCanPlant(old(St()), sb, f, p, addr);
        inodes := inodes[f := inodes[f].(addrs := Addrs(inodes[f].addrs.at[i := addr]))];
        RootGrown(old(St()), sb, f, p, addr);
        GrowStepped(old(St()), sb, f, p, addr);
      }
    }

    /** Entry j of indirect block a, filled in by balloc if it is 0. */
    method ChildEntry(f: nat, a: Word, j: nat, ghost p: Pos) returns (ok: bool, addr: Word)
      requires Ok(St(), sb) && f < |inodes| && OkPos(p) && !IsRoot(p) && Slot(p) == j
      requires a == NodeOf(V(), f, Parent(p)) && 0 < a < |disk|
      modifies this
      ensures ok ==> Stepped(old(St()), St(), sb, f, {p}, p, addr)
      ensures !ok ==> AllUsed(disk, sb) && old(NodeOf(V(), f, p)) == 0
    {
      hide Ok, Stepped, Sound, AllUsed, Bit, PutBitAt, GetWord, SetWord;
      ok, addr := true, GetWord(disk[a], j);
      if addr != 0 {
        StayStepped(St(), sb, f, {p}, p);
        return;
      }
      ok, addr := Balloc();
      if ok {
        FreshCanPlant(old(St()), sb, f, p, addr);
        disk := disk[a := SetWord(disk[a], j, addr)];
        ChildGrown(old(St()), sb, f, p, addr);
        GrowStepped(old(St()), sb, f, p, addr);
      }
    }

    /** bmap: the address of block bn, after filling in the absent blocks on the way to it. */
    method Bmap(f: nat, bn: nat) returns (ok: bool, addr: Word)
      requires Ok(St(), sb) && f < |inodes|
      modifies this
      ensures ok ==> bn < MAXFILE && Stepped(old(St()), St(), sb, f, PathTo(LeafOf(bn)), LeafOf(bn), addr)
      ensures !ok ==> bn >= MAXFILE || (AllUsed(disk, sb) && old(NodeOf(V(), f, LeafOf(bn))) == 0)
    {
      hide Ok, Stepped, Extends, AllUsed;
      if bn < NDIRECT {
        ok, addr := RootEntry(f, bn, Direct(bn));
        return;
      }
      var n := bn - NDIRECT;
      if n < NINDIRECT {
        ok, addr := RootEntry(f, NDIRECT, IndRoot);
        if !ok { return; }
        ghost var s1, a := St(), addr;
        SteppedFacts(old(St()), s1, sb, f, {IndRoot}, IndRoot, addr);
        ok, addr := ChildEntry(f, addr, n, IndLeaf(n));
        if !ok { return; }
        SteppedThen(old(St()), s1, St(), sb, f, {IndRoot}, IndRoot, a, {IndLeaf(n)}, IndLeaf(n), addr);
        return;
      }
      n := n - NINDIRECT;
      if n < NINDIRECT * NINDIRECT {
        assert LeafOf(bn) == DblLeaf(n / NINDIRECT, n % NINDIRECT);
        ok, addr := Double(f, n);
        return;
      }
      return false, 0;
    }

    /** The double-indirect arm of bmap. */
    method Double(f: nat, n: nat) returns (ok: bool, addr: Word)
      requires Ok(St(), sb) && f < |inodes| && n < NINDIRECT * NINDIRECT
      modifies this
      ensures ok ==> var p := DblLeaf(n / NINDIRECT, n % NINDIRECT); Stepped(old(St()), St(), sb, f, PathTo(p), p, addr)
      ensures !ok ==> AllUsed(disk, sb) && old(NodeOf(V(), f, DblLeaf(n / NINDIRECT, n % NINDIRECT))) == 0
    {
      hide Ok, Stepped, AllUsed, Node, NodeOf, Vol;
      ghost var mid, leaf := DblMid(n / NINDIRECT), DblLeaf(n / NINDIRECT, n % NINDIRECT);
      AbsentBelow(V(), f, mid);
      AbsentBelow(V(), f, leaf);
      ok, addr := RootEntry(f, NDIRECT + 1, DblRoot);
      if !ok { return; }
      ghost var s1, a := St(), addr;
      SteppedFacts(old(St()), s1, sb, f, {DblRoot}, DblRoot, addr);
      ok, addr := ChildEntry(f, addr, n / NINDIRECT, mid);
      if !ok { return; }
      ghost var s2, b := St(), addr;
      SteppedThen(old(St()), s1, s2, sb, f, {DblRoot}, DblRoot, a, {mid}, mid, addr);
      SteppedFacts(old(St()), s2, sb, f, {DblRoot} + {mid}, mid, addr);
      ok, addr := ChildEntry(f, addr, n % NINDIRECT, leaf);
      if !ok { return; }
      SteppedThen(old(St()), s2, St(), sb, f, {DblRoot} + {mid}, mid, b, {leaf}, leaf, addr);
    }

    /** iupdate: the in-memory inode becomes its on-disk copy. */
    method Iupdate(f: nat)
      requires Ok(St(), sb) && f < |inodes|
      modifies `disk
      ensures Ok(St(), sb) && V() == old(V()).(d := disk)
      ensures SameData(old(disk), disk, DataStart(sb.size, sb.ninodes))
      ensures forall g: nat :: g < |inodes| ==> (Synced(St(), g) <==> g == f || old(Synced(St(), g)))
    {
      hide Ok, Vol, StoreInode, SameData, Synced;
      UpdateOk(St(), sb, f);
      disk := StoreInode(disk, f, inodes[f]);
    }

    /**
     ialloc: the first inode free on disk becomes an empty file of that kind, and every other inode reads as
     before.  An address itrunc left in it is forgotten: blocks then stay marked that no file has.
     */
    method Ialloc(kind: Half) returns (ok: bool, f: nat)
      requires Laid(disk, sb) && |inodes| == sb.ninodes
      modifies this
      ensures Laid(disk, sb) && |inodes| == sb.ninodes
      ensures ok <==> exists i: nat :: 0 < i < sb.ninodes && FreeOnDisk(old(disk), i)
      ensures !ok ==> St() == old(St())
      ensures ok ==> 0 < f < sb.ninodes && FreeOnDisk(old(disk), f) && forall i: nat :: 0 < i < f ==> !FreeOnDisk(old(disk), i)
      ensures ok ==> forall i: nat :: i < sb.ninodes ==> InodeAfter(old(disk), disk, f, kind, i)
      ensures ok ==> inodes == old(inodes)[f := Dinode(kind, 0, 0, 0, 0, NoAddrs())]
      ensures ok ==> |disk| == |old(disk)| && forall x: nat :: x < |disk| && x != IBlock(f) ==> disk[x] == old(disk)[x]
      ensures ok && old(Ok(St(), sb)) ==> (Ok(St(), sb) <==> old(inodes[f].addrs) == NoAddrs())
    {
      hide Ok, Laid, DiskInode, StoreInode, NoAddrs, InodeAfter;
      var _, ninodes := ReadSb();
      f := 1;
      while f < ninodes
        invariant 1 <= f && St() == old(St()) && forall i: nat :: 0 < i < f ==> !FreeOnDisk(disk, i)
      {
        InodeOnDisk(disk, sb, f);
        if DiskInode(disk, f).kind == 0 {
          assert FreeOnDisk(disk, f);
          if Ok(St(), sb) {
            IallocOkIff(St(), sb, f, kind);
          }
          NewbornReads(disk, sb, f, kind);
          disk := StoreInode(disk, f, Newborn(kind));
          inodes := inodes[f := Newborn(kind)];
          return true, f;
        }
        f := f + 1;
      }
      return false, f;
    }

    /** Two files made one after the other never share an inode, whatever the disk held. */
    method IallocTwice(kind1: Half, kind2: Half) returns (ok: bool, f1: nat, f2: nat)
      requires Laid(disk, sb) && |inodes| == sb.ninodes && kind1 != 0
      modifies this
      ensures ok ==> f1 < f2 < sb.ninodes && FreeOnDisk(old(disk), f1) && FreeOnDisk(old(disk), f2)
      ensures ok ==> IBlock(f1) < |disk| && IBlock(f2) < |disk| && DiskInode(disk, f1).kind == kind1 && DiskInode(disk, f2).kind == kind2
    {
      hide Ok, Laid, DiskInode, NoAddrs;
      f2 := 0;
      ok, f1 := Ialloc(kind1);
      if !ok {
        return;
      }
      ghost var d := disk;
      assert InodeAfter(old(disk), d, f1, kind1, f1);
      ok, f2 := Ialloc(kind2);
      if ok {
        assert InodeAfter(old(disk), d, f1, kind1, f2);
        assert FreeOnDisk(d, f2) && (f2 < f1 ==> !FreeOnDisk(old(disk), f2));
        assert InodeAfter(d, disk, f2, kind2, f1) && InodeAfter(d, disk, f2, kind2, f2);
      }
    }

    /** One turn of readi's loop: m bytes from off on, which lie in one block. */
    method ReadChunk(f: nat, off: nat, m: nat) returns (ok: bool, dst: seq<Byte>)
      requires Ok(St(), sb) && f < |inodes| && off % BSIZE + m <= BSIZE && off < MAXBYTES
      modifies this
      ensures ok ==> Wrote(old(St()), St(), sb, f, off, [])
      ensures ok ==> |dst| == m && forall k :: 0 <= k < m ==> off + k < MAXBYTES && dst[k] == ByteAt(old(V()), f, off + k)
      ensures old(HasBlock(V(), f, off)) ==> ok && St() == old(St())
      ensures !ok ==> AllUsed(disk, sb)
    {
      hide Ok, AllUsed, Stepped, Wrote, Vol;
      var a;
      ok, a := Bmap(f, off / BSIZE);
      if !ok {
        return false, [];
      }
      ghost var P := PathTo(LeafOf(off / BSIZE));
      SteppedFacts(old(St()), St(), sb, f, P, LeafOf(off / BSIZE), a);
      SteppedWrote(old(St()), St(), sb, f, P, LeafOf(off / BSIZE), a, off);
      dst := disk[a].at[off % BSIZE..off % BSIZE + m];
      ChunkBytes(old(St()), St(), sb, f, off, m, a, dst);
    }

    /** One turn of writei's loop: src goes to off, all within one block. */
    method WriteChunk(f: nat, off: nat, src: seq<Byte>) returns (ok: bool)
      requires Ok(St(), sb) && f < |inodes| && off % BSIZE + |src| <= BSIZE && off < MAXBYTES
      modifies this
      ensures ok ==> Wrote(old(St()), St(), sb, f, off, src) && HasBlock(V(), f, off)
      ensures ok && old(HasRoot(V(), f, off)) ==> inodes == old(inodes)
      ensures !ok ==> AllUsed(disk, sb)
    {
      hide Ok, AllUsed, Stepped, Wrote, Vol, Patch;
      var a;
      ok, a := Bmap(f, off / BSIZE);
      if !ok {
        return;
      }
      ghost var P := PathTo(LeafOf(off / BSIZE));
      SteppedFacts(old(St()), St(), sb, f, P, LeafOf(off / BSIZE), a);
      SteppedWrote(old(St()), St(), sb, f, P, LeafOf(off / BSIZE), a, off);
      SteppedRoots(old(St()), St(), sb, f, off, a);
      ghost var s1 := St();
      PatchWrote(s1, sb, f, off, src);
      disk := disk[a := Patch(disk[a], off % BSIZE, src)];
      WroteThen(old(St()), s1, St(), sb, f, off, [], src);
      assert [] + src == src;
      WroteKeepsBlock(s1, St(), sb, f, off, src);
    }

    /** readi: the bytes of the file from off on, cut off at its end. */
    method Readi(f: nat, off: Word, n: Word) returns (r: Io, dst: seq<Byte>)
      requires Ok(St(), sb) && f < |inodes|
      modifies this
      ensures r.Device? <==> old(inodes[f].kind) == T_DEV
      ensures r.Refused? <==> old(inodes[f].kind) != T_DEV && (off > old(inodes[f].size) || off + n >= 0x1_0000_0000)
      ensures r.Count? ==> r.n == |dst| == if off + n > old(inodes[f].size) then old(inodes[f].size) - off else n
      ensures r.Count? ==> forall k :: 0 <= k < |dst| ==> off + k < MAXBYTES && dst[k] == ByteAt(old(V()), f, off + k)
      ensures r.Count? ==> Wrote(old(St()), St(), sb, f, off, [])
      ensures old(Covers(V(), f, off, if off + n > inodes[f].size then inodes[f].size else off + n)) ==> !r.Panic? && St() == old(St())
      ensures r.Panic? ==> AllUsed(disk, sb)
    {
      hide Ok, Wrote, AllUsed, Vol, ByteAt, Covers;
      ghost var end: nat := if off + n > inodes[f].size then inodes[f].size else off + n;
      ReadStart(St(), sb, f, off);
      dst := [];
      if inodes[f].kind == T_DEV {
        return Device, [];
      }
      if off > inodes[f].size || (off + n) % 0x1_0000_0000 < off {
        return Refused, [];
      }
      var want := if off + n > inodes[f].size then inodes[f].size - off else n;
      var tot := 0;
      while tot < want
        invariant tot == |dst| <= want && Wrote(old(St()), St(), sb, f, off, [])
        invariant Ok(St(), sb) && |inodes| == old(|inodes|) && inodes[f].size == old(inodes[f].size)
        invariant forall k :: 0 <= k < tot ==> off + k < MAXBYTES && dst[k] == ByteAt(old(V()), f, off + k)
        invariant old(Covers(V(), f, off, end)) ==> St() == old(St())
      {
        var at := off + tot;
        var m := if want - tot < BSIZE - at % BSIZE then want - tot else BSIZE - at % BSIZE;
        ghost var s1 := St();
        CoversAt(old(St()), sb, f, off, end, at);
        var ok, part := ReadChunk(f, at, m);
        if !ok {
          return Panic, dst;
        }
        ReadOn(old(St()), s1, St(), sb, f, off, at, m);
        dst := dst + part;
        tot := tot + m;
      }
      return Count(want), dst;
    }

    /** writei: src spliced into the file at off, the file grown if it now ends later. */
    method Writei(f: nat, src: seq<Byte>, off: Word) returns (r: Io)
      requires Ok(St(), sb) && f < |inodes| && |src| < 0x1_0000_0000
      modifies this
      ensures r.Device? <==> old(inodes[f].kind) == T_DEV
      ensures r.Refused? <==> old(inodes[f].kind) != T_DEV && (off > old(inodes[f].size) || off + |src| > MAXBYTES)
      ensures r.Device? || r.Refused? ==> St() == old(St())
      ensures r.Count? ==> r.n == |src| && Written(old(St()), St(), sb, f, off, src)
      ensures r.Panic? ==> AllUsed(disk, sb)
    {
      hide Ok, Wrote, AllUsed, Vol, Covers, Written;
      WriteStart(St(), sb, f, off);
      if inodes[f].kind == T_DEV {
        return Device;
      }
      if off > inodes[f].size || (off + |src|) % 0x1_0000_0000 < off {
        return Refused;
      }
      if (off + |src|) % 0x1_0000_0000 > MAXFILE * BSIZE {
        return Refused;
      }
      var tot := 0;
      while tot < |src|
        invariant 0 <= tot <= |src| && Writing(old(St()), St(), sb, f, off, src[..tot])
      {
        var at := off + tot;
        var m := if |src| - tot < BSIZE - at % BSIZE then |src| - tot else BSIZE - at % BSIZE;
        ghost var s1 := St();
        WritingFacts(old(St()), s1, sb, f, off, src[..tot]);
        var ok := WriteChunk(f, at, src[tot..tot + m]);
        if !ok {
          return Panic;
        }
        assert src[..tot] + src[tot..tot + m] == src[..tot + m];
        WriteOn(old(St()), s1, St(), sb, f, off, src[..tot], src[tot..tot + m]);
        tot := tot + m;
      }
      assert src[..tot] == src;
      ghost var s1 := St();
      WritingFacts(old(St()), s1, sb, f, off, src);
      if |src| > 0 && off + |src| > inodes[f].size {
        inodes := inodes[f := inodes[f].(size := off + |src|)];
        ResizeOk(s1, sb, f, off + |src|);
        ghost var s2 := St();
        Iupdate(f);
        GrownWritten(old(St()), s1, s2, St(), sb, f, off, src);
      } else {
        InPlaceWritten(old(St()), s1, sb, f, off, src);
      }
      return Count(|src|);
    }

    /** itrunc: frees the direct and indirect blocks; no bfree panics, and no other file changes. */
    method Itrunc(f: nat) returns (ok: bool)
      requires Ok(St(), sb) && f < |inodes|
      modifies this
      ensures ok && Emptied(old(St()), St(), sb, f)
      ensures |inodes| == old(|inodes|) && IBlock(f) < |disk| && DiskInode(disk, f) == inodes[f]
      ensures inodes[f].size == 0 && inodes[f].kind == old(inodes[f].kind) && forall g :: 0 <= g < |inodes| && g != f ==> inodes[g] == old(inodes[g])
    {
      hide DiskInode, Ok, Vol, Used, Bit, PutBitAt, Freeing, Emptied, Cleared, Laid;
      ghost var s := St();
      ok := FreeDirect(f);
      if !ok { return; }
      ClearNext(s.inodes[f], NDIRECT);
      RootNode(s, sb, f, IndRoot);
      if inodes[f].addrs.at[NDIRECT] != 0 {
        ok := FreeIndirect(f, s);
        if !ok { return; }
        inodes := inodes[f := inodes[f].(addrs := Addrs(inodes[f].addrs.at[NDIRECT := 0]))];
      } else {
        NoIndirect(s, disk, sb, f);
      }
      TruncOk(s, disk, sb, f);
      inodes := inodes[f := inodes[f].(size := 0)];
      assert inodes == s.inodes[f := Cleared(s.inodes[f], NDIRECT + 1).(size := 0)];
      ghost var s1 := St();
      Iupdate(f);
      UpdateEmptied(s, s1, St(), sb, f);
      EmptiedInode(s, St(), sb, f);
    }

    /** A truncated file reads as empty. */
    method TruncateThenRead(f: nat, n: Word) returns (ok: bool, r: Io, bytes: seq<Byte>)
      requires Ok(St(), sb) && f < |inodes|
      modifies this
      ensures ok && bytes == [] && (r.Count? ==> r.n == 0) && (r.Device? <==> old(inodes[f].kind) == T_DEV)
      ensures !r.Panic? && !r.Refused?
    {
      hide Ok, Vol, Emptied, Covers, Wrote, AllUsed, ByteAt, DiskInode;
      ok := Itrunc(f);
      EmptiedInode(old(St()), St(), sb, f);
      NothingToCover(V(), f);
      r, bytes := Readi(f, 0, n);
      if !r.Count? {
        bytes := [];
      }
    }

    /** itrunc's first loop. */
    method FreeDirect(f: nat) returns (ok: bool)
      requires Ok(St(), sb) && f < |inodes|
      modifies this
      ensures ok && Freeing(old(St()), disk, sb, f, NDIRECT)
      ensures inodes == old(inodes)[f := Cleared(old(inodes[f]), NDIRECT)]
    {
      hide Ok, Vol, Used, Bit, PutBitAt, Freeing, Cleared, Laid;
      ghost var s := St();
      FreeingStart(s, sb, f);
      var i := 0;
      ok := true;
      while i < NDIRECT
        invariant 0 <= i <= NDIRECT && ok && Freeing(s, disk, sb, f, i)
        invariant inodes == s.inodes[f := Cleared(s.inodes[f], i)]
      {
        ClearNext(s.inodes[f], i);
        RootNode(s, sb, f, Direct(i));
        FreeingNext(s, disk, sb, f, i);
        if inodes[f].addrs.at[i] != 0 {
          ok := Bfree(inodes[f].addrs.at[i]);
          if !ok { return; }
          inodes := inodes[f := inodes[f].(addrs := Addrs(inodes[f].addrs.at[i := 0]))];
        }
        assert inodes == s.inodes[f := Cleared(s.inodes[f], i + 1)];
        i := i + 1;
      }
    }

    /** itrunc's second loop, over the addresses in the indirect block, and the block itself. */
    method FreeIndirect(f: nat, ghost s: State) returns (ok: bool)
      requires Freeing(s, disk, sb, f, NDIRECT) && f < |inodes| && inodes[f].addrs.at[NDIRECT] == NodeOf(Vol(s, sb), f, IndRoot) != 0
      modifies `disk
      ensures ok && Freeing(s, disk, sb, f, NTRUNC)
    {
      hide Ok, Vol, Used, Bit, PutBitAt, Freeing, Laid, NodeOf, GetWord;
      var a := inodes[f].addrs.at[NDIRECT];
      IndirectEntries(s, disk, sb, f, a);
      var data := disk[a];
      var j := 0;
      ok := true;
      while j < NINDIRECT
        invariant 0 <= j <= NINDIRECT && ok && Freeing(s, disk, sb, f, NDIRECT + j)
      {
        FreeingNext(s, disk, sb, f, NDIRECT + j);
        if GetWord(data, j) != 0 {
          ok := Bfree(GetWord(data, j));
          if !ok { return; }
        }
        j := j + 1;
      }
      FreeingNext(s, disk, sb, f, NTRUNC - 1);
      ok := Bfree(a);
    }
  }

  predicate FreeOnDisk(d: Disk, i: nat) {
    IBlock(i) < |d| && DiskInode(d, i).kind == 0
  }

  /** What a claimed inode f of this kind leaves of inode i. */
  predicate InodeAfter(d: Disk, d': Disk, f: nat, kind: Half, i: nat) {
    && IBlock(i) < |d| && IBlock(i) < |d'|
    && DiskInode(d', i) == if i == f then Dinode(kind, 0, 0, 0, 0, NoAddrs()) else DiskInode(d, i)
  }

  lemma NewbornReads(d: Disk, sb: Super, f: nat, kind: Half)
    requires Laid(d, sb) && f < sb.ninodes
    ensures IBlock(f) < |d| && Laid(StoreInode(d, f, Newborn(kind)), sb)
    ensures forall i: nat :: i < sb.ninodes ==> InodeAfter(d, StoreInode(d, f, Newborn(kind)), f, kind, i)
  {
    hide DiskInode, StoreInode, GetWord;
    Regions(sb.size, sb.ninodes, f, 0);
    forall i: nat | i < sb.ninodes ensures InodeAfter(d, StoreInode(d, f, Newborn(kind)), f, kind, i) {
      Regions(sb.size, sb.ninodes, i, 0);
      StoreInodeReads(d, f, Newborn(kind), i);
    }
  }

  lemma InodeOnDisk(d: Disk, sb: Super, f: nat)
    requires Laid(d, sb) && f < sb.ninodes
    ensures IBlock(f) < |d|
  {
    Regions(sb.size, sb.ninodes, f, 0);
  }

  lemma FreeingStart(s: State, sb: Super, f: nat)
    requires Ok(s, sb) && f < |s.inodes|
    ensures Freeing(s, s.d, sb, f, 0)
  {
    hide Ok, Bit;
  }

  lemma IndirectEntries(s: State, d': Disk, sb: Super, f: nat, a: Word)
    requires Freeing(s, d', sb, f, NDIRECT) && a == NodeOf(Vol(s, sb), f, IndRoot) != 0
    ensures a < |d'|
    ensures forall j: nat :: j < NINDIRECT ==> GetWord(d'[a], j) == NodeOf(Vol(s, sb), f, TruncPos(NDIRECT + j))
  {
    OkSound(s, sb);
    assert InUse(Vol(s, sb), f, IndRoot);
    hide GetWord, Ok, Bit, Used;
  }

  lemma FreshCanPlant(s: State, sb: Super, f: nat, p: Pos, b: Word)
    requires Ok(s, sb) && f < |s.inodes| && OkPos(p) && NodeOf(Vol(s, sb), f, p) == 0
    requires !IsRoot(p) ==> NodeOf(Vol(s, sb), f, Parent(p)) != 0
    requires DataStart(sb.size, sb.ninodes) <= b < sb.size && !Bit(s.d, sb.ninodes, b)
    ensures CanPlant(Vol(s, sb), f, p, b)
  {
    hide Sound, Bit, NodeOf;
  }

  lemma SteppedFacts(s: State, s': State, sb: Super, f: nat, P: set<Pos>, p: Pos, addr: Word)
    requires Stepped(s, s', sb, f, P, p, addr)
    ensures Ok(s', sb) && f < |s'.inodes| && OkPos(p) && addr == NodeOf(Vol(s', sb), f, p) && 0 < addr < |s'.d|
    ensures NodeOf(Vol(s, sb), f, p) != 0 ==> s' == s
  {
  }
}
