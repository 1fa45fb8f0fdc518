/** From mkfs to the running kernel: recovery of the log, then the files. */
module Boot {
  import opened Blocks
  import opened FileTree
  import opened FileBytes
  import opened FsLayout
  import opened Dirents
  import opened Dirs
  import opened FsState
  import opened FsContent
  import opened Fs
  import opened MkfsFiles
  import opened Mkfs
  import Bio
  import Log
  import LogHeader
  import PinnedBuffers
  import Wal

  /** initlog: the log is the last nlog sectors. */
  function LogAt(sb: Super): (L: Wal.Layout<Block>)
    requires sb.nlog <= sb.size
  {
    LogHeader.At(sb.size - sb.nlog, sb.nlog)
  }

  // What recovery does to an image

  lemma ClearingClear(b: Block)
    ensures LogHeader.EncodeHead(b, []) == b <==> LogHeader.HeadCount(b) == 0
    ensures LogHeader.HeadCount(LogHeader.EncodeHead(b, [])) == 0
  {
    if LogHeader.HeadCount(b) == 0 {
      assert SetWord(b, 0, 0).at == b.at;
    }
  }

  /** Recovery writes the header and the sectors it lists, and no other. */
  lemma RecoveryTouches(d: Disk, sb: Super, x: nat)
    requires 0 < sb.nlog <= sb.size && Wal.WellFormed(LogAt(sb), d) && x < |d|
    ensures x == sb.size - sb.nlog ==> Wal.Recovered(LogAt(sb), d)[x] == LogHeader.EncodeHead(d[x], [])
    ensures x != sb.size - sb.nlog && x !in LogHeader.DecodeHead(d[sb.size - sb.nlog]) ==> Wal.Recovered(LogAt(sb), d)[x] == d[x]
  {
    var L := LogAt(sb);
    var sectors := L.decode(d[L.start]);
    Wal.InstalledSector(L, d, sectors, |sectors|, x);
    hide Wal.InstallTo, Wal.LastAt, Wal.Layout.Lawful, LogHeader.EncodeHead, LogHeader.DecodeHead;
  }

  /** Booting leaves the disk as mkfs made it if and only if sector size - nlog begins with a zero word. */
  lemma BootKeepsDiskIff(d: Disk, sb: Super)
    requires 0 < sb.nlog <= sb.size && Wal.WellFormed(LogAt(sb), d)
    ensures Wal.Recovered(LogAt(sb), d) == d <==> LogHeader.HeadCount(d[sb.size - sb.nlog]) == 0
  {
    var L := LogAt(sb);
    ClearingClear(d[L.start]);
    RecoveryTouches(d, sb, L.start);
    if LogHeader.HeadCount(d[L.start]) == 0 {
      assert L.decode(d[L.start]) == [];
    }
  }

  /** That is so if mkfs handed out no block of the log region. */
  lemma BlankLog(d: Disk, free: nat, files: seq<seq<Byte>>, sb: Super)
    requires Mounts(d, free, files, sb) && 0 < sb.nlog <= sb.size && free <= sb.size - sb.nlog
    ensures Wal.WellFormed(LogAt(sb), d) && Wal.Recovered(LogAt(sb), d) == d
  {
    var L := LogAt(sb);
    assert |d| == sb.size && d[L.start] == ZeroBlock() by { hide Ok, FileIs, Load, Vol; }
    ZeroBlockWords();
    LogHeader.HeaderIsLawful(L.start, L.size);
    hide Mounts, GetWord, ZeroBlock;
    assert LogHeader.DecodeHead(d[L.start]) == [];
    BootKeepsDiskIff(d, sb);
  }

  /** The files as the kernel finds them on a disk, byte by byte. */
  ghost predicate ReadsBack(d: Disk, sb: Super, i: nat, bytes: seq<Byte>) {
    && BitStart(sb.ninodes) <= |d| && i < sb.ninodes && |bytes| <= MAXBYTES
    && forall o :: 0 <= o < |bytes| ==> ByteAt(Vol(State(d, Load(d, sb.ninodes)), sb), i, o) == bytes[o]
  }

  /** A mounted file that is not the root directory: its size and its bytes, all of them in blocks that are there. */
  lemma MountedFile(d: Disk, free: nat, files: seq<seq<Byte>>, sb: Super, i: nat)
    requires Mounts(d, free, files, sb) && i < |files| && i != ROOTINO
    ensures BitStart(sb.ninodes) <= |d| && Laid(d, sb) && ReadsBack(d, sb, i, files[i])
    ensures var s := State(d, Load(d, sb.ninodes));
            Ok(s, sb) && s.inodes[i].size == |files[i]| <= MAXBYTES && Covers(Vol(s, sb), i, 0, |files[i]|)
  {
    hide Covers, ByteAt, Vol, Load, Laid, Sound, Used;
  }

  /** Other content in data block bn of file i and in blocks not its own: the file differs there and nowhere else. */
  lemma LeafOff(v: Volume, v': Volume, i: nat, bn: nat, a: Word)
    requires Sound(v) && i < |v.files| == |v'.files| && v'.files[i] == v.files[i] && |v'.d| == |v.d| && bn < MAXFILE
    requires a == NodeOf(v, i, LeafOf(bn)) != 0 && forall x: nat :: x < |v.d| && x != a && Owns(v, i, x) ==> v'.d[x] == v.d[x]
    ensures a < |v.d| && forall o :: 0 <= o < MAXBYTES ==>
              ByteAt(v', i, o) == if o / BSIZE == bn then v'.d[a].at[o % BSIZE] else ByteAt(v, i, o)
  {
    hide LeafOf;
    assert InUse(v, i, LeafOf(bn));
    var one := v.(files := [v.files[i]]);
    forall q | OkPos(q) && !IsLeaf(q) && 0 < NodeOf(one, 0, q) < |v.d| ensures v'.d[NodeOf(one, 0, q)] == v.d[NodeOf(one, 0, q)] {
      assert NodeOf(one, 0, q) == NodeOf(v, i, q);
      assert Owns(v, i, NodeOf(v, i, q)) && Apart(v, i, LeafOf(bn), i, q);
    }
    forall o | 0 <= o < MAXBYTES
      ensures ByteAt(v', i, o) == if o / BSIZE == bn then v'.d[a].at[o % BSIZE] else ByteAt(v, i, o)
    {
      var p := LeafOf(o / BSIZE);
      InteriorsKeepNode(one, v'.d, 0, p);
      assert InUse(v, i, p);
      assert NodeOf(v, i, p) != 0 ==> Owns(v, i, NodeOf(v, i, p));
      if o / BSIZE != bn {
        BlocksDiffer(v, i, bn, i, o / BSIZE);
      }
      hide Sound, Node;
    }
  }

  /** What a mounted image says of its volume. */
  lemma MountedVolume(d: Disk, free: nat, files: seq<seq<Byte>>, sb: Super)
    requires Mounts(d, free, files, sb)
    ensures BitStart(sb.ninodes) <= |d| == sb.size && DataStart(sb.size, sb.ninodes) <= free <= sb.size && |files| <= sb.ninodes
    ensures var v := Vol(State(d, Load(d, sb.ninodes)), sb);
            && Sound(v) && v.d == d && |v.files| == sb.ninodes
            && (forall b: nat :: b in v.used <==> b < free)
            && (forall i :: 0 <= i < |files| ==> FileIs(v, i, files[i]))
  {
    hide FileIs, Load, Sound, Bit, GetWord;
  }

  lemma NonzeroByte(b: Block) returns (k: nat)
    requires LogHeader.HeadCount(b) != 0
    ensures k < 4 && b.at[k] != 0 && LogHeader.EncodeHead(b, []).at[k] == 0
  {
    k := if b.at[0] != 0 then 0 else if b.at[1] != 0 then 1 else if b.at[2] != 0 then 2 else 3;
  }

  /** Every sector the header lists is the boot block or a data block, and none is a block of file i. */
  ghost predicate ListsElsewhere(b: Block, v: Volume, i: nat)
    requires i < |v.files|
  {
    forall k :: 0 <= k < |LogHeader.DecodeHead(b)| ==>
      var s := LogHeader.DecodeHead(b)[k]; (s == 0 || v.lo <= s) && !Owns(v, i, s)
  }

  /** Recovery of an image whose header sector is data block bn of file i: that file differs in that block. */
  lemma LogInFile(d: Disk, free: nat, files: seq<seq<Byte>>, sb: Super, i: nat, bn: nat)
    requires Mounts(d, free, files, sb) && 0 < sb.nlog < sb.size && Wal.WellFormed(LogAt(sb), d)
    requires i < |files| && bn < MAXFILE && NodeOf(Vol(State(d, Load(d, sb.ninodes)), sb), i, LeafOf(bn)) == sb.size - sb.nlog
    requires ListsElsewhere(d[sb.size - sb.nlog], Vol(State(d, Load(d, sb.ninodes)), sb), i)
    ensures var a, d' := sb.size - sb.nlog, Wal.Recovered(LogAt(sb), d);
            var v, v' := Vol(State(d, Load(d, sb.ninodes)), sb), Vol(State(d', Load(d', sb.ninodes)), sb);
            && (forall o :: 0 <= o < MAXBYTES ==>
                  ByteAt(v', i, o) == if o / BSIZE == bn then LogHeader.EncodeHead(d[a], []).at[o % BSIZE] else ByteAt(v, i, o))
            && (forall o :: 0 <= o < MAXBYTES && o / BSIZE == bn ==> ByteAt(v, i, o) == d[a].at[o % BSIZE])
  {
    hide Mounts, ByteAt, Load, Vol, Sound, Wal.Recovered, Wal.WellFormed, LogHeader.DecodeHead, LogHeader.EncodeHead, LeafOf, NodeOf, FileIs;
    MountedVolume(d, free, files, sb);
    var a, d' := sb.size - sb.nlog, Wal.Recovered(LogAt(sb), d);
    var v, v' := Vol(State(d, Load(d, sb.ninodes)), sb), Vol(State(d', Load(d', sb.ninodes)), sb);
    LeafInData(v, i, LeafOf(bn));
    VolumeStart(d, sb);
    RecoveryKeepsFile(d, sb, v, i);
    SameFiles(d, d', sb);
    LeafOff(v, v', i, bn, a);
    LeafOff(v, v, i, bn, a);
  }

  lemma LeafInData(v: Volume, i: nat, p: Pos)
    requires Sound(v) && i < |v.files| && OkPos(p) && NodeOf(v, i, p) != 0
    ensures v.lo <= NodeOf(v, i, p) < |v.d|
  {
    assert InUse(v, i, p);
  }

  lemma VolumeStart(d: Disk, sb: Super)
    requires BitStart(sb.ninodes) <= |d|
    ensures Vol(State(d, Load(d, sb.ninodes)), sb).lo == DataStart(sb.size, sb.ninodes)
  {
  }

  lemma RecoveryKeepsFile(d: Disk, sb: Super, v: Volume, i: nat)
    requires 0 < sb.nlog <= sb.size && Wal.WellFormed(LogAt(sb), d) && i < |v.files| && ListsElsewhere(d[sb.size - sb.nlog], v, i)
    ensures var a, d' := sb.size - sb.nlog, Wal.Recovered(LogAt(sb), d);
            && |d'| == |d| && d'[a] == LogHeader.EncodeHead(d[a], [])
            && forall x: nat :: x < |d| && x != a && (0 < x < v.lo || Owns(v, i, x)) ==> d'[x] == d[x]
  {
    hide Wal.Recovered, LogHeader.DecodeHead, LogHeader.EncodeHead, Owns;
    forall x: nat | x < |d| && x != sb.size - sb.nlog && (0 < x < v.lo || Owns(v, i, x)) ensures Wal.Recovered(LogAt(sb), d)[x] == d[x] {
      RecoveryTouches(d, sb, x);
    }
    RecoveryTouches(d, sb, sb.size - sb.nlog);
  }

  lemma SameFiles(d: Disk, d': Disk, sb: Super)
    requires |d'| == |d| && BitStart(sb.ninodes) <= |d| && forall x :: 0 < x < BitStart(sb.ninodes) ==> d'[x] == d[x]
    ensures Vol(State(d', Load(d', sb.ninodes)), sb).files == Vol(State(d, Load(d, sb.ninodes)), sb).files
  {
    hide Load;
    LoadHead(d, d', sb);
  }

  /**
   If mkfs put data block bn of a program into sector size - nlog, and the sectors that block seems to list
   are not the program's, it reads back after the boot if and only if the block begins with a zero word.
   */
  lemma LogInFileIff(d: Disk, free: nat, files: seq<seq<Byte>>, sb: Super, i: nat, bn: nat)
    requires Mounts(d, free, files, sb) && 0 < sb.nlog < sb.size && Wal.WellFormed(LogAt(sb), d)
    requires i < |files| && bn < MAXFILE && NodeOf(Vol(State(d, Load(d, sb.ninodes)), sb), i, LeafOf(bn)) == sb.size - sb.nlog
    requires ListsElsewhere(d[sb.size - sb.nlog], Vol(State(d, Load(d, sb.ninodes)), sb), i)
    ensures ReadsBack(Wal.Recovered(LogAt(sb), d), sb, i, files[i]) <==> LogHeader.HeadCount(d[sb.size - sb.nlog]) == 0
  {
    hide Mounts, ByteAt, Load, Vol, Wal.Recovered, Wal.WellFormed, LogHeader.DecodeHead, LogHeader.EncodeHead, LogHeader.HeadCount, LeafOf, NodeOf, Sound, Covers, HasBlock;
    MountedVolume(d, free, files, sb);
    var a := sb.size - sb.nlog;
    LogInFile(d, free, files, sb, i, bn);
    assert FileIs(Vol(State(d, Load(d, sb.ninodes)), sb), i, files[i]);
    ClearingClear(d[a]);
    if LogHeader.HeadCount(d[a]) != 0 {
      var k := NonzeroByte(d[a]);
      var o := bn * BSIZE + k;
      assert o / BSIZE == bn && o % BSIZE == k && o < MAXBYTES;
    }
  }

  lemma LoadHead(d: Disk, d': Disk, sb: Super)
    requires |d'| == |d| && BitStart(sb.ninodes) <= |d| && forall x :: 0 < x < BitStart(sb.ninodes) ==> d'[x] == d[x]
    ensures Load(d', sb.ninodes) == Load(d, sb.ninodes)
  {
    hide GetDinode;
    forall i: nat | i < sb.ninodes ensures IBlock(i) < |d| && DiskInode(d', i) == DiskInode(d, i) {
      assert IBlock(i) < BitStart(sb.ninodes);
    }
  }

  // Booting

  /** binit and initlog on the image, as the first process runs them: sector 1 says where the log is. */
  method BootDisk(d: Disk, ghost sb: Super) returns (d': Disk)
    requires Laid(d, sb) && 0 < sb.nlog <= sb.size && Wal.WellFormed(LogAt(sb), d)
    ensures d' == Wal.Recovered(LogAt(sb), d)
  {
    hide Bio.BCache.Valid, GetWord, LogHeader.DecodeHead, LogHeader.EncodeHead, Wal.Recovered, Wal.RecoveryTrace;
    var size, nlog := GetWord(d[1], 0), GetWord(d[1], 3);
    var cache := new Bio.BCache(d);
    var log := new Log.Log(cache, size - nlog, nlog);
    NothingDirty(cache.bufs);
    LogHeader.HeaderIsLawful(log.start, log.size);
    log.RecoverFromLog();
    d' := cache.disk;
  }

  lemma NothingDirty(bufs: seq<Bio.Buf>)
    requires forall b :: 0 <= b < |bufs| ==> !bufs[b].busy && !bufs[b].dirty
    ensures PinnedBuffers.Quiet(bufs) && PinnedBuffers.Dirty(bufs) == {}
  {
  }

  /**
   mkfs, a boot and a read of program i.  The log is the nlog sectors mkfs's assertion leaves behind the
   data; the program's bytes come back whenever mkfs stayed out of them.
   */
  method InstallThenRead(size: Word, nblocks: Word, ninodes: Word, nlog: Word, progs: seq<Prog>, i: nat)
    returns (ok: bool, d: Disk, free: nat, bytes: seq<Byte>)
    requires Geometry(size, ninodes) && nblocks + DataStart(size, ninodes) + nlog == size && 0 < nlog
    requires |progs| + 2 <= ninodes && |progs| < 0xFFFE && Named(progs) && i < |progs|
    ensures ok ==> Mounts(d, free, Installed(progs), Super(size, nblocks, ninodes, nlog))
    ensures ok && free <= size - nlog ==> bytes == Flat(progs[i].chunks)
  {
    hide Ok, Mounts, Covers, ByteAt, Vol, Load, DiskInode, Flat, RootEntries, Laid, Installed, Wal.Recovered, Wal.WellFormed;
    var img;
    ok, img := Build(size, nblocks, ninodes, nlog, progs);
    d, free, bytes := img.d, img.freeblock, [];
    if !ok || free > size - nlog { return; }
    ghost var sb := img.sb;
    BlankLog(d, free, img.files, sb);
    MountedFile(d, free, img.files, sb, i + 2);
    MountedLaid(d, free, img.files, sb);
    var disk := BootDisk(d, sb);
    var fs := new FileSystem.Mount(disk, sb);
    assert fs.inodes == Load(img.d, ninodes);
    assert KindList(|progs| + 2)[i + 2] == T_FILE && HasKind(img.d, i + 2, KindList(|progs| + 2)[i + 2]);
    assert fs.inodes[i + 2].kind == T_FILE;
    var r;
    r, bytes := fs.Readi(i + 2, 0, fs.inodes[i + 2].size);
  }

  // Finding a program by its name

  /** Where the root directory lists a name: "." and ".." first, then the first program of that name. */
  predicate Lists(progs: seq<Prog>, s: seq<Byte>, k: nat) {
    if s == [46] then k == 0
    else if s == [46, 46] then k == 1
    else 2 <= k < |progs| + 2 && Str(progs[k - 2].name) == s && forall j :: 0 <= j < k - 2 ==> Str(progs[j].name) != s
  }

  function EntryName(progs: seq<Prog>, k: nat): (r: seq<Byte>)
    requires Named(progs) && k < |progs| + 2
    ensures |r| == DIRSIZ
  {
    if k < 2 then Dots(k + 1) else progs[k - 2].name
  }

  /** The entries mkfs writes, as dirlookup decodes them. */
  lemma {:induction false} RootEntry(progs: seq<Prog>, k: nat)
    requires Named(progs) && |progs| < 0xFFFE && k < |progs| + 2
    ensures Inum(RootEntries(progs), k) == (if k < 2 then ROOTINO else k) && Name(RootEntries(progs), k) == EntryName(progs, k)
    decreases |progs|
  {
    hide Inum, Name, Dirent, Dots;
    var n := |progs|;
    if n == 0 {
      var b := [];
      var one := WithEntry(b, 0, Dirent(ROOTINO, Dots(1)));
      WithEntryReads(b, 0, ROOTINO, Dots(1), 0);
      WithEntryReads(one, 1, ROOTINO, Dots(2), k);
      assert RootEntries(progs) == WithEntry(one, 1, Dirent(ROOTINO, Dots(2)));
    } else {
      var most := progs[..n - 1];
      var b := RootEntries(most);
      WithEntryReads(b, n + 1, n + 1, progs[n - 1].name, k);
      assert RootEntries(progs) == WithEntry(b, n + 1, Dirent(n + 1, progs[n - 1].name));
      if k < n + 1 {
        RootEntry(most, k);
      }
    }
  }

  lemma DotStrings()
    ensures Str(Dots(1)) == [46] && Str(Dots(2)) == [46, 46]
  {
    LenOf([46], Dots(1));
    LenOf([46, 46], Dots(2));
  }

  lemma EntryKept(b: seq<Byte>, more: seq<Byte>, j: nat)
    requires j < Entries(b)
    ensures j < Entries(b + more) && Inum(b + more, j) == Inum(b, j) && Name(b + more, j) == Name(b, j)
  {
    assert (b + more)[DESIZE * j + 2..DESIZE * (j + 1)] == b[DESIZE * j + 2..DESIZE * (j + 1)];
  }

  lemma EntryMatches(progs: seq<Prog>, more: seq<Byte>, j: nat, s: seq<Byte>)
    requires Named(progs) && |progs| < 0xFFFE && j < |progs| + 2
    ensures var c := RootEntries(progs) + more;
            && j < Entries(c) && Inum(c, j) == (if j < 2 then ROOTINO else j)
            && (Matches(c, j, s) <==> Str(EntryName(progs, j)) == s)
  {
    hide RootEntries, Str, EntryName, Inum, Name;
    RootEntry(progs, j);
    EntryKept(RootEntries(progs), more, j);
  }

  lemma ListedFirst(progs: seq<Prog>, s: seq<Byte>, k: nat)
    requires Named(progs) && Lists(progs, s, k)
    ensures k < |progs| + 2 && Str(EntryName(progs, k)) == s && forall j: nat :: j < k ==> Str(EntryName(progs, j)) != s
  {
    hide Dots, Str;
    DotStrings();
  }

  /** The first entry under the name is the one listed, whatever follows the entries. */
  lemma RootFirst(progs: seq<Prog>, s: seq<Byte>, k: nat, more: seq<Byte>)
    requires Named(progs) && |progs| < 0xFFFE && Lists(progs, s, k)
    ensures IsFirst(RootEntries(progs) + more, k, s) && Inum(RootEntries(progs) + more, k) == if k < 2 then ROOTINO else k
  {
    hide RootEntries, EntryName, Lists, Str, Matches, Inum;
    ListedFirst(progs, s, k);
    EntryMatches(progs, more, k, s);
    forall j: nat | j < k ensures !Matches(RootEntries(progs) + more, j, s) {
      EntryMatches(progs, more, j, s);
    }
  }

  /** The mounted root directory shows every name it lists. */
  lemma RootShows(d: Disk, free: nat, progs: seq<Prog>, sb: Super, s: seq<Byte>, k: nat)
    requires Named(progs) && |progs| < 0xFFFE && Mounts(d, free, Installed(progs), sb) && Lists(progs, s, k)
    ensures BitStart(sb.ninodes) <= |d| && ROOTINO < sb.ninodes
    ensures var st := State(d, Load(d, sb.ninodes));
            var n := st.inodes[ROOTINO].size;
            && Ok(st, sb) && n <= MAXBYTES && Covers(Vol(st, sb), ROOTINO, 0, DESIZE * (k + 1))
            && IsFirst(Content(Vol(st, sb), ROOTINO, n), k, s) && Inum(Content(Vol(st, sb), ROOTINO, n), k) == if k < 2 then ROOTINO else k
  {
    hide Covers, ByteAt, Vol, Load, Laid, Sound, Used, RootEntries, IsFirst, Inum, Content, Installed;
    var st := State(d, Load(d, sb.ninodes));
    var b := RootEntries(progs);
    assert Installed(progs)[ROOTINO] == b && FileIs(Vol(st, sb), ROOTINO, b);
    SizesFit(st, sb, ROOTINO);
    RootTail(Vol(st, sb), ROOTINO, b);
    RootFirst(progs, s, k, seq(Rounded(|b|) - |b|, _ => 0));
    CoversPart(Vol(st, sb), ROOTINO, 0, |b|, 0, DESIZE * (k + 1));
  }

  lemma SizesFit(s: State, sb: Super, f: nat)
    requires Ok(s, sb) && f < |s.inodes|
    ensures s.inodes[f].size <= MAXBYTES
  {
  }

  /**
   mkfs, a boot, a lookup in the root directory and a read of what it finds: a program's name leads to the
   program's bytes, and "." and ".." to the root directory itself.
   */
  method FindThenRead(size: Word, nblocks: Word, ninodes: Word, nlog: Word, progs: seq<Prog>, name: seq<Byte>, ghost k: nat)
    returns (ok: bool, free: nat, r: Lookup, bytes: seq<Byte>)
    requires Geometry(size, ninodes) && nblocks + DataStart(size, ninodes) + nlog == size && 0 < nlog
    requires |progs| + 2 <= ninodes && |progs| < 0xFFFE && Named(progs) && |name| == DIRSIZ && Lists(progs, Str(name), k)
    ensures ok && free <= size - nlog ==> r == Found(if k < 2 then ROOTINO else k, k)
    ensures ok && free <= size - nlog && k >= 2 ==> bytes == Flat(progs[k - 2].chunks)
  {
    hide Ok, Mounts, Covers, ByteAt, Vol, Load, DiskInode, Flat, RootEntries, Laid, Installed, Wal.Recovered, Wal.WellFormed, Str, Lists, IsFirst, Inum, Content;
    var img;
    ok, img := Build(size, nblocks, ninodes, nlog, progs);
    free, r, bytes := img.freeblock, Missing, [];
    if !ok || free > size - nlog { return; }
    ghost var sb := img.sb;
    BlankLog(img.d, free, img.files, sb);
    RootShows(img.d, free, progs, sb, Str(name), k);
    MountedLaid(img.d, free, img.files, sb);
    var disk := BootDisk(img.d, sb);
    var fs := new FileSystem.Mount(disk, sb);
    assert fs.inodes == Load(img.d, ninodes);
    assert KindList(|progs| + 2)[ROOTINO] == T_DIR && HasKind(img.d, ROOTINO, KindList(|progs| + 2)[ROOTINO]);
    r := Dirlookup(fs, ROOTINO, name, k);
    ListedFirst(progs, Str(name), k);
    if r.inum != ROOTINO {
      MountedFile(img.d, free, img.files, sb, k);
      assert HasKind(img.d, k, KindList(|progs| + 2)[k]);
      var io;
      io, bytes := fs.Readi(r.inum, 0, fs.inodes[r.inum].size);
    }
  }

  const HEADERLIKE: seq<Byte> := [1, 0, 0, 0, 0, 0, 0, 0]

  /** The block of a file whose address is in slot 0 holds its first bytes. */
  lemma FirstBytes(d: Disk, free: nat, files: seq<seq<Byte>>, sb: Super, i: nat, a: nat)
    requires Mounts(d, free, files, sb) && i < |files| && 0 < a < sb.size && FirstAt(d, i, a)
    ensures NodeOf(Vol(State(d, Load(d, sb.ninodes)), sb), i, LeafOf(0)) == a && |d| == sb.size
    ensures forall k: nat :: k < |files[i]| && k < BSIZE ==> d[a].at[k] == files[i][k]
  {
    hide Mounts, Sound, DiskInode, Covers, HasBlock, GetWord;
    MountedVolume(d, free, files, sb);
    var v := Vol(State(d, Load(d, sb.ninodes)), sb);
    assert LeafOf(0) == Direct(0) && NodeOf(v, i, Direct(0)) == a;
    assert FileIs(v, i, files[i]);
    forall k: nat | k < |files[i]| && k < BSIZE ensures d[a].at[k] == files[i][k] {
      assert ByteAt(v, i, k) == files[i][k];
    }
  }

  /** A file of eight bytes whose block reads as a log header listing the boot block. */
  lemma HeaderlikeBlock(d: Disk, free: nat, files: seq<seq<Byte>>, sb: Super, i: nat)
    requires Mounts(d, free, files, sb) && 2 <= sb.nlog < sb.size && i < |files|
    requires files[i] == HEADERLIKE && FirstAt(d, i, sb.size - sb.nlog)
    ensures Wal.WellFormed(LogAt(sb), d) && LogHeader.HeadCount(d[sb.size - sb.nlog]) != 0
    ensures BitStart(sb.ninodes) <= |d| && i < sb.ninodes
    ensures var v := Vol(State(d, Load(d, sb.ninodes)), sb);
            NodeOf(v, i, LeafOf(0)) == sb.size - sb.nlog && ListsElsewhere(d[sb.size - sb.nlog], v, i)
  {
    hide Mounts, Sound, DiskInode, Vol, Load, NodeOf, FileIs, Wal.Layout.Lawful, LogHeader.EncodeHead;
    MountedVolume(d, free, files, sb);
    var a := sb.size - sb.nlog;
    FirstBytes(d, free, files, sb, i, a);
    LogHeader.HeaderIsLawful(a, sb.nlog);
    assert GetWord(d[a], 0) == 1 && GetWord(d[a], 1) == 0;
    hide GetWord;
    assert LogHeader.DecodeHead(d[a]) == [0];
  }

  /** main with one program, whose bytes fit in a block: that block is the second of the data area. */
  method BuildOne(size: Word, ninodes: Word, nlog: Word, prog: Prog) returns (img: Image)
    requires Geometry(size, ninodes) && DataStart(size, ninodes) + 2 <= size && 3 <= ninodes && |prog.name| == DIRSIZ
    requires |prog.chunks| == 1 && 0 < |prog.chunks[0]| <= BSIZE
    ensures img.sb == Super(size, 1, ninodes, nlog) && Named([prog]) && img.files == Installed([prog])
    ensures Mounts(img.d, img.freeblock, img.files, img.sb) && FirstAt(img.d, 2, DataStart(size, ninodes) + 1)
  {
    hide Holds, Mounts, KindsAre, KindList, DiskInode, Dirent, Flat;
    assert [] + [prog] == [prog];
    img := new Image(size, 1, ninodes, nlog);
    var ok := img.MakeRoot();
    ok := img.Install(prog, []);
    img.Finish(ninodes);
  }

  /**
   An image the boot damages: with one data block, mkfs puts the only program's block into sector
   size - nlog.  The program's first word counts one sector, so recovery takes it for a header.
   */
  method DamagedProgram(size: Word, ninodes: Word, nlog: Word, name: seq<Byte>) returns (d: Disk, d': Disk, free: nat)
    requires Geometry(size, ninodes) && 1 + DataStart(size, ninodes) + nlog == size && 2 <= nlog && 3 <= ninodes && |name| == DIRSIZ
    ensures Mounts(d, free, Installed([Prog(name, [HEADERLIKE])]), Super(size, 1, ninodes, nlog))
    ensures Wal.WellFormed(LogAt(Super(size, 1, ninodes, nlog)), d) && d' == Wal.Recovered(LogAt(Super(size, 1, ninodes, nlog)), d)
    ensures !ReadsBack(d', Super(size, 1, ninodes, nlog), 2, HEADERLIKE)
  {
    hide Mounts, Vol, Load, DiskInode, Installed, Wal.Recovered, Wal.WellFormed, ReadsBack, ListsElsewhere, NodeOf, LeafOf, LogHeader.HeadCount, FirstAt;
    var prog := Prog(name, [HEADERLIKE]);
    assert prog.chunks[..0] == [] && Flat(prog.chunks) == HEADERLIKE;
    var img := BuildOne(size, ninodes, nlog, prog);
    d, free := img.d, img.freeblock;
    HeaderlikeBlock(d, free, img.files, img.sb, 2);
    LogInFileIff(d, free, img.files, img.sb, 2, 0);
    MountedLaid(d, free, img.files, img.sb);
    d' := BootDisk(d, img.sb);
  }

  lemma MountedLaid(d: Disk, free: nat, files: seq<seq<Byte>>, sb: Super)
    requires Mounts(d, free, files, sb)
    ensures Laid(d, sb)
  {
    hide FileIs, Load, Sound, GetWord, Vol;
  }

  // balloc and the log region

  /** balloc hands out a block of the log region if and only if every bit below it is set. */
  lemma BallocInLogIff(s: State, sb: Super, b: nat)
    requires sb.nlog <= sb.size && b < sb.size && !Bit(s.d, sb.ninodes, b) && forall c: nat :: c < b ==> Bit(s.d, sb.ninodes, c)
    ensures b >= sb.size - sb.nlog <==> forall c: nat :: c < sb.size - sb.nlog ==> Bit(s.d, sb.ninodes, c)
  {
    hide Bit;
  }

  /** The first block the kernel allocates on an image of mkfs is freeblock. */
  lemma FirstBalloc(d: Disk, free: nat, files: seq<seq<Byte>>, sb: Super, b: nat)
    requires Mounts(d, free, files, sb)
    requires b < sb.size && !Bit(d, sb.ninodes, b) && forall c: nat :: c < b ==> Bit(d, sb.ninodes, c)
    ensures b == free
  {
    hide Bit, Mounts;
    MountedBits(d, free, files, sb);
    assert b > free ==> Bit(d, sb.ninodes, free);
  }

  lemma MountedBits(d: Disk, free: nat, files: seq<seq<Byte>>, sb: Super)
    requires Mounts(d, free, files, sb)
    ensures free <= sb.size && forall b: nat :: b < sb.size ==> (Bit(d, sb.ninodes, b) <==> b < free)
  {
    hide Bit, FileIs, Sound, Load;
  }

  /** With one data block, taken by the root directory, the first balloc returns the sector of the log header. */
  method FullDisk(size: Word, ninodes: Word, nlog: Word) returns (ok: bool, b: Word)
    requires Geometry(size, ninodes) && 1 + DataStart(size, ninodes) + nlog == size && 0 < nlog && 2 <= ninodes
    ensures ok && b == size - nlog
  {
    hide Ok, Mounts, Vol, Load, DiskInode, Laid, Installed, Bit, Claim, Wal.Recovered, Wal.WellFormed;
    var img;
    ok, img := Build(size, 1, ninodes, nlog, []);
    ghost var d, free, sb := img.d, img.freeblock, img.sb;
    BlankLog(d, free, img.files, sb);
    MountedFile(d, free, img.files, sb, 0);
    MountedLaid(d, free, img.files, sb);
    var disk := BootDisk(img.d, sb);
    var fs := new FileSystem.Mount(disk, sb);
    assert fs.inodes == Load(img.d, ninodes);
    MountedBits(d, free, img.files, sb);
    assert !Bit(fs.disk, sb.ninodes, free);
    ok, b := fs.Balloc();
    FirstBalloc(d, free, img.files, sb, b);
  }

  // The hole in the root directory

  /** A root directory of whole blocks has no address for its last one, though its size covers it. */
  lemma RootHole(d: Disk, free: nat, files: seq<seq<Byte>>, sb: Super)
    requires Mounts(d, free, files, sb) && |files[ROOTINO]| % BSIZE == 0 && |files[ROOTINO]| < NDIRECT * BSIZE
    ensures var s := State(d, Load(d, sb.ninodes));
            && s.inodes[ROOTINO].size == |files[ROOTINO]| + BSIZE && Synced(s, ROOTINO) && Ok(s, sb)
            && forall o :: |files[ROOTINO]| <= o < |files[ROOTINO]| + BSIZE ==> !HasRoot(Vol(s, sb), ROOTINO, o)
  {
    hide Load, Vol, Sound, ByteAt, DiskInode, Covers;
    var s, k := State(d, Load(d, sb.ninodes)), |files[ROOTINO]|;
    var v := Vol(s, sb);
    Regions(sb.size, sb.ninodes, ROOTINO, 0);
    forall o | k <= o < k + BSIZE ensures !HasRoot(v, ROOTINO, o) {
      assert o / BSIZE == k / BSIZE && LeafOf(o / BSIZE) == Direct(k / BSIZE);
      assert !HasBlock(v, ROOTINO, k);
    }
  }

  /** A write into that block leaves the root inode on disk without the new address. */
  lemma RootHoleUnsyncs(d: Disk, free: nat, files: seq<seq<Byte>>, sb: Super, s': State, off: nat, src: seq<Byte>)
    requires Mounts(d, free, files, sb) && |files[ROOTINO]| % BSIZE == 0 && |files[ROOTINO]| < NDIRECT * BSIZE
    requires |files[ROOTINO]| <= off && off + |src| <= |files[ROOTINO]| + BSIZE && src != []
    requires Written(State(d, Load(d, sb.ninodes)), s', sb, ROOTINO, off, src)
    ensures !Synced(s', ROOTINO)
  {
    hide Mounts, Load, Vol, Edited, Covers, HasRoot, Ok, Synced;
    MountedVolume(d, free, files, sb);
    RootHole(d, free, files, sb);
    assert !HasRoot(Vol(State(d, Load(d, sb.ninodes)), sb), ROOTINO, off);
  }
}
