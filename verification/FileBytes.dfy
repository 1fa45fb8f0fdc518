/** The bytes of files, and what allocation and block writes do to them. */
module FileBytes {
  import opened Blocks
  import opened FileTree

  ghost predicate HasBlock(v: Volume, f: nat, o: nat)
    requires f < |v.files| && o < MAXBYTES
  {
    NodeOf(v, f, LeafOf(o / BSIZE)) != 0
  }

  /** Bytes a to b of file f all lie in blocks that are there. */
  ghost predicate Covers(v: Volume, f: nat, a: nat, b: nat)
    requires f < |v.files|
  {
    forall o :: a <= o < b && o < MAXBYTES ==> HasBlock(v, f, o)
  }

  /** The position in the inode that leads to a leaf. */
  function RootOf(p: Pos): (r: Pos)
    requires OkPos(p)
    ensures OkPos(r) && IsRoot(r)
  {
    if p.IndLeaf? then IndRoot else if p.DblMid? || p.DblLeaf? then DblRoot else p
  }

  /** addrs[] has an address on the way to byte o, whether or not the byte's own block is there. */
  ghost predicate HasRoot(v: Volume, f: nat, o: nat)
    requires f < |v.files| && o < MAXBYTES
  {
    NodeOf(v, f, RootOf(LeafOf(o / BSIZE))) != 0
  }

  ghost predicate HasRoots(v: Volume, f: nat, a: nat, b: nat)
    requires f < |v.files|
  {
    forall o :: a <= o < b && o < MAXBYTES ==> HasRoot(v, f, o)
  }

  /** A block that is there is reached from addrs[]. */
  lemma BlockNeedsRoot(v: Volume, f: nat, o: nat)
    requires f < |v.files| && o < MAXBYTES && HasBlock(v, f, o)
    ensures HasRoot(v, f, o)
  {
    var p := LeafOf(o / BSIZE);
    if p.DblLeaf? {
      assert NodeOf(v, f, DblMid(p.i)) != 0;
    }
  }

  /** Filling nodes on the way to one block changes at most the one address in the inode that leads there. */
  lemma PathKeepsRoots(v: Volume, v': Volume, f: nat, o: nat)
    requires f < |v.files| && o < MAXBYTES && Extends(v, v', f, PathTo(LeafOf(o / BSIZE)))
    ensures HasRoot(v, f, o) ==> v'.files[f] == v.files[f]
  {
    if HasRoot(v, f, o) {
      forall k: nat | k < NDIRECT + 2 ensures v'.files[f].at[k] == v.files[f].at[k] {
        var r := if k < NDIRECT then Direct(k) else if k == NDIRECT then IndRoot else DblRoot;
        assert KeptAt(v, v', f, PathTo(LeafOf(o / BSIZE)), f, r);
        assert r in PathTo(LeafOf(o / BSIZE)) ==> r == RootOf(LeafOf(o / BSIZE));
        assert NodeOf(v, f, r) == v.files[f].at[k] && NodeOf(v', f, r) == v'.files[f].at[k];
      }
      assert v'.files[f].at == v.files[f].at;
    }
  }

  ghost predicate ByteAfter(v: Volume, v': Volume, f: nat, off: nat, src: seq<Byte>, g: nat, o: nat)
    requires g < |v.files| && g < |v'.files| && o < MAXBYTES
  {
    && ByteAt(v', g, o) == (if g == f && off <= o < off + |src| then src[o - off] else ByteAt(v, g, o))
    && (HasBlock(v, g, o) ==> HasBlock(v', g, o))
  }

  /** Bytes off.. of file f have become src; every other byte of every file is as it was. */
  ghost predicate Edited(v: Volume, v': Volume, f: nat, off: nat, src: seq<Byte>) {
    && f < |v.files| == |v'.files|
    && forall g, o :: 0 <= g < |v.files| && 0 <= o < MAXBYTES ==> ByteAfter(v, v', f, off, src, g, o)
  }

  lemma ExtendsEdited(v: Volume, v': Volume, f: nat, P: set<Pos>, off: nat)
    requires Sound(v) && Sound(v') && Extends(v, v', f, P) && f < |v.files|
    ensures Edited(v, v', f, off, [])
  {
    forall g, o | 0 <= g < |v.files| && 0 <= o < MAXBYTES ensures ByteAfter(v, v', f, off, [], g, o) {
      ExtendsKeepsBytes(v, v', f, P, g, o);
      assert KeptAt(v, v', f, P, g, LeafOf(o / BSIZE));
    }
  }

  lemma EditedThen(v: Volume, v1: Volume, v2: Volume, f: nat, off: nat, a: seq<Byte>, b: seq<Byte>)
    requires Edited(v, v1, f, off, a) && Edited(v1, v2, f, off + |a|, b)
    ensures Edited(v, v2, f, off, a + b)
  {
    hide ByteAt, HasBlock;
    forall g, o | 0 <= g < |v.files| && 0 <= o < MAXBYTES ensures ByteAfter(v, v2, f, off, a + b, g, o) {
      assert ByteAfter(v, v1, f, off, a, g, o);
      assert ByteAfter(v1, v2, f, off + |a|, b, g, o);
    }
  }

  /** memmove into a data block: bytes i.. become src. */
  function Patch(b: Block, i: nat, src: seq<Byte>): (r: Block)
    requires i + |src| <= BSIZE
    ensures forall k :: 0 <= k < BSIZE ==> r.at[k] == if i <= k < i + |src| then src[k - i] else b.at[k]
  {
    Bytes(b.at[..i] + src + b.at[i + |src|..])
  }

  /** Writing part of one data block edits exactly those bytes of that file, and moves no node. */
  lemma PatchEdited(v: Volume, f: nat, off: nat, src: seq<Byte>)
    requires Sound(v) && f < |v.files| && off < MAXBYTES && off % BSIZE + |src| <= BSIZE && HasBlock(v, f, off)
    ensures var a := NodeOf(v, f, LeafOf(off / BSIZE));
            v.lo <= a < |v.d| && a in v.used
            && var v' := v.(d := v.d[a := Patch(v.d[a], off % BSIZE, src)]);
               Sound(v') && Edited(v, v', f, off, src)
               && forall g, q :: 0 <= g < |v.files| && OkPos(q) ==> NodeOf(v', g, q) == NodeOf(v, g, q)
  {
    hide Patch;
    var a := NodeOf(v, f, LeafOf(off / BSIZE));
    assert InUse(v, f, LeafOf(off / BSIZE));
    var blk := Patch(v.d[a], off % BSIZE, src);
    var v' := v.(d := v.d[a := blk]);
    LeafWriteKeeps(v, f, off / BSIZE, blk);
    forall g, o | 0 <= g < |v.files| && 0 <= o < MAXBYTES ensures ByteAfter(v, v', f, off, src, g, o) {
      LeafWriteBytes(v, f, off / BSIZE, blk, g, o);
    }
  }

  /** The first n bytes of file f. */
  ghost function Content(v: Volume, f: nat, n: nat): (r: seq<Byte>)
    requires f < |v.files| && n <= MAXBYTES
    ensures |r| == n
    ensures forall o :: 0 <= o < n ==> r[o] == ByteAt(v, f, o)
  {
    if n == 0 then [] else Content(v, f, n - 1) + [ByteAt(v, f, n - 1)]
  }

  /** A write at off <= n splices src into the file's n bytes, and leaves every other file's bytes alone. */
  lemma EditedContent(v: Volume, v': Volume, f: nat, off: nat, src: seq<Byte>, n: nat)
    requires Edited(v, v', f, off, src) && off <= n <= MAXBYTES && off + |src| <= MAXBYTES
    ensures Content(v', f, if off + |src| > n then off + |src| else n)
              == Content(v, f, n)[..off] + src + (if off + |src| < n then Content(v, f, n)[off + |src|..] else [])
    ensures forall g, k :: 0 <= g < |v.files| && g != f && 0 <= k <= MAXBYTES ==> Content(v', g, k) == Content(v, g, k)
  {
    hide ByteAt, HasBlock, Content;
    forall g, o | 0 <= g < |v.files| && 0 <= o < MAXBYTES
      ensures ByteAt(v', g, o) == (if g == f && off <= o < off + |src| then src[o - off] else ByteAt(v, g, o))
    {
      assert ByteAfter(v, v', f, off, src, g, o);
    }
  }
}
