/** Pixels, and drawings made of points (src/gui.c): an image is W * H pixels, row by row. */
module Pixels {
  const W: nat := 1280
  const H: nat := 1024
  const N: nat := W * H

  datatype RGB = RGB(r: int, g: int, b: int)
  datatype Picture = Picture(at: seq<RGB>)
  type Image = p: Picture | |p.at| == N witness Picture(seq(N, _ => RGB(0, 0, 0)))

  /** One drawPoint of a window: its column and row, counted from the window's top left corner. */
  datatype Dot = Dot(i: int, j: int, color: RGB)

  /** A drawing at (x, y): its points, in drawing order. */
  datatype Sprite = Sprite(x: int, y: int, w: nat, h: nat, dots: seq<Dot>)

  /** The offset of column i and row j of the drawing from the start of the buffer it is drawn into. */
  function Flat(s: Sprite, i: int, j: int): (k: int) {
    (s.y + j) * W + s.x + i
  }

  /** Every point lies in the frame -1..w by -1..h. */
  predicate Framed(s: Sprite) {
    forall d :: 0 <= d < |s.dots| ==> -1 <= s.dots[d].i <= s.w && -1 <= s.dots[d].j <= s.h
  }

  ghost predicate InFrame(s: Sprite, k: int) {
    exists j: int :: -1 <= j <= s.h && InRow(s, j, k)
  }

  predicate InRow(s: Sprite, j: int, k: int) {
    Flat(s, -1, j) <= k <= Flat(s, s.w, j)
  }

  /** The whole frame is inside the buffer. */
  predicate Fits(s: Sprite) {
    0 <= Flat(s, -1, -1) && Flat(s, s.w, s.h) < N
  }

  lemma FramedHits(s: Sprite, d: nat)
    requires Framed(s) && d < |s.dots|
    ensures InFrame(s, Flat(s, s.dots[d].i, s.dots[d].j))
  {
    assert InRow(s, s.dots[d].j, Flat(s, s.dots[d].i, s.dots[d].j));
  }

  lemma FrameInside(s: Sprite, k: int)
    requires Fits(s) && InFrame(s, k)
    ensures 0 <= k < N
  {
    var j :| -1 <= j <= s.h && InRow(s, j, k);
    assert Flat(s, -1, -1) <= Flat(s, -1, j) && Flat(s, s.w, j) <= Flat(s, s.w, s.h);
  }

  /** The last of the first n points at offset k, -1 if there is none. */
  function Hit(s: Sprite, k: int, n: nat): (d: int)
    requires n <= |s.dots|
    ensures -1 <= d < n
    ensures d >= 0 ==> Flat(s, s.dots[d].i, s.dots[d].j) == k
    ensures d < 0 ==> forall e :: 0 <= e < n ==> Flat(s, s.dots[e].i, s.dots[e].j) != k
  {
    if n == 0 then -1 else if Flat(s, s.dots[n - 1].i, s.dots[n - 1].j) == k then n - 1 else Hit(s, k, n - 1)
  }

  /** What the first n points leave at offset k. */
  function Over(under: RGB, s: Sprite, k: int, n: nat): (r: RGB)
    requires n <= |s.dots|
  {
    var d := Hit(s, k, n); if d >= 0 then s.dots[d].color else under
  }

  lemma OverOutside(under: RGB, s: Sprite, k: int)
    requires Framed(s) && !InFrame(s, k)
    ensures Over(under, s, k, |s.dots|) == under
  {
    var d := Hit(s, k, |s.dots|);
    if d >= 0 {
      FramedHits(s, d);
    }
  }

  /** An image that lies `shift` pixels behind the buffer the sprite is drawn into, with what lands in it. */
  ghost function OverlayAt(img: Image, s: Sprite, shift: int): (r: Image)
    ensures forall k :: 0 <= k < N ==> r.at[k] == Over(img.at[k], s, k + shift, |s.dots|)
  {
    Picture(seq(N, k requires 0 <= k < N => Over(img.at[k], s, k + shift, |s.dots|)))
  }

  /** The image with the sprite drawn into it; what falls outside is not seen. */
  ghost function Overlay(img: Image, s: Sprite): (r: Image)
    ensures forall k :: 0 <= k < N ==> r.at[k] == Over(img.at[k], s, k, |s.dots|)
  {
    OverlayAt(img, s, 0)
  }

  /** What drawing into the next buffer does to the one before it: screen, temp1 and temp2 lie one after the other. */
  ghost function Spill(img: Image, s: Sprite): (r: Image)
    ensures forall k :: 0 <= k < N ==> r.at[k] == Over(img.at[k], s, k - N, |s.dots|)
  {
    OverlayAt(img, s, 0 - N)
  }

  /** dst with the sprite's frame copied from src. */
  ghost function Restore(dst: Image, src: Image, s: Sprite): (r: Image)
    ensures forall k :: 0 <= k < N ==> r.at[k] == if InFrame(s, k) then src.at[k] else dst.at[k]
  {
    Picture(seq(N, k requires 0 <= k < N => if InFrame(s, k) then src.at[k] else dst.at[k]))
  }

  ghost function Black(): (r: Image)
    ensures forall k :: 0 <= k < N ==> r.at[k] == RGB(0, 0, 0)
  {
    Picture(seq(N, _ => RGB(0, 0, 0)))
  }

  /** The two images differ at most inside the sprite's frame. */
  ghost predicate AgreeOutside(a: Image, b: Image, s: Sprite) {
    forall k :: 0 <= k < N && !InFrame(s, k) ==> a.at[k] == b.at[k]
  }

  lemma ImageEqual(a: Image, b: Image)
    requires forall k :: 0 <= k < N ==> a.at[k] == b.at[k]
    ensures a == b
  {
    assert a.at == b.at;
  }

  /** Copying the old frame back undoes a drawing confined to it. */
  lemma RestoreUndoes(dst: Image, src: Image, s: Sprite)
    requires AgreeOutside(dst, src, s)
    ensures Restore(dst, src, s) == src
  {
    hide InFrame;
    ImageEqual(Restore(dst, src, s), src);
  }

  lemma OverlayAgrees(img: Image, s: Sprite)
    requires Framed(s)
    ensures AgreeOutside(Overlay(img, s), img, s)
  {
    hide InFrame, Framed, Over;
    forall k | 0 <= k < N && !InFrame(s, k) ensures Overlay(img, s).at[k] == img.at[k] {
      OverOutside(img.at[k], s, k);
    }
  }

  /** A drawing whose frame fits leaves the buffer before it alone. */
  lemma NothingSpills(img: Image, s: Sprite)
    requires Framed(s) && Fits(s)
    ensures Spill(img, s) == img
  {
    hide InFrame, Framed, Over, Fits;
    forall k | 0 <= k < N ensures Spill(img, s).at[k] == img.at[k] {
      if InFrame(s, k - N) {
        FrameInside(s, k - N);
      } else {
        OverOutside(img.at[k], s, k - N);
      }
    }
    ImageEqual(Spill(img, s), img);
  }
}
