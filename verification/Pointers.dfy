/** The pointer: a rectangle of pixels drawn over the screen, clipped at its right and bottom edges. */
module Pointers {
  import opened Pixels

  const MW: nat := 14
  const MH: nat := 28

  datatype Pointer = Pointer(x: nat, y: nat, pix: map<(int, int), RGB>)

  /** Index k of the screen lies under a pointer at (x, y). */
  predicate Under(x: nat, y: nat, k: nat) {
    x <= k % W < x + MW && y <= k / W < y + MH
  }

  function PointAt(img: Image, m: Pointer, k: nat): (r: RGB)
    requires k < N
  {
    if Under(m.x, m.y, k) && (k % W - m.x, k / W - m.y) in m.pix then m.pix[(k % W - m.x, k / W - m.y)] else img.at[k]
  }

  /** The image with the pointer over it. */
  ghost function WithPointer(img: Image, m: Pointer): (r: Image)
    ensures forall k :: 0 <= k < N ==> r.at[k] == PointAt(img, m, k)
  {
    Picture(seq(N, k requires 0 <= k < N => PointAt(img, m, k)))
  }

  ghost predicate SameAway(a: Image, b: Image, x: nat, y: nat) {
    forall k :: 0 <= k < N && !Under(x, y, k) ==> a.at[k] == b.at[k]
  }

  lemma PointerAgrees(img: Image, m: Pointer)
    ensures SameAway(WithPointer(img, m), img, m.x, m.y)
  {
    hide Under;
  }
}
