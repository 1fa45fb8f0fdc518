/**
 src/gui.c's three buffers, repainted in full or in part.  They lie one after the other in video
 memory, so a drawing that leaves its buffer is seen in the next one.
 */
module Gui {
  import opened Pixels
  import opened Scenes
  import opened Pointers

  const TEMP1: nat := N
  const TEMP2: nat := 2 * N

  function Buffer(v: seq<RGB>, o: nat): (r: Image)
    requires o + N <= |v|
  {
    Picture(v[o..o + N])
  }

  /** The two memories agree from a up to b. */
  ghost predicate SameOn(v: seq<RGB>, v': seq<RGB>, a: nat, b: nat) {
    |v| == |v'| && forall q :: a <= q < b && q < |v| ==> v'[q] == v[q]
  }

  lemma SameBuffer(v: seq<RGB>, v': seq<RGB>, o: nat)
    requires o + N <= |v| && SameOn(v, v', o, o + N)
    ensures Buffer(v', o) == Buffer(v, o)
  {
    assert v'[o..o + N] == v[o..o + N];
  }

  // Drawing

  /** Video memory after the first n points of a sprite drawn into the buffer at o. */
  function Paint(v: seq<RGB>, o: nat, s: Sprite, n: nat): (r: seq<RGB>)
    requires n <= |s.dots|
    ensures |r| == |v|
  {
    if n == 0 then v else
      var p, q := Paint(v, o, s, n - 1), o + Flat(s, s.dots[n - 1].i, s.dots[n - 1].j);
      if 0 <= q < |v| then p[q := s.dots[n - 1].color] else p
  }

  lemma {:induction false} PaintAt(v: seq<RGB>, o: nat, s: Sprite, n: nat, q: nat)
    requires n <= |s.dots| && q < |v|
    ensures Paint(v, o, s, n)[q] == Over(v[q], s, q - o, n)
  {
    if n > 0 {
      PaintAt(v, o, s, n - 1, q);
    }
  }

  /** What a drawing does to the buffer it is meant for, and to the one before it. */
  lemma PaintBuffers(v: seq<RGB>, o: nat, s: Sprite)
    requires o + N <= |v|
    ensures Buffer(Paint(v, o, s, |s.dots|), o) == Overlay(Buffer(v, o), s)
    ensures o >= N ==> Buffer(Paint(v, o, s, |s.dots|), o - N) == Spill(Buffer(v, o - N), s)
  {
    hide Over, Paint, Overlay, Spill;
    var v' := Paint(v, o, s, |s.dots|);
    forall k | 0 <= k < N ensures Buffer(v', o).at[k] == Over(Buffer(v, o).at[k], s, k, |s.dots|) {
      PaintAt(v, o, s, |s.dots|, o + k);
    }
    ImageEqual(Buffer(v', o), Overlay(Buffer(v, o), s));
    if o >= N {
      var a := o - N;
      forall k | 0 <= k < N ensures Buffer(v', a).at[k] == Spill(Buffer(v, a), s).at[k] {
        PaintAt(v, o, s, |s.dots|, a + k);
      }
      ImageEqual(Buffer(v', a), Spill(Buffer(v, a), s));
    }
  }

  /** drawWindow and the widgets of one window: its points, in order. */
  method DrawInto(video: array<RGB>, o: nat, s: Sprite)
    modifies video
    ensures video[..] == Paint(old(video[..]), o, s, |s.dots|)
  {
    var n := 0;
    while n < |s.dots|
      invariant 0 <= n <= |s.dots| && video[..] == Paint(old(video[..]), o, s, n)
    {
      var t := o + Flat(s, s.dots[n].i, s.dots[n].j);
      if 0 <= t < video.Length {
        video[t] := s.dots[n].color;
      }
      n := n + 1;
    }
  }

  // Erasing

  /** One pixel of temp2 copied from temp1. */
  function CopyPixel(v: seq<RGB>, f: int): (r: seq<RGB>)
    ensures |r| == |v|
  {
    if 0 <= TEMP1 + f && TEMP2 + f < |v| then v[TEMP2 + f := v[TEMP1 + f]] else v
  }

  /** removeLastWindow's inner loop: the first n pixels of row j. */
  function EraseRow(v: seq<RGB>, s: Sprite, j: int, n: nat): (r: seq<RGB>)
    ensures |r| == |v|
  {
    if n == 0 then v else CopyPixel(EraseRow(v, s, j, n - 1), Flat(s, n - 2, j))
  }

  /** Its outer loop: the first m rows. */
  function EraseRows(v: seq<RGB>, s: Sprite, m: nat): (r: seq<RGB>)
    ensures |r| == |v|
  {
    if m == 0 then v else EraseRow(EraseRows(v, s, m - 1), s, m - 2, s.w + 2)
  }

  /** removeLastWindow: the frame copied from temp1 to temp2. */
  method EraseFrame(video: array<RGB>, s: Sprite)
    modifies video
    ensures video[..] == EraseRows(old(video[..]), s, s.h + 2)
  {
    hide CopyPixel;
    var j := -1;
    while j <= s.h
      invariant -1 <= j <= s.h + 1 && video[..] == EraseRows(old(video[..]), s, j + 1)
    {
      ghost var v := video[..];
      var t, i := Flat(s, -1, j), -1;
      while i <= s.w
        invariant -1 <= i <= s.w + 1 && t == Flat(s, i, j) && video[..] == EraseRow(v, s, j, i + 1)
      {
        CopyOne(video, t);
        t, i := t + 1, i + 1;
      }
      j := j + 1;
    }
  }

  method CopyOne(video: array<RGB>, f: int)
    modifies video
    ensures video[..] == CopyPixel(old(video[..]), f)
  {
    if 0 <= TEMP1 + f && TEMP2 + f < video.Length {
      video[TEMP2 + f] := video[TEMP1 + f];
    }
  }

  /** A row narrower than a buffer is copied as it was. */
  lemma {:induction false} EraseRowAt(v: seq<RGB>, s: Sprite, j: int, n: nat, q: nat)
    requires n <= s.w + 2 <= N && 0 <= TEMP1 + Flat(s, -1, j) && TEMP2 + Flat(s, s.w, j) < |v| && q < |v|
    ensures EraseRow(v, s, j, n)[q]
              == if TEMP2 + Flat(s, -1, j) <= q < TEMP2 + Flat(s, -1, j) + n then v[q - N] else v[q]
  {
    if n > 0 {
      EraseRowAt(v, s, j, n - 1, q);
      EraseRowAt(v, s, j, n - 1, TEMP1 + Flat(s, n - 2, j));
    }
  }

  ghost predicate InRows(s: Sprite, k: int, m: nat) {
    exists j: int :: -1 <= j <= m - 2 && InRow(s, j, k)
  }

  lemma BelowFrame(s: Sprite, k: int, m: nat)
    requires Fits(s) && k < 0
    ensures !InRows(s, k, m)
  {
  }

  /** A frame inside the buffer: its pixels come from temp1, and nothing else changes. */
  lemma {:induction false} EraseRowsAt(v: seq<RGB>, s: Sprite, m: nat, q: nat)
    requires Fits(s) && m <= s.h + 2 && 3 * N <= |v| && q < |v|
    ensures EraseRows(v, s, m)[q] == if InRows(s, q - TEMP2, m) then v[q - N] else v[q]
  {
    if m > 0 {
      var j := m - 2;
      assert Flat(s, -1, -1) <= Flat(s, -1, j) && Flat(s, s.w, j) <= Flat(s, s.w, s.h);
      EraseRowsAt(v, s, m - 1, q);
      EraseRowAt(EraseRows(v, s, m - 1), s, j, s.w + 2, q);
      if InRow(s, j, q - TEMP2) {
        EraseRowsAt(v, s, m - 1, q - N);
        BelowFrame(s, q - N - TEMP2, m - 1);
      }
      hide EraseRow, InRow;
      assert InRows(s, q - TEMP2, m) <==> InRows(s, q - TEMP2, m - 1) || InRow(s, j, q - TEMP2);
    }
  }

  lemma EraseBuffers(v: seq<RGB>, s: Sprite)
    requires Fits(s) && 3 * N <= |v|
    ensures var v' := EraseRows(v, s, s.h + 2);
            Buffer(v', TEMP2) == Restore(Buffer(v, TEMP2), Buffer(v, TEMP1), s) && SameOn(v, v', 0, TEMP2)
  {
    hide EraseRows, Restore, Fits, InRow;
    var v' := EraseRows(v, s, s.h + 2);
    forall k | 0 <= k < N
      ensures Buffer(v', TEMP2).at[k] == if InFrame(s, k) then Buffer(v, TEMP1).at[k] else Buffer(v, TEMP2).at[k]
    {
      EraseRowsAt(v, s, s.h + 2, TEMP2 + k);
    }
    ImageEqual(Buffer(v', TEMP2), Restore(Buffer(v, TEMP2), Buffer(v, TEMP1), s));
    forall q | 0 <= q < TEMP2 ensures v'[q] == v[q] {
      EraseRowsAt(v, s, s.h + 2, q);
      if InFrame(s, q - TEMP2) {
        FrameInside(s, q - TEMP2);
      }
    }
  }

  // The pointer

  /** Row r of the pointer's rectangle has been passed up to column c. */
  ghost predicate Passed(x: nat, y: nat, k: nat, c: int, r: int) {
    Under(x, y, k) && (k / W - y < r || (k / W - y == r && k % W - x < c))
  }

  lemma PassedNext(x: nat, y: nat, k: nat, c: nat, r: nat)
    requires c < MW && r < MH && x + c < W && y + r < H && k < N
    ensures Passed(x, y, k, c + 1, r) <==> Passed(x, y, k, c, r) || k == (y + r) * W + x + c
    ensures !Passed(x, y, (y + r) * W + x + c, c, r) && (y + r) * W + x + c < N
    ensures ((y + r) * W + x + c) % W == x + c && ((y + r) * W + x + c) / W == y + r && Under(x, y, (y + r) * W + x + c)
  {
  }

  lemma PassedEdges(x: nat, y: nat, k: nat, c: nat, r: nat)
    requires k < N
    ensures !Passed(x, y, k, 0, 0)
    ensures c >= MW || x + c >= W ==> (Passed(x, y, k, 0, r + 1) <==> Passed(x, y, k, c, r))
    ensures r >= MH || y + r >= H ==> (Passed(x, y, k, 0, r) <==> Under(x, y, k))
  {
  }

  /** drawMouse: the pointer's pixels, row by row, stopping at the edges of the screen. */
  method DrawMouse(video: array<RGB>, m: Pointer)
    requires video.Length >= N
    modifies video
    ensures Buffer(video[..], 0) == WithPointer(old(Buffer(video[..], 0)), m) && SameOn(old(video[..]), video[..], N, video.Length)
  {
    hide Passed, Under, WithPointer;
    ghost var v, img := video[..], Buffer(video[..], 0);
    forall k | 0 <= k < N ensures !Passed(m.x, m.y, k, 0, 0) {
      PassedEdges(m.x, m.y, k, 0, 0);
    }
    var r := 0;
    while r < MH && m.y + r < H
      invariant 0 <= r <= MH
      invariant forall k :: 0 <= k < N ==> video[k] == if Passed(m.x, m.y, k, 0, r) then PointAt(img, m, k) else img.at[k]
      invariant SameOn(v, video[..], N, |v|)
    {
      DrawMouseRow(video, m, r, img);
      r := r + 1;
    }
    forall k | 0 <= k < N ensures Buffer(video[..], 0).at[k] == PointAt(img, m, k) {
      PassedEdges(m.x, m.y, k, 0, r);
    }
    ImageEqual(Buffer(video[..], 0), WithPointer(img, m));
  }

  method DrawMouseRow(video: array<RGB>, m: Pointer, r: nat, ghost img: Image)
    requires video.Length >= N && r < MH && m.y + r < H
    requires forall k :: 0 <= k < N ==> video[k] == if Passed(m.x, m.y, k, 0, r) then PointAt(img, m, k) else img.at[k]
    modifies video
    ensures var r1 := r + 1;
            forall k :: 0 <= k < N ==> video[k] == if Passed(m.x, m.y, k, 0, r1) then PointAt(img, m, k) else img.at[k]
    ensures SameOn(old(video[..]), video[..], N, video.Length)
  {
    hide Passed, Under;
    var t, c := (m.y + r) * W + m.x, 0;
    while c < MW && m.x + c < W
      invariant 0 <= c <= MW && t == (m.y + r) * W + m.x + c
      invariant forall k :: 0 <= k < N ==> video[k] == if Passed(m.x, m.y, k, c, r) then PointAt(img, m, k) else img.at[k]
      invariant SameOn(old(video[..]), video[..], N, video.Length)
    {
      ghost var c1 := c + 1;
      PassedNext(m.x, m.y, 0, c, r);
      forall k | 0 <= k < N ensures Passed(m.x, m.y, k, c1, r) <==> Passed(m.x, m.y, k, c, r) || k == t {
        PassedNext(m.x, m.y, k, c, r);
      }
      if (c, r) in m.pix {
        video[t] := m.pix[(c, r)];
      }
      t, c := t + 1, c + 1;
    }
    ghost var r1 := r + 1;
    forall k | 0 <= k < N ensures Passed(m.x, m.y, k, 0, r1) <==> Passed(m.x, m.y, k, c, r) {
      PassedEdges(m.x, m.y, k, c, r);
    }
  }

  /** removeMouse: what was under the pointer, copied back from the last composed picture. */
  method RemoveMouse(video: array<RGB>, x: nat, y: nat)
    requires video.Length >= 3 * N && SameAway(Buffer(video[..], 0), Buffer(video[..], TEMP2), x, y)
    modifies video
    ensures Buffer(video[..], 0) == Buffer(video[..], TEMP2) && SameOn(old(video[..]), video[..], N, video.Length)
  {
    hide Passed, Under;
    ghost var v, img, shown := video[..], Buffer(video[..], 0), Buffer(video[..], TEMP2);
    forall k | 0 <= k < N ensures !Passed(x, y, k, 0, 0) {
      PassedEdges(x, y, k, 0, 0);
    }
    var r := 0;
    while r < MH && y + r < H
      invariant 0 <= r <= MH
      invariant forall k :: 0 <= k < N ==> video[k] == if Passed(x, y, k, 0, r) then shown.at[k] else img.at[k]
      invariant SameOn(v, video[..], N, |v|)
    {
      RemoveMouseRow(video, x, y, r, img, shown, v);
      r := r + 1;
    }
    forall k | 0 <= k < N ensures Buffer(video[..], 0).at[k] == shown.at[k] {
      PassedEdges(x, y, k, 0, r);
    }
    ImageEqual(Buffer(video[..], 0), shown);
    SameBuffer(v, video[..], TEMP2);
  }

  method RemoveMouseRow(video: array<RGB>, x: nat, y: nat, r: nat, ghost img: Image, ghost shown: Image, ghost v: seq<RGB>)
    requires video.Length >= 3 * N && r < MH && y + r < H && SameOn(v, video[..], N, |v|) && shown == Buffer(v, TEMP2)
    requires forall k :: 0 <= k < N ==> video[k] == if Passed(x, y, k, 0, r) then shown.at[k] else img.at[k]
    modifies video
    ensures var r1 := r + 1;
            forall k :: 0 <= k < N ==> video[k] == if Passed(x, y, k, 0, r1) then shown.at[k] else img.at[k]
    ensures SameOn(v, video[..], N, |v|)
  {
    hide Passed, Under;
    var t, c := (y + r) * W + x, 0;
    while c < MW && x + c < W
      invariant 0 <= c <= MW && t == (y + r) * W + x + c
      invariant forall k :: 0 <= k < N ==> video[k] == if Passed(x, y, k, c, r) then shown.at[k] else img.at[k]
      invariant SameOn(v, video[..], N, |v|)
    {
      ghost var c1 := c + 1;
      PassedNext(x, y, 0, c, r);
      forall k | 0 <= k < N ensures Passed(x, y, k, c1, r) <==> Passed(x, y, k, c, r) || k == t {
        PassedNext(x, y, k, c, r);
      }
      assert video[TEMP2 + t] == shown.at[t];
      video[t] := video[TEMP2 + t];
      t, c := t + 1, c + 1;
    }
    ghost var r1 := r + 1;
    forall k | 0 <= k < N ensures Passed(x, y, k, 0, r1) <==> Passed(x, y, k, c, r) {
      PassedEdges(x, y, k, c, r);
    }
  }

  // Whole buffers

  /** memmove of a whole buffer to another. */
  method CopyBuffer(video: array<RGB>, dst: nat, src: nat)
    requires dst + N <= video.Length && src + N <= video.Length && (dst + N <= src || src + N <= dst)
    modifies video
    ensures Buffer(video[..], dst) == old(Buffer(video[..], src))
    ensures SameOn(old(video[..]), video[..], 0, dst) && SameOn(old(video[..]), video[..], dst + N, video.Length)
  {
    forall k | 0 <= k < N {
      video[dst + k] := video[src + k];
    }
    forall k | 0 <= k < N ensures Buffer(video[..], dst).at[k] == old(Buffer(video[..], src)).at[k] {
      assert video[dst + k] == old(video[src + k]);
    }
    ImageEqual(Buffer(video[..], dst), old(Buffer(video[..], src)));
  }

  method ClearBuffer(video: array<RGB>, o: nat)
    requires o + N <= video.Length
    modifies video
    ensures Buffer(video[..], o) == Black()
  {
    hide Black;
    forall k | 0 <= k < N {
      video[o + k] := RGB(0, 0, 0);
    }
    forall k | 0 <= k < N ensures Buffer(video[..], o).at[k] == RGB(0, 0, 0) {
      assert video[o + k] == RGB(0, 0, 0);
    }
    ImageEqual(Buffer(video[..], o), Black());
  }

  class Display {
    const video: array<RGB>     // screen, screen_temp1, screen_temp2 and whatever lies behind them
    var windows: seq<Win>
    var mouse: Pointer
    var drawnX: nat
    var drawnY: nat

    constructor (video: array<RGB>, windows: seq<Win>, mouse: Pointer)
      ensures this.video == video && this.windows == windows && this.mouse == mouse
    {
      this.video, this.windows, this.mouse := video, windows, mouse;
      drawnX, drawnY := 0, 0;
    }

    predicate Sized() {
      3 * N <= video.Length
    }

    ghost function Screen(): Image
      requires Sized()
      reads this, video
    {
      Buffer(video[..], 0)
    }

    ghost function Temp1(): Image
      requires Sized()
      reads this, video
    {
      Buffer(video[..], TEMP1)
    }

    ghost function Temp2(): Image
      requires Sized()
      reads this, video
    {
      Buffer(video[..], TEMP2)
    }

    /** The back windows' picture, and the frame the last window was drawn in. */
    ghost predicate Kept()
      requires Sized() && windows != []
      reads this, video
    {
      && Temp1() == Backdrop(windows[..|windows| - 1])
      && AgreeOutside(Temp2(), Temp1(), OldFrame(windows[|windows| - 1]))
    }

    /** temp2 holds the whole scene, and the screen shows it with the pointer where it is. */
    ghost predicate Current()
      requires Sized() && windows != []
      reads this, video
    {
      && Temp2() == Scene(windows) && Screen() == WithPointer(Scene(windows), mouse)
      && mouse.x == drawnX && mouse.y == drawnY
    }

    /** The end of both repaints: temp2 to the screen, then the pointer. */
    method Present()
      requires Sized()
      modifies video, `drawnX, `drawnY
      ensures Screen() == WithPointer(Temp2(), mouse) && SameOn(old(video[..]), video[..], N, video.Length)
      ensures mouse.x == drawnX && mouse.y == drawnY
    {
      hide WithPointer;
      ghost var v := video[..];
      CopyBuffer(video, 0, TEMP2);
      ghost var v1 := video[..];
      DrawMouse(video, mouse);
      drawnX, drawnY := mouse.x, mouse.y;
      assert SameOn(v, video[..], N, |v|);
      SameBuffer(v, video[..], TEMP2);
    }

    /** drawLastWindow: into temp2, spilling into temp1 what lies above it; last_leftTop is where it was drawn. */
    method DrawLastWindow()
      requires Sized() && windows != []
      modifies video, `windows
      ensures var n := |old(windows)| - 1;
              && windows == old(windows)[n := Drawn(old(windows)[n])]
              && Temp2() == Overlay(old(Temp2()), Face(windows[n], true)) && Temp1() == Spill(old(Temp1()), Face(windows[n], true))
    {
      hide Overlay, Spill, Paint;
      var n := |windows| - 1;
      PaintBuffers(video[..], TEMP2, Face(windows[n], true));
      DrawInto(video, TEMP2, Face(windows[n], true));
      windows := windows[n := Drawn(windows[n])];
    }

    /**
     updateBackWindows: everything from scratch, whatever the buffers held.  The screen shows every window,
     and the buffers are fit for repainting the last one if its frame is inside its buffer.
     With no window queued drawBackWindows follows a null link.
     */
    method UpdateBackWindows() returns (ok: bool)
      requires Sized()
      modifies this, video
      ensures ok <==> old(windows) != []
      ensures mouse == old(mouse)
      ensures ok ==> windows == old(windows)[|old(windows)| - 1 := Drawn(old(windows)[|old(windows)| - 1])] && Current()
      ensures ok ==> Temp1() == Spill(Backdrop(windows[..|windows| - 1]), Face(windows[|windows| - 1], true))
      ensures ok && Tidy(windows[|windows| - 1]) ==> Kept()
    {
      hide Overlay, Spill, WithPointer, AgreeOutside, Fits, Framed, Paint;
      if windows == [] {
        return false;
      }
      var n := |windows| - 1;
      ClearBuffer(video, TEMP1);
      var i := 0;
      while i < n
        invariant 0 <= i <= n && windows == old(windows) && mouse == old(mouse) && Temp1() == Backdrop(windows[..i])
      {
        assert windows[..i + 1][..i] == windows[..i];
        PaintBuffers(video[..], TEMP1, Face(windows[i], false));
        DrawInto(video, TEMP1, Face(windows[i], false));
        i := i + 1;
      }
      ghost var v := video[..];
      CopyBuffer(video, TEMP2, TEMP1);
      SameBuffer(v, video[..], TEMP1);
      DrawLastWindow();
      assert windows[..n] == old(windows)[..n];
      ghost var v1 := video[..];
      Present();
      SameBuffer(v1, video[..], TEMP1);
      SameBuffer(v1, video[..], TEMP2);
      if Tidy(windows[n]) {
        TidyKeeps(Backdrop(windows[..n]), windows[n]);
      }
      return true;
    }

    /**
     updateLastWindow: the old frame erased and the last window drawn.  The result is the full redraw if the
     buffers were kept and the old frame is inside its buffer.
     */
    method UpdateLastWindow()
      requires Sized() && windows != []
      modifies this, video
      ensures mouse == old(mouse) && windows == old(windows)[|old(windows)| - 1 := Drawn(old(windows)[|old(windows)| - 1])]
      ensures Temp2() == Repainted(old(video[..]), old(windows)[|old(windows)| - 1]) && Screen() == WithPointer(Temp2(), mouse)
      ensures old(Kept()) && Fits(OldFrame(old(windows)[|old(windows)| - 1])) ==>
                && Current() && Temp1() == Spill(Backdrop(windows[..|windows| - 1]), Face(windows[|windows| - 1], true))
                && (Tidy(windows[|windows| - 1]) ==> Kept())
    {
      hide Overlay, Restore, Spill, WithPointer, AgreeOutside, Fits, Framed, Backdrop, EraseRows, Tidy;
      var n := |windows| - 1;
      ghost var v, old1 := video[..], OldFrame(windows[n]);
      if Kept() && Fits(old1) {
        RestoreUndoes(Temp2(), Temp1(), old1);
        EraseBuffers(v, old1);
      }
      EraseFrame(video, OldFrame(windows[n]));
      if old(Kept()) && Fits(old1) {
        SameBuffer(v, video[..], TEMP1);
      }
      DrawLastWindow();
      assert windows[..n] == old(windows)[..n];
      ghost var v1 := video[..];
      Present();
      SameBuffer(v1, video[..], TEMP1);
      SameBuffer(v1, video[..], TEMP2);
      if Tidy(windows[n]) {
        TidyKeeps(Backdrop(windows[..n]), windows[n]);
      }
    }

    /** moveWindow on the last window: clamped, then repainted if asked. */
    method MoveWindow(fx: int, fy: int, tx: int, ty: int, isdraw: bool)
      requires Sized() && windows != []
      modifies this, video
      ensures var n := |old(windows)| - 1;
              var win := Moved(old(windows)[n], tx - fx, ty - fy);
              && windows == old(windows)[n := if isdraw then Drawn(win) else win] && mouse == old(mouse)
              && (isdraw ==> Temp2() == Repainted(old(video[..]), win) && Screen() == WithPointer(Temp2(), mouse))
      ensures old(Kept()) && !isdraw ==> Kept()
      ensures old(Kept()) && Fits(OldFrame(old(windows)[|old(windows)| - 1])) && isdraw ==>
                Current() && (Tidy(windows[|windows| - 1]) ==> Kept())
    {
      hide WithPointer, AgreeOutside, Fits, Framed, Backdrop, Moved, Overlay, EraseRows, Tidy, Spill;
      var n := |windows| - 1;
      windows := windows[n := Moved(windows[n], tx - fx, ty - fy)];
      assert windows[..n] == old(windows)[..n];
      if isdraw {
        UpdateLastWindow();
      }
    }

    /** A drag of the last window that stays inside: after every move the screen is what a full redraw would show. */
    method Drag(moves: seq<(int, int)>)
      requires Sized() && windows != [] && Kept() && Framed(Face(windows[|windows| - 1], true))
      requires StaysInside(windows[|windows| - 1], moves)
      modifies this, video
      ensures windows == old(windows)[|old(windows)| - 1 := Dragged(old(windows)[|old(windows)| - 1], moves)] && Kept()
      ensures moves != [] ==> Current()
    {
      hide WithPointer, AgreeOutside, Fits, Framed, Backdrop, Moved, Overlay, Spill;
      ghost var n, win := |windows| - 1, windows[|windows| - 1];
      var m := 0;
      assert moves[..0] == [];
      while m < |moves|
        invariant 0 <= m <= |moves| && windows == old(windows)[n := Dragged(win, moves[..m])] && Kept()
        invariant m > 0 ==> Current()
      {
        assert moves[..m + 1][..m] == moves[..m];
        FramedAnywhere(win, Dragged(win, moves[..m + 1]));
        MoveWindow(0, 0, moves[m].0, moves[m].1, true);
        TidyDrawn(windows[n]);
        m := m + 1;
      }
      assert moves[..m] == moves;
    }

    /** updateMouse: the pointer moved without recomposing the windows. */
    method UpdateMouse(m: Pointer)
      requires Sized() && windows != [] && Current()
      modifies this, video
      ensures windows == old(windows) && mouse == m && Current() && Temp1() == old(Temp1()) && Temp2() == old(Temp2())
    {
      hide WithPointer, Backdrop, Overlay, SameAway;
      ghost var v := video[..];
      PointerAgrees(Temp2(), mouse);
      mouse := m;
      RemoveMouse(video, drawnX, drawnY);
      ghost var v1 := video[..];
      SameBuffer(v, v1, TEMP2);
      SameBuffer(v, v1, TEMP1);
      DrawMouse(video, mouse);
      drawnX, drawnY := mouse.x, mouse.y;
      SameBuffer(v1, video[..], TEMP2);
      SameBuffer(v1, video[..], TEMP1);
    }
  }

  /** temp2 after an incremental repaint of memory v. */
  ghost function Repainted(v: seq<RGB>, win: Win): (r: Image)
    requires 3 * N <= |v|
  {
    Overlay(Buffer(EraseRows(v, OldFrame(win), win.h + 2), TEMP2), Face(win, true))
  }

  /** The window draws inside its frame, and its frame is inside the buffer. */
  ghost predicate Tidy(win: Win) {
    Framed(Face(win, true)) && Fits(Face(win, true))
  }

  lemma TidyKeeps(back: Image, win: Win)
    requires Tidy(win) && win.lastX == win.x && win.lastY == win.y
    ensures Spill(back, Face(win, true)) == back && AgreeOutside(Overlay(back, Face(win, true)), back, OldFrame(win))
  {
    hide Overlay, Spill, InFrame, AgreeOutside, Fits, Framed;
    NothingSpills(back, Face(win, true));
    OverlayAgrees(back, Face(win, true));
    SameFrame(Overlay(back, Face(win, true)), back, Face(win, true), OldFrame(win));
  }

  lemma TidyDrawn(win: Win)
    requires win.lastX == win.x && win.lastY == win.y && Framed(Face(win, true)) && Fits(OldFrame(win))
    ensures Tidy(win)
  {
  }

  // A window at the top edge

  const WHITE := RGB(255, 255, 255)

  /** A window as high as the screen allows below its top edge, with one point in the row above it and one in its last row. */
  const TALL: Win := Win(100, 0, 100, 0, 10, H - 1, true, [Dot(-1, -1, WHITE), Dot(-1, H - 1, WHITE)], [])

  /** The pixel of the last row left of the window. */
  const CORNER: nat := (H - 1) * W + 99

  /** Rows below the first leave alone what lies before them. */
  lemma {:induction false} LaterRows(v: seq<RGB>, m: nat)
    requires 1 <= m <= H + 1 && 3 * N + W <= |v|
    ensures EraseRows(v, OldFrame(TALL), m)[TEMP1 + CORNER] == EraseRows(v, OldFrame(TALL), 1)[TEMP1 + CORNER]
  {
    hide EraseRow;
    if m > 1 {
      LaterRows(v, m - 1);
      EraseRowAt(EraseRows(v, OldFrame(TALL), m - 1), OldFrame(TALL), m - 2, 12, TEMP1 + CORNER);
    }
  }

  /** Erasing the window reads the corner from temp1 after writing it there from the screen. */
  lemma CornerFromScreen(v: seq<RGB>)
    requires 3 * N + W <= |v|
    ensures EraseRows(v, OldFrame(TALL), H + 1)[TEMP2 + CORNER] == v[CORNER]
  {
    hide EraseRow, EraseRows;
    var s := OldFrame(TALL);
    UnfoldRows(v, s, H + 1);
    UnfoldRows(v, s, 1);
    LaterRows(v, H);
    EraseRowAt(EraseRows(v, s, H), s, H - 1, 12, TEMP2 + CORNER);
    EraseRowAt(EraseRows(v, s, 0), s, -1, 12, TEMP1 + CORNER);
  }

  lemma UnfoldRows(v: seq<RGB>, s: Sprite, m: nat)
    requires m > 0
    ensures EraseRows(v, s, m) == EraseRow(EraseRows(v, s, m - 1), s, m - 2, s.w + 2) && EraseRows(v, s, 0) == v
  {
  }

  /** What the window puts at the corner: its own point, and after a move to the right nothing. */
  lemma TallCorner()
    ensures Scene([TALL]).at[CORNER] == WHITE && Spill(Black(), Face(TALL, true)).at[CORNER] == WHITE
    ensures forall img: Image :: Overlay(img, Face(TALL.(x := 110), true)).at[CORNER] == img.at[CORNER]
    ensures Moved(TALL, 10, 0) == TALL.(x := 110)
  {
    hide Overlay, Spill;
    var s, t := Face(TALL, true), Face(TALL.(x := 110), true);
    assert Flat(s, -1, H - 1) == CORNER && Flat(s, -1, -1) == CORNER - N;
    assert Hit(s, CORNER, 2) == 1 && Hit(s, CORNER - N, 2) == 0 && Hit(t, CORNER, 2) == -1;
  }

  /** A full redraw after the move leaves the corner black, an incremental one as it was in temp2. */
  lemma CornerAfterMove(v: seq<RGB>)
    requires 3 * N + W <= |v|
    ensures Scene([Drawn(Moved(TALL, 10, 0))]).at[CORNER] == RGB(0, 0, 0)
    ensures Repainted(v, Moved(TALL, 10, 0)).at[CORNER] == v[CORNER]
  {
    hide EraseRows, Overlay, Spill, Black, Moved;
    TallCorner();
    CornerFromScreen(v);
    assert [Drawn(Moved(TALL, 10, 0))][..0] == [];
    assert Buffer(EraseRows(v, OldFrame(TALL), H + 1), TEMP2).at[CORNER] == v[CORNER];
  }

  /**
   The only window stands at the top edge.  Drawing it damages the last row of temp1, and after one move
   to the right the screen is not what a full redraw would show: a point stays behind.
   */
  method PointStaysBehind(video: array<RGB>) returns (d: Display)
    requires video.Length >= 3 * N + W
    modifies video
    ensures d.Sized() && d.windows == [Drawn(Moved(TALL, 10, 0))]
    ensures d.Temp2().at[CORNER] == WHITE && Scene(d.windows).at[CORNER] == RGB(0, 0, 0)
  {
    hide WithPointer, PointAt, Repainted, Scene, Moved, Overlay, Spill, Black;
    TallCorner();
    d := new Display(video, [TALL], Pointer(0, 0, map[]));
    var ok := d.UpdateBackWindows();
    ghost var v := video[..];
    NoPixels(Scene([TALL]), d.mouse, CORNER);
    assert d.windows == [TALL] && d.Screen() == WithPointer(Scene([TALL]), d.mouse);
    assert v[CORNER] == d.Screen().at[CORNER] == PointAt(Scene([TALL]), d.mouse, CORNER) == WHITE;
    CornerAfterMove(v);
    d.MoveWindow(0, 0, 10, 0, true);
    assert d.windows == [Drawn(Moved(TALL, 10, 0))];
  }

  lemma NoPixels(img: Image, m: Pointer, k: nat)
    requires k < N && m.pix == map[]
    ensures PointAt(img, m, k) == img.at[k]
  {
  }
}
