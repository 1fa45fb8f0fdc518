/** Windows and the pictures of them that gui.c keeps. */
module Scenes {
  import opened Pixels

  /** A window: where it is, where it was last drawn, and its points with and without the focus. */
  datatype Win = Win(x: int, y: int, lastX: int, lastY: int, w: nat, h: nat, show: bool, front: seq<Dot>, back: seq<Dot>)

  function Face(win: Win, focus: bool): (s: Sprite) {
    Sprite(win.x, win.y, win.w, win.h, if !win.show then [] else if focus then win.front else win.back)
  }

  /** The frame the window occupied when it was last drawn. */
  function OldFrame(win: Win): (s: Sprite) {
    Sprite(win.lastX, win.lastY, win.w, win.h, [])
  }

  function Drawn(win: Win): (r: Win) {
    win.(lastX := win.x, lastY := win.y)
  }

  /** The windows drawn from the back to the front, none focused. */
  ghost function Backdrop(ws: seq<Win>): (r: Image) {
    if ws == [] then Black() else Overlay(Backdrop(ws[..|ws| - 1]), Face(ws[|ws| - 1], false))
  }

  /** What the screen should show: every window, the last one focused. */
  ghost function Scene(ws: seq<Win>): (r: Image)
    requires ws != []
  {
    Overlay(Backdrop(ws[..|ws| - 1]), Face(ws[|ws| - 1], true))
  }

  /** What window i draws: the last window has the focus. */
  function Points(ws: seq<Win>, i: nat): (r: seq<Dot>)
    requires i < |ws|
  {
    if i == |ws| - 1 then ws[i].front else ws[i].back
  }

  /** The last point of window i at pixel k, -1 if it is hidden or has none there. */
  function Covers(ws: seq<Win>, i: nat, k: int): (d: int)
    requires i < |ws|
    ensures d >= 0 ==> ws[i].show && d < |Points(ws, i)|
  {
    var s := Face(ws[i], i == |ws| - 1); Hit(s, k, |s.dots|)
  }

  lemma {:induction false} BackdropPixel(ws: seq<Win>, i: int, k: nat)
    requires k < N && -1 <= i < |ws| && forall j :: i < j < |ws| ==> Hit(Face(ws[j], false), k, |Face(ws[j], false).dots|) < 0
    ensures i < 0 ==> Backdrop(ws).at[k] == RGB(0, 0, 0)
    ensures i >= 0 ==>
              var s := Face(ws[i], false); var d := Hit(s, k, |s.dots|); d >= 0 ==> Backdrop(ws).at[k] == s.dots[d].color
    decreases |ws|
  {
    hide Hit, Face;
    if 0 < |ws| && i < |ws| - 1 {
      BackdropPixel(ws[..|ws| - 1], i, k);
    }
  }

  /** Every pixel of the scene shows the topmost shown window that has a point there, and is black if none has. */
  lemma ScenePixel(ws: seq<Win>, i: int, k: nat)
    requires k < N && -1 <= i < |ws| && ws != [] && (forall j :: i < j < |ws| ==> Covers(ws, j, k) < 0) && (i >= 0 ==> Covers(ws, i, k) >= 0)
    ensures Scene(ws).at[k] == if i < 0 then RGB(0, 0, 0) else Points(ws, i)[Covers(ws, i, k)].color
  {
    hide Hit, Backdrop;
    var most := ws[..|ws| - 1];
    if i < |ws| - 1 {
      assert Covers(ws, |ws| - 1, k) < 0;
      forall j | i < j < |most| ensures Hit(Face(most[j], false), k, |Face(most[j], false).dots|) < 0 {
        assert Covers(ws, j, k) < 0;
      }
      BackdropPixel(most, i, k);
    }
  }

  // moveWindow

  /** moveWindow's new position, its four clamps in order. */
  function Moved(win: Win, dx: int, dy: int): (r: Win)
    ensures r == win.(x := r.x, y := r.y)
  {
    var dx1 := if win.x + dx < 0 then -win.x else dx;
    var dy1 := if win.y + dy < 0 then -win.y else dy;
    var dx2 := if win.x + win.w + dx1 >= W then W - (win.x + win.w) else dx1;
    var dy2 := if win.y + win.h + dy1 >= H then H - (win.y + win.h) else dy1;
    win.(x := win.x + dx2, y := win.y + dy2)
  }

  function Clamp(z: int, top: nat): (r: nat)
    ensures r <= top && (0 <= z <= top ==> r == z)
  {
    if z < 0 then 0 else if z > top then top else z
  }

  /** The window goes where it is dragged, cut off at the edges: the left and top ones first, so a larger window sticks out there. */
  lemma MovedOnScreen(win: Win, dx: int, dy: int)
    ensures var r := Moved(win, dx, dy);
            && r.x == (if win.w <= W then Clamp(win.x + dx, W - win.w) else W - win.w)
            && r.y == (if win.h <= H then Clamp(win.y + dy, H - win.h) else H - win.h)
    ensures var r := Moved(win, dx, dy);
            (0 <= r.x && r.x + win.w <= W <==> win.w <= W) && (0 <= r.y && r.y + win.h <= H <==> win.h <= H)
  {
  }

  /** After a drag the frame is inside the buffer exactly when the drag asks for rows 1 to H - 2, away from the two corners. */
  lemma MovedFitsIff(win: Win, dx: int, dy: int)
    requires win.w < W && win.h <= H
    ensures var tx, ty := win.x + dx, win.y + dy;
            Fits(Face(Moved(win, dx, dy), true)) <==>
              && (ty >= 2 || (ty == 1 && tx >= 1))
              && (ty + win.h <= H - 2 || (ty + win.h == H - 1 && tx + win.w <= W - 1))
  {
    MovedOnScreen(win, dx, dy);
  }

  // The incremental repaint

  /** updateLastWindow on the two off-screen buffers: erase the old frame, draw the window. */
  ghost function Repaint(back: Image, shown: Image, win: Win): (r: Image) {
    Overlay(Restore(shown, back, OldFrame(win)), Face(win, true))
  }

  /** A window draws inside its frame, wherever it stands. */
  lemma FramedAnywhere(a: Win, b: Win)
    requires Framed(Face(a, true)) && b == a.(x := b.x, y := b.y, lastX := b.lastX, lastY := b.lastY)
    ensures Framed(Face(b, true))
  {
  }

  lemma RepaintIsRedraw(back: Image, shown: Image, win: Win)
    requires AgreeOutside(shown, back, OldFrame(win)) && Framed(Face(win, true))
    ensures Repaint(back, shown, win) == Overlay(back, Face(win, true))
    ensures AgreeOutside(Repaint(back, shown, win), back, OldFrame(Drawn(win)))
  {
    RestoreUndoes(shown, back, OldFrame(win));
    OverlayAgrees(back, Face(win, true));
    SameFrame(Overlay(back, Face(win, true)), back, Face(win, true), OldFrame(Drawn(win)));
  }

  lemma SameFrame(a: Image, b: Image, s: Sprite, t: Sprite)
    requires AgreeOutside(a, b, s) && t == s.(dots := t.dots)
    ensures AgreeOutside(a, b, t)
  {
    forall k | 0 <= k < N && !InFrame(t, k) ensures a.at[k] == b.at[k] {
      if j: int :| -1 <= j <= s.h && InRow(s, j, k) {
        assert InRow(t, j, k);
      }
    }
  }

  // Drags

  /** The window after a drag: each move clamped, then drawn. */
  function Dragged(win: Win, moves: seq<(int, int)>): (r: Win)
    ensures r == win.(x := r.x, y := r.y, lastX := r.lastX, lastY := r.lastY)
  {
    if moves == [] then win
    else
      var before := Dragged(win, moves[..|moves| - 1]);
      Drawn(Moved(before, moves[|moves| - 1].0, moves[|moves| - 1].1))
  }

  /** No position of the drag has its frame leave the buffer. */
  ghost predicate StaysInside(win: Win, moves: seq<(int, int)>) {
    forall n :: 0 <= n <= |moves| ==> Fits(OldFrame(Dragged(win, moves[..n])))
  }
}
