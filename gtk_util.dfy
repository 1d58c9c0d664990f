/** GTK helpers: the window disposition chosen from a click's modifier
    flags, and a widget's position and bounds on screen, found by walking
    its parent chain up to the first toplevel window. */
module GtkUtil {

  // ---------------------------------------------------------------------
  // DispositionFromEventFlags

  /** GdkModifierType bits. */
  const GDK_SHIFT_MASK: bv32 := 1
  const GDK_CONTROL_MASK: bv32 := 4
  const GDK_BUTTON2_MASK: bv32 := 0x200

  datatype WindowOpenDisposition =
    CURRENT_TAB | NEW_FOREGROUND_TAB | NEW_BACKGROUND_TAB | NEW_WINDOW | SAVE_TO_DISK

  /** A middle click or a Ctrl-click opens a tab, in the foreground with
      Shift; Shift alone opens a window; anything else stays in the current
      tab (the Alt-to-save branch is switched off by a literal `false`). */
  function DispositionFromEventFlags(eventFlags: bv32): (d: WindowOpenDisposition)
    ensures d == NEW_FOREGROUND_TAB <==>
              (eventFlags & (GDK_BUTTON2_MASK | GDK_CONTROL_MASK) != 0 && eventFlags & GDK_SHIFT_MASK != 0)
    ensures d == NEW_BACKGROUND_TAB <==>
              (eventFlags & (GDK_BUTTON2_MASK | GDK_CONTROL_MASK) != 0 && eventFlags & GDK_SHIFT_MASK == 0)
    ensures d == NEW_WINDOW <==>
              (eventFlags & (GDK_BUTTON2_MASK | GDK_CONTROL_MASK) == 0 && eventFlags & GDK_SHIFT_MASK != 0)
    ensures d == CURRENT_TAB <==>
              eventFlags & (GDK_BUTTON2_MASK | GDK_CONTROL_MASK | GDK_SHIFT_MASK) == 0
    ensures d != SAVE_TO_DISK
  {
    if eventFlags & GDK_BUTTON2_MASK != 0 || eventFlags & GDK_CONTROL_MASK != 0 then
      (if eventFlags & GDK_SHIFT_MASK != 0 then NEW_FOREGROUND_TAB else NEW_BACKGROUND_TAB)
    else if eventFlags & GDK_SHIFT_MASK != 0 then NEW_WINDOW
    else if false then SAVE_TO_DISK
    else CURRENT_TAB
  }

  /** Only the Shift, Control and middle-button bits matter. */
  lemma DispositionIgnoresOtherFlags(a: bv32, b: bv32)
    requires a & (GDK_BUTTON2_MASK | GDK_CONTROL_MASK | GDK_SHIFT_MASK) ==
             b & (GDK_BUTTON2_MASK | GDK_CONTROL_MASK | GDK_SHIFT_MASK)
    ensures DispositionFromEventFlags(a) == DispositionFromEventFlags(b)
  {
    assert a & (GDK_BUTTON2_MASK | GDK_CONTROL_MASK) ==
           (a & (GDK_BUTTON2_MASK | GDK_CONTROL_MASK | GDK_SHIFT_MASK)) & (GDK_BUTTON2_MASK | GDK_CONTROL_MASK);
    assert b & (GDK_BUTTON2_MASK | GDK_CONTROL_MASK) ==
           (b & (GDK_BUTTON2_MASK | GDK_CONTROL_MASK | GDK_SHIFT_MASK)) & (GDK_BUTTON2_MASK | GDK_CONTROL_MASK);
    assert a & GDK_SHIFT_MASK == (a & (GDK_BUTTON2_MASK | GDK_CONTROL_MASK | GDK_SHIFT_MASK)) & GDK_SHIFT_MASK;
    assert b & GDK_SHIFT_MASK == (b & (GDK_BUTTON2_MASK | GDK_CONTROL_MASK | GDK_SHIFT_MASK)) & GDK_SHIFT_MASK;
  }

  // ---------------------------------------------------------------------
  // Widget geometry

  datatype Point = Point(x: int, y: int)
  {
    function Plus(p: Point): Point { Point(x + p.x, y + p.y) }
  }

  datatype Rect = Rect(x: int, y: int, width: int, height: int)

  /** GtkAllocation: the widget's offset within its parent and its size. */
  datatype Allocation = Allocation(x: int, y: int, width: int, height: int)
  {
    function Offset(): Point { Point(x, y) }
  }

  class Widget {
    var allocation: Allocation
    var parent: Widget?
    /** GTK_IS_WINDOW. */
    var isWindow: bool
    /** What gtk_window_get_position reports for a window. */
    var windowPosition: Point

    constructor (allocation: Allocation, parent: Widget?, isWindow: bool, windowPosition: Point)
      ensures this.allocation == allocation && this.parent == parent
      ensures this.isWindow == isWindow && this.windowPosition == windowPosition
    {
      this.allocation := allocation;
      this.parent := parent;
      this.isWindow := isWindow;
      this.windowPosition := windowPosition;
    }
  }

  /** `chain` lists `w` and its ancestors in order, up to the top. */
  ghost predicate IsChain(w: Widget?, chain: seq<Widget>)
    reads chain
    decreases |chain|
  {
    if w == null then chain == []
    else |chain| > 0 && chain[0] == w && IsChain(w.parent, chain[1..])
  }

  /** The screen position of the first widget of a parent chain. */
  ghost function ScreenPosition(chain: seq<Widget>): Point
    reads chain
  {
    if chain == [] then Point(0, 0)
    else if chain[0].isWindow then chain[0].windowPosition
    else chain[0].allocation.Offset().Plus(ScreenPosition(chain[1..]))
  }

  /** The sum of the allocation offsets of `s`, added from the last. */
  ghost function Offsets(s: seq<Widget>): Point
    reads s
  {
    if s == [] then Point(0, 0)
    else Offsets(s[..|s| - 1]).Plus(s[|s| - 1].allocation.Offset())
  }

  ghost predicate NoWindow(s: seq<Widget>)
    reads s
  {
    forall i :: 0 <= i < |s| ==> !s[i].isWindow
  }

  lemma OffsetsCons(w: Widget, s: seq<Widget>)
    ensures Offsets([w] + s) == w.allocation.Offset().Plus(Offsets(s))
    decreases |s|
  {
    if s != [] {
      assert ([w] + s)[..|s|] == [w] + s[..|s| - 1];
      OffsetsCons(w, s[..|s| - 1]);
    }
  }

  /** The screen position is the sum of the offsets of the widget and its
      ancestors below the first window, plus that window's position. */
  lemma {:induction false} ScreenPositionAtWindow(chain: seq<Widget>, k: nat)
    requires k < |chain| && chain[k].isWindow && NoWindow(chain[..k])
    ensures ScreenPosition(chain) == Offsets(chain[..k]).Plus(chain[k].windowPosition)
  {
    if k > 0 {
      assert !chain[..k][0].isWindow;
      assert chain[1..][..k - 1] == chain[..k][1..];
      ScreenPositionAtWindow(chain[1..], k - 1);
      assert chain[..k] == [chain[0]] + chain[1..][..k - 1];
      OffsetsCons(chain[0], chain[1..][..k - 1]);
    }
  }

  /** Without a window among the ancestors the screen position is the sum
      of all their offsets. */
  lemma {:induction false} ScreenPositionWithoutWindow(chain: seq<Widget>)
    requires NoWindow(chain)
    ensures ScreenPosition(chain) == Offsets(chain)
  {
    if chain != [] {
      assert !chain[0].isWindow;
      ScreenPositionWithoutWindow(chain[1..]);
      assert chain == [chain[0]] + chain[1..];
      OffsetsCons(chain[0], chain[1..]);
    }
  }

  /** GetWidgetScreenPosition: accumulates offsets up the parent chain and
      stops at the first window, adding its position. */
  method GetWidgetScreenPosition(widget: Widget, ghost chain: seq<Widget>) returns (p: Point)
    requires IsChain(widget, chain)
    ensures p == ScreenPosition(chain)
  {
    var x, y := 0, 0;
    var parent: Widget? := widget;
    ghost var i := 0;
    while parent != null
      invariant 0 <= i <= |chain|
      invariant IsChain(parent, chain[i..])
      invariant Point(x, y).Plus(ScreenPosition(chain[i..])) == ScreenPosition(chain)
      decreases |chain| - i
    {
      if parent.isWindow {
        var windowPosition := parent.windowPosition;
        x := x + windowPosition.x;
        y := y + windowPosition.y;
        return Point(x, y);
      }
      x := x + parent.allocation.x;
      y := y + parent.allocation.y;
      assert chain[i..][1..] == chain[i + 1..];
      parent := parent.parent;
      i := i + 1;
    }
    return Point(x, y);
  }

  /** GetWidgetScreenBounds: the screen position with the widget's own
      allocated size. */
  method GetWidgetScreenBounds(widget: Widget, ghost chain: seq<Widget>) returns (r: Rect)
    requires IsChain(widget, chain)
    ensures Point(r.x, r.y) == ScreenPosition(chain)
    ensures r.width == widget.allocation.width && r.height == widget.allocation.height
  {
    var position := GetWidgetScreenPosition(widget, chain);
    return Rect(position.x, position.y, widget.allocation.width, widget.allocation.height);
  }
}
