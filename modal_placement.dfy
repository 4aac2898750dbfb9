/**
 * Where the event modal opens (`calculateModalPosition`): centred on a
 * phone; otherwise beside the clicked cell, flipped to its left when it would
 * cross the right edge, and kept 10px inside the top and left edges.
 */
module ModalPlacement {
  import opened JsMath
  import opened Breakpoint

  /** The anchor's `DOMRect`: the parts the placer reads. */
  datatype Rect = Rect(left: real, top: real, width: real, height: real)

  datatype ModalPosition = ModalPosition(x: real, y: real)

  const ModalHeight: real := 500.0
  const Padding: real := 10.0

  /** The modal's width for the viewport's size class. */
  function ModalWidth(viewport: BreakpointState): (w: real)
    ensures w <= 448.0
    ensures !viewport.isMobile ==> 400.0 <= w
    ensures viewport.isMobile ==> w <= 360.0 && w + 20.0 <= viewport.width as real
  {
    if viewport.isMobile then Min(viewport.width as real - 20.0, 360.0)
    else if viewport.isTablet then 400.0
    else 448.0
  }

  /**
   * The placement in closed form: each axis is its preferred position, moved
   * once when the modal would cross the far edge, then raised to the padding;
   * on every screen the modal starts at least 10px from the top and left edges.
   */
  function Placement(rect: Rect, viewport: BreakpointState): (p: ModalPosition)
    ensures p.x >= Padding && p.y >= Padding
  {
    var width := viewport.width as real;
    var height := viewport.height as real;
    var modalWidth := ModalWidth(viewport);
    if viewport.isMobile then
      ModalPosition((width - modalWidth) / 2.0, Max(Padding, (height - ModalHeight) / 2.0))
    else
      var beside := rect.left + rect.width + Padding;
      var across := if beside + modalWidth > width then rect.left - modalWidth - Padding else beside;
      var down := if rect.top + ModalHeight > height then height - ModalHeight - Padding else rect.top;
      ModalPosition(Max(Padding, across), Max(Padding, down))
  }

  /** `calculateModalPosition`, step by step on its locals. */
  method CalculateModalPosition(rect: Rect, viewport: BreakpointState) returns (pos: ModalPosition)
    ensures pos == Placement(rect, viewport)
  {
    var width := viewport.width as real;
    var height := viewport.height as real;
    var modalWidth: real;
    if viewport.isMobile {
      modalWidth := Min(width - 20.0, 360.0);
    } else if viewport.isTablet {
      modalWidth := 400.0;
    } else {
      modalWidth := 448.0;
    }
    var x: real;
    var y: real;
    if viewport.isMobile {
      x := (width - modalWidth) / 2.0;
      y := Max(Padding, (height - ModalHeight) / 2.0);
    } else {
      x := rect.left + rect.width + Padding;
      y := rect.top;
      if x + modalWidth > width {
        x := rect.left - modalWidth - Padding;
      }
      if x < Padding {
        x := Padding;
      }
      if y + ModalHeight > height {
        y := height - ModalHeight - Padding;
      }
      if y < Padding {
        y := Padding;
      }
    }
    pos := ModalPosition(x, y);
  }

  /** The width per size class: capped at 360 and 20 short of the screen on a phone, 400 on a tablet, 448 on a desktop. */
  lemma ModalWidthByClass(width: int, height: int)
    ensures var v := Classify(width, height);
      && (width < 768 ==> ModalWidth(v) == Min(width as real - 20.0, 360.0) && ModalWidth(v) <= 360.0)
      && (768 <= width < 1024 ==> ModalWidth(v) == 400.0)
      && (1024 <= width ==> ModalWidth(v) == 448.0)
  {
  }

  /** On a phone the modal is centred across and (at least 10px down) vertically, wherever the click was. */
  lemma MobileCentred(rect: Rect, other: Rect, viewport: BreakpointState)
    requires viewport.isMobile
    ensures var p := Placement(rect, viewport);
      && (viewport.width as real) - (p.x + ModalWidth(viewport)) == p.x
      && p.y == Max(10.0, (viewport.height as real - 500.0) / 2.0)
      && p == Placement(other, viewport)
  {
  }

  /** With room on the right, the modal opens 10px right of the cell. */
  lemma OpensBeside(rect: Rect, viewport: BreakpointState)
    requires !viewport.isMobile
    requires 0.0 <= rect.left + rect.width
    requires rect.left + rect.width + 10.0 + ModalWidth(viewport) <= viewport.width as real
    ensures Placement(rect, viewport).x == rect.left + rect.width + 10.0
  {
  }

  /** Without room on the right, it opens 10px left of the cell, but not past the padding. */
  lemma FlipsLeft(rect: Rect, viewport: BreakpointState)
    requires !viewport.isMobile
    requires rect.left + rect.width + 10.0 + ModalWidth(viewport) > viewport.width as real
    ensures Placement(rect, viewport).x == Max(10.0, rect.left - ModalWidth(viewport) - 10.0)
  {
  }

  /** A cell whose modal fits below it keeps the modal at its own top. */
  lemma KeepsTop(rect: Rect, viewport: BreakpointState)
    requires !viewport.isMobile
    requires 10.0 <= rect.top && rect.top + 500.0 <= viewport.height as real
    ensures Placement(rect, viewport).y == rect.top
  {
  }

  /** A modal that would cross the bottom edge is raised to end 10px above it, but not past the top padding. */
  lemma RaisedFromBottom(rect: Rect, viewport: BreakpointState)
    requires !viewport.isMobile
    requires rect.top + 500.0 > viewport.height as real
    ensures Placement(rect, viewport).y == Max(10.0, viewport.height as real - 510.0)
  {
  }

  /** In a window at least 520px tall, the modal's bottom edge stays on screen. */
  lemma BottomOnScreen(rect: Rect, viewport: BreakpointState)
    requires !viewport.isMobile && viewport.height >= 520
    ensures Placement(rect, viewport).y + 500.0 <= viewport.height as real
  {
  }

  /** A 320×600 phone places the modal at (10, 50). */
  lemma PhoneExample(rect: Rect)
    ensures Placement(rect, Classify(320, 600)) == ModalPosition(10.0, 50.0)
  {
  }

  /** On a 1200×800 desktop a cell at left 1100, width 100, top 50 flips the modal to (642, 50). */
  lemma DesktopFlipExample()
    ensures Placement(Rect(1100.0, 50.0, 100.0, 40.0), Classify(1200, 800)) == ModalPosition(642.0, 50.0)
  {
  }

  /** In a 1024×400 window the top padding wins: the modal starts at 10 and its bottom, at 510, is past the edge. */
  lemma ShortWindowExample(rect: Rect)
    requires rect.top + 500.0 > 400.0
    ensures Placement(rect, Classify(1024, 400)).y == 10.0
    ensures Placement(rect, Classify(1024, 400)).y + 500.0 > 400.0
  {
  }
}
