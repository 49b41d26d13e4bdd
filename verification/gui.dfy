/** A GUI: its controls in the order they were loaded and the control that
  * has the focus. Focus follows the mouse; a control is identified by its
  * position in the list. Focus-change notifications, which the screens
  * override, are returned as events. */
module Gui {
  import opened Wrappers
  import opened GuiControl

  datatype Gui = Gui(controls: seq<Control>, focus: Option<nat>)

  predicate Valid(g: Gui) {
    g.focus.Some? ==> g.focus.value < |g.controls|
  }

  /** A notification that the control with `tag` gained or lost focus. */
  datatype FocusEvent = FocusEvent(tag: string, focus: bool)

  /** The tests a caller applies when looking for a control under the
    * mouse: focusable for hovering, clickable for clicks. */
  datatype ControlTest = FocusableTest | ClickableTest

  predicate Passes(c: Control, test: ControlTest) {
    match test
    case FocusableTest => c.focusable
    case ClickableTest => c.clickable
  }

  /** A control that can be hit at (x, y): shown, enabled, passing the test
    * and containing the point. */
  predicate HitAt(c: Control, x: int, y: int, test: ControlTest) {
    c.visible && !c.disabled && Passes(c, test) && Contains(c.extent, x, y)
  }

  /** The control under (x, y): the last loaded one that can be hit there,
    * since later controls are drawn on top. */
  function GetControlAt(controls: seq<Control>, x: int, y: int, test: ControlTest): (r: Option<nat>)
    ensures r.Some? ==> r.value < |controls| && HitAt(controls[r.value], x, y, test)
    ensures r.Some? ==> forall j :: r.value < j < |controls| ==> !HitAt(controls[j], x, y, test)
    ensures r.None? <==> forall j :: 0 <= j < |controls| ==> !HitAt(controls[j], x, y, test)
    decreases |controls|
  {
    if controls == [] then None
    else if HitAt(controls[|controls| - 1], x, y, test) then Some(|controls| - 1)
    else GetControlAt(controls[..|controls| - 1], x, y, test)
  }

  /** Hit-testing depends only on what the controls are at the point, not
    * on their focus flags. */
  lemma {:induction false} GetControlAtIgnoresFocus(a: seq<Control>, b: seq<Control>, x: int, y: int, test: ControlTest)
    requires |a| == |b|
    requires forall i :: 0 <= i < |a| ==> HitAt(a[i], x, y, test) == HitAt(b[i], x, y, test)
    ensures GetControlAt(a, x, y, test) == GetControlAt(b, x, y, test)
    decreases |a|
  {
    if a != [] {
      GetControlAtIgnoresFocus(a[..|a| - 1], b[..|b| - 1], x, y, test);
    }
  }

  datatype FocusUpdate = FocusUpdate(gui: Gui, events: seq<FocusEvent>)

  /** Takes the focus from the focused control: its flag is cleared only
    * if it is still focusable, and the loss is always announced. */
  function Unfocus(g: Gui): (r: FocusUpdate)
    requires Valid(g)
    ensures r.gui.focus.None? && |r.gui.controls| == |g.controls|
    ensures g.focus.None? ==> r == FocusUpdate(g, [])
    ensures g.focus.Some? ==> r.events == [FocusEvent(g.controls[g.focus.value].tag, false)]
    ensures g.focus.Some? && g.controls[g.focus.value].focusable ==> !r.gui.controls[g.focus.value].focus
    ensures forall i :: 0 <= i < |g.controls| && Some(i) != g.focus ==> r.gui.controls[i] == g.controls[i]
    ensures forall i :: 0 <= i < |g.controls| ==> r.gui.controls[i].(focus := g.controls[i].focus) == g.controls[i]
  {
    if g.focus.None? then FocusUpdate(g, [])
    else
      var f := g.focus.value;
      var prev := g.controls[f];
      var controls := if prev.focusable then g.controls[f := SetFocus(prev, false)] else g.controls;
      FocusUpdate(Gui(controls, None), [FocusEvent(prev.tag, false)])
  }

  /** Moves the focus to the focusable control under the mouse. Nothing
    * happens when that is the control already focused; otherwise the old
    * focus is taken away and the new control, if any, is focused. */
  function UpdateFocus(g: Gui, x: int, y: int): (r: FocusUpdate)
    requires Valid(g)
    ensures Valid(r.gui) && |r.gui.controls| == |g.controls|
    ensures r.gui.focus == GetControlAt(g.controls, x, y, FocusableTest)
    ensures GetControlAt(g.controls, x, y, FocusableTest) == g.focus ==> r == FocusUpdate(g, [])
    ensures r.gui.focus.Some? && r.gui.focus != g.focus ==> r.gui.controls[r.gui.focus.value].focus
    ensures GetControlAt(g.controls, x, y, FocusableTest) != g.focus ==>
              r.events == Unfocus(g).events
                          + (if r.gui.focus.Some? then [FocusEvent(g.controls[r.gui.focus.value].tag, true)] else [])
    ensures forall i :: 0 <= i < |g.controls| && Some(i) != g.focus && Some(i) != r.gui.focus ==>
              r.gui.controls[i] == g.controls[i]
    ensures forall i :: 0 <= i < |g.controls| ==> r.gui.controls[i].(focus := g.controls[i].focus) == g.controls[i]
  {
    var hit := GetControlAt(g.controls, x, y, FocusableTest);
    if hit == g.focus then FocusUpdate(g, [])
    else
      var cleared := Unfocus(g);
      if hit.None? then cleared
      else
        var h := hit.value;
        var controls := cleared.gui.controls[h := SetFocus(cleared.gui.controls[h], true)];
        FocusUpdate(Gui(controls, hit), cleared.events + [FocusEvent(g.controls[h].tag, true)])
  }

  /** A second update at the same point changes nothing and announces
    * nothing. */
  lemma UpdateFocusIdempotent(g: Gui, x: int, y: int)
    requires Valid(g)
    ensures UpdateFocus(UpdateFocus(g, x, y).gui, x, y) == FocusUpdate(UpdateFocus(g, x, y).gui, [])
  {
    var r := UpdateFocus(g, x, y).gui;
    assert forall i :: 0 <= i < |g.controls| ==> HitAt(r.controls[i], x, y, FocusableTest) == HitAt(g.controls[i], x, y, FocusableTest) by {
      forall i | 0 <= i < |g.controls|
        ensures HitAt(r.controls[i], x, y, FocusableTest) == HitAt(g.controls[i], x, y, FocusableTest)
      {
        assert r.controls[i].(focus := g.controls[i].focus) == g.controls[i];
      }
    }
    GetControlAtIgnoresFocus(r.controls, g.controls, x, y, FocusableTest);
  }

  /** Clears the focus. */
  function ResetFocus(g: Gui): (r: FocusUpdate)
    requires Valid(g)
    ensures Valid(r.gui) && r.gui.focus.None?
    ensures r == Unfocus(g)
    ensures g.focus.None? <==> r.events == []
  {
    Unfocus(g)
  }

  /** Resetting twice announces the loss of focus only once. */
  lemma ResetFocusTwice(g: Gui)
    requires Valid(g)
    ensures ResetFocus(ResetFocus(g).gui) == FocusUpdate(ResetFocus(g).gui, [])
  {
  }

  /** The first control with the tag; an unknown tag is a runtime error. */
  function GetControl(controls: seq<Control>, tag: string): (r: Result<nat>)
    ensures r.Ok? ==> r.value < |controls| && controls[r.value].tag == tag
    ensures r.Ok? ==> forall j :: 0 <= j < r.value ==> controls[j].tag != tag
    ensures r.Err? <==> forall j :: 0 <= j < |controls| ==> controls[j].tag != tag
    ensures r.Err? ==> r.error == RuntimeError
  {
    if controls == [] then Err(RuntimeError)
    else if controls[0].tag == tag then Ok(0)
    else
      var rest := GetControl(controls[1..], tag);
      if rest.Err? then rest else Ok(rest.value + 1)
  }

  /** Re-anchors a control designed for a `resX` by `resY` layout to a
    * `width` by `height` screen: a coordinate in the far half of the
    * layout keeps its distance to the far edge, one in the near half keeps
    * its distance to the near edge. The size does not change. */
  function PositionRelativeToCenter(e: Extent, resX: int, resY: int, width: int, height: int): (r: Extent)
    ensures r.width == e.width && r.height == e.height
    ensures 2 * e.left >= resX ==> width - r.left == resX - e.left
    ensures 2 * e.left < resX ==> r.left == e.left
    ensures 2 * e.top >= resY ==> height - r.top == resY - e.top
    ensures 2 * e.top < resY ==> r.top == e.top
  {
    var left := if e.left as real >= 0.5 * resX as real then e.left - resX + width else e.left;
    var top := if e.top as real >= 0.5 * resY as real then e.top - resY + height else e.top;
    Extent(left, top, e.width, e.height)
  }

  /** On a screen of the layout's own size nothing moves. */
  lemma PositionRelativeToCenterSameSize(e: Extent, resX: int, resY: int)
    ensures PositionRelativeToCenter(e, resX, resY, resX, resY) == e
  {
  }
}
