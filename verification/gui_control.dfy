/** A GUI control's geometry and border state: its extent (hit-testing,
  * centre, stretching to a new resolution) and which border colour it is
  * drawn with. Textures are named, not loaded. */
module GuiControl {
  import opened Wrappers
  import opened Arith

  datatype Extent = Extent(left: int, top: int, width: int, height: int)

  /** A point hits an extent when it lies within it, all four edges
    * included. */
  predicate Contains(e: Extent, x: int, y: int) {
    e.left <= x <= e.left + e.width && e.top <= y <= e.top + e.height
  }

  /** The four corners of an extent of non-negative size hit it; a point
    * one step outside any edge does not. */
  lemma ContainsEdges(e: Extent, x: int, y: int)
    requires e.width >= 0 && e.height >= 0
    ensures Contains(e, e.left, e.top) && Contains(e, e.left + e.width, e.top + e.height)
    ensures Contains(e, e.left, e.top + e.height) && Contains(e, e.left + e.width, e.top)
    ensures !Contains(e, e.left - 1, y) && !Contains(e, e.left + e.width + 1, y)
    ensures !Contains(e, x, e.top - 1) && !Contains(e, x, e.top + e.height + 1)
  {
  }

  datatype Point = Point(x: int, y: int)

  /** The centre, with the half-sizes rounded toward zero. */
  function GetCenter(e: Extent): (c: Point)
    ensures e.width >= 0 ==> 0 <= 2 * (c.x - e.left) <= e.width && e.width - 2 * (c.x - e.left) <= 1
    ensures e.height >= 0 ==> 0 <= 2 * (c.y - e.top) <= e.height && e.height - 2 * (c.y - e.top) <= 1
    ensures e.width < 0 ==> e.width <= 2 * (c.x - e.left) <= 0 && 2 * (c.x - e.left) - e.width <= 1
    ensures e.height < 0 ==> e.height <= 2 * (c.y - e.top) <= 0 && 2 * (c.y - e.top) - e.height <= 1
  {
    Point(e.left + TruncDiv(e.width, 2), e.top + TruncDiv(e.height, 2))
  }

  /** The centre of an extent of non-negative size hits the extent. */
  lemma CenterInside(e: Extent)
    requires e.width >= 0 && e.height >= 0
    ensures Contains(e, GetCenter(e).x, GetCenter(e).y)
  {
  }

  /** Which extent fields a stretch scales. */
  datatype StretchMask = StretchMask(left: bool, top: bool, width: bool, height: bool)

  const StretchAll := StretchMask(true, true, true, true)

  /** `n` is `v` with its fraction dropped, rounding toward zero. */
  predicate RoundedTowardZero(n: int, v: real) {
    (v >= 0.0 ==> 0 <= n && n as real <= v < n as real + 1.0)
    && (v < 0.0 ==> n <= 0 && n as real - 1.0 < v <= n as real)
  }

  /** Scales the selected fields, horizontal ones by `x` and vertical ones
    * by `y`, dropping the fraction; the other fields keep their values. */
  function Stretch(e: Extent, x: real, y: real, mask: StretchMask): (r: Extent)
    ensures mask.left ==> RoundedTowardZero(r.left, e.left as real * x)
    ensures mask.top ==> RoundedTowardZero(r.top, e.top as real * y)
    ensures mask.width ==> RoundedTowardZero(r.width, e.width as real * x)
    ensures mask.height ==> RoundedTowardZero(r.height, e.height as real * y)
    ensures !mask.left ==> r.left == e.left
    ensures !mask.top ==> r.top == e.top
    ensures !mask.width ==> r.width == e.width
    ensures !mask.height ==> r.height == e.height
  {
    Extent(
      if mask.left then TruncReal(e.left as real * x) else e.left,
      if mask.top then TruncReal(e.top as real * y) else e.top,
      if mask.width then TruncReal(e.width as real * x) else e.width,
      if mask.height then TruncReal(e.height as real * y) else e.height)
  }

  /** Stretching by one in both directions, or with nothing selected,
    * leaves the extent as it was. */
  lemma StretchIdentity(e: Extent, x: real, y: real, mask: StretchMask)
    ensures Stretch(e, 1.0, 1.0, mask) == e
    ensures Stretch(e, x, y, StretchMask(false, false, false, false)) == e
  {
    TruncRealOfInt(e.left);
    TruncRealOfInt(e.top);
    TruncRealOfInt(e.width);
    TruncRealOfInt(e.height);
  }

  /** Stretching a non-negative size by a non-negative factor gives a
    * non-negative size no larger than the exact product. */
  lemma StretchSizeBounds(e: Extent, x: real, y: real, mask: StretchMask)
    requires e.width >= 0 && e.height >= 0 && x >= 0.0 && y >= 0.0
    ensures 0 <= Stretch(e, x, y, mask).width && Stretch(e, x, y, mask).width as real <= (if mask.width then e.width as real * x else e.width as real)
    ensures 0 <= Stretch(e, x, y, mask).height && Stretch(e, x, y, mask).height as real <= (if mask.height then e.height as real * y else e.height as real)
  {
    NonNegProduct(e.width as real, x);
    NonNegProduct(e.height as real, y);
  }

  lemma NonNegProduct(a: real, b: real)
    requires a >= 0.0 && b >= 0.0
    ensures a * b >= 0.0
  {
  }

  datatype Color = Color(r: real, g: real, b: real)

  /** A border: its fill texture, if any, and its colour. Corner and edge
    * textures are not modelled. */
  datatype Border = Border(fill: Option<string>, color: Color)

  datatype Control = Control(
    tag: string,
    extent: Extent,
    visible: bool,
    disabled: bool,
    focusable: bool,
    clickable: bool,
    focus: bool,
    border: Option<Border>,
    hilight: Option<Border>,
    borderColorOverride: Color,
    useBorderColorOverride: bool)

  /** Reading the border colour dereferences the border unless the
    * override or the hilight supplies it. */
  predicate HasBorderColor(c: Control) {
    c.useBorderColorOverride || (c.focus && c.hilight.Some?) || c.border.Some?
  }

  /** The override when it is in use; otherwise the hilight colour of a
    * focused control with a hilight; otherwise the border colour. */
  function GetBorderColor(c: Control): (color: Color)
    requires HasBorderColor(c)
    ensures c.useBorderColorOverride ==> color == c.borderColorOverride
    ensures !c.useBorderColorOverride && c.focus && c.hilight.Some? ==> color == c.hilight.value.color
    ensures !c.useBorderColorOverride && !(c.focus && c.hilight.Some?) ==> color == c.border.value.color
  {
    if c.useBorderColorOverride then c.borderColorOverride
    else if c.focus && c.hilight.Some? then c.hilight.value.color
    else c.border.value.color
  }

  function SetFocus(c: Control, focus: bool): (r: Control)
    ensures r.focus == focus && r.(focus := c.focus) == c
  {
    c.(focus := focus)
  }

  /** Sets the override colour and whether it is used. */
  function SetBorderColorOverride(c: Control, color: Color, use: bool): (r: Control)
    ensures r.borderColorOverride == color && r.useBorderColorOverride == use
    ensures r.(borderColorOverride := c.borderColorOverride, useBorderColorOverride := c.useBorderColorOverride) == c
  {
    c.(borderColorOverride := color, useBorderColorOverride := use)
  }

  /** Sets the colour of an existing border; the engine does not check
    * that the control has one. */
  function SetBorderColor(c: Control, color: Color): (r: Control)
    requires c.border.Some?
    ensures r.border == Some(c.border.value.(color := color))
    ensures r.(border := c.border) == c
  {
    c.(border := Some(c.border.value.(color := color)))
  }

  /** Sets or clears the border fill. Clearing keeps the rest of the
    * border and does nothing without one; setting creates a border of the
    * given default colour when the control has none. */
  function SetBorderFill(c: Control, texture: Option<string>, defaultColor: Color): (r: Control)
    ensures r.border.Some? <==> c.border.Some? || texture.Some?
    ensures r.border.Some? ==> r.border.value.fill == texture
    ensures c.border.Some? ==> r.border.value.color == c.border.value.color
    ensures c.border.None? && texture.Some? ==> r.border.value.color == defaultColor
    ensures r.(border := c.border) == c
  {
    if texture.None? && c.border.Some? then c.(border := Some(c.border.value.(fill := None)))
    else if texture.Some? then
      var border := if c.border.Some? then c.border.value else Border(None, defaultColor);
      c.(border := Some(border.(fill := texture)))
    else c
  }

  /** Sets the hilight colour, creating a hilight without fill when the
    * control has none. */
  function SetHilightColor(c: Control, color: Color): (r: Control)
    ensures r.hilight.Some? && r.hilight.value.color == color
    ensures r.hilight.value.fill == (if c.hilight.Some? then c.hilight.value.fill else None)
    ensures r.(hilight := c.hilight) == c
  {
    var hilight := if c.hilight.Some? then c.hilight.value else Border(None, color);
    c.(hilight := Some(hilight.(color := color)))
  }

  /** Once a hilight colour is set, a focused control is drawn in it unless
    * the override is in use, and an unfocused one in its border colour. */
  lemma HilightShowsWhenFocused(c: Control, color: Color)
    requires !c.useBorderColorOverride
    ensures GetBorderColor(SetFocus(SetHilightColor(c, color), true)) == color
    ensures c.border.Some? ==> GetBorderColor(SetFocus(SetHilightColor(c, color), false)) == c.border.value.color
  {
  }

  /** An override in use wins over every other colour. */
  lemma OverrideWins(c: Control, color: Color, focus: bool, hilight: Color)
    ensures GetBorderColor(SetFocus(SetHilightColor(SetBorderColorOverride(c, color, true), hilight), focus)) == color
  {
  }

  /** Clearing the fill twice is the same as clearing it once, and setting
    * then clearing leaves a border without fill. */
  lemma BorderFillClearing(c: Control, texture: string, defaultColor: Color)
    ensures SetBorderFill(SetBorderFill(c, None, defaultColor), None, defaultColor) == SetBorderFill(c, None, defaultColor)
    ensures var r := SetBorderFill(SetBorderFill(c, Some(texture), defaultColor), None, defaultColor);
            r.border.Some? && r.border.value.fill.None?
  {
  }
}
