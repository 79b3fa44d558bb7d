/**
 * The per-axis mark table of both widgets: one AxisMeasurement record per
 * axis, each with a min, a mid and a max mark that start unset.
 */
module Axes {
  import opened Wrappers

  datatype Axis = X | Y | Z

  /**
   * AxisMeasurement: None stands for the quiet NaN a mark holds until it is
   * first set.
   */
  datatype AxisMeasurement = AxisMeasurement(min: Option<real>, mid: Option<real>, max: Option<real>)

  const Unmarked := AxisMeasurement(None, None, None)

  /** The field a mark button writes. */
  datatype MarkField = MinMark | MidMark | MaxMark

  /**
   * The button markPosition was called from: one of an axis panel's three
   * mark buttons, or any other sender, for which the mark type is "".
   */
  datatype MarkButton = MarkPressed(field: MarkField) | OtherSender

  function FieldOf(m: AxisMeasurement, f: MarkField): Option<real> {
    match f
    case MinMark => m.min
    case MidMark => m.mid
    case MaxMark => m.max
  }

  /**
   * The record after the button has stored v: the button's field holds v,
   * every other field is as before, and another sender changes nothing.
   */
  function Mark(m: AxisMeasurement, button: MarkButton, v: real): (r: AxisMeasurement)
    ensures button.MarkPressed? ==> FieldOf(r, button.field) == Some(v)
    ensures forall f: MarkField :: !(button.MarkPressed? && button.field == f) ==> FieldOf(r, f) == FieldOf(m, f)
  {
    match button
    case OtherSender => m
    case MarkPressed(MinMark) => m.(min := Some(v))
    case MarkPressed(MidMark) => m.(mid := Some(v))
    case MarkPressed(MaxMark) => m.(max := Some(v))
  }

  /** Marking is last-wins per field and independent across fields. */
  lemma MarkOverwrites(m: AxisMeasurement, f: MarkField, g: MarkField, v: real, w: real)
    ensures f == g ==> Mark(Mark(m, MarkPressed(f), v), MarkPressed(g), w) == Mark(m, MarkPressed(g), w)
    ensures f != g ==>
      Mark(Mark(m, MarkPressed(f), v), MarkPressed(g), w) == Mark(Mark(m, MarkPressed(g), w), MarkPressed(f), v)
  {
    MarkDetermined(Mark(Mark(m, MarkPressed(f), v), MarkPressed(g), w),
                   if f == g then Mark(m, MarkPressed(g), w) else Mark(Mark(m, MarkPressed(g), w), MarkPressed(f), v));
  }

  /** A record is determined by its three fields. */
  lemma MarkDetermined(a: AxisMeasurement, b: AxisMeasurement)
    requires forall f: MarkField :: FieldOf(a, f) == FieldOf(b, f)
    ensures a == b
  {
    assert FieldOf(a, MinMark) == FieldOf(b, MinMark);
    assert FieldOf(a, MidMark) == FieldOf(b, MidMark);
    assert FieldOf(a, MaxMark) == FieldOf(b, MaxMark);
  }
}
