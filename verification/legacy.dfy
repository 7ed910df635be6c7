/**
 The earlier paired-value controls: two editable numbers with plus/minus
 buttons and a slider between them (script.js, handleValueButtonClick,
 handleEditableValueBlur, updateValueAndSlider). Setting one number sets
 the other to 100 minus it and moves the slider to the right-hand number.
 */
module Legacy {
  import opened Wrappers
  import opened Allocation

  /** Two displayed numbers and the slider position of one pair. */
  datatype Control = Control(left: int, right: int, slider: int) {
    function Values(): Pair {
      Pair(left, right)
    }
  }

  /** The numbers add up to 100 and the slider sits at the right number. */
  predicate Synced(c: Control) {
    c.left + c.right == 100 && c.slider == c.right
  }

  /** updateValueAndSlider: the named number becomes `v`, the other one
      100 - v, and the slider follows (it shows 100 - left, or right). */
  function UpdateValue(c: Control, side: Side, v: int): (r: Control)
    ensures Synced(r)
    ensures r.Values().Get(side) == v
  {
    if side.Left? then Control(v, 100 - v, 100 - v) else Control(100 - v, v, v)
  }

  /** The value after a button press: plus caps at 100, minus floors
      at 0. */
  function Bump(current: int, n: Nudge): (r: int)
    ensures 0 <= current <= 100 ==> r == Clamp(current + n.Delta())
  {
    if n.Plus? then (if current + 5 > 100 then 100 else current + 5)
    else (if current - 5 < 0 then 0 else current - 5)
  }

  /** handleValueButtonClick: the number moves by 5 within [0, 100], and
      nothing is updated when the value would not change. */
  function Click(c: Control, side: Side, n: Nudge): (r: Control)
    ensures Synced(c) ==> Synced(r)
    ensures InRange(c.Values()) ==> InRange(r.Values())
    ensures InRange(c.Values()) ==> r.Values().Get(side) == Clamp(c.Values().Get(side) + n.Delta())
  {
    var current := ReadOr(Some(c.Values().Get(side)), 0);
    var newValue := Bump(current, n);
    if newValue != current then UpdateValue(c, side, newValue) else c
  }

  /** handleEditableValueBlur: the edited text is read leniently, clamped
      to [0, 100], and applied. */
  function Blur(c: Control, side: Side, raw: Option<int>): (r: Control)
    ensures Synced(r) && InRange(r.Values())
  {
    UpdateValue(c, side, Clamp(ReadOr(raw, 0)))
  }

  /** Two balanced pairs that agree on one side are equal. */
  lemma BalancedBySide(p: Pair, q: Pair, side: Side)
    requires Balanced(p) && Balanced(q) && p.Get(side) == q.Get(side)
    ensures p == q
  {
  }

  /** On a synced, in-range pair the legacy buttons agree with the stepper
      buttons of the current design. */
  lemma ClickAgreesWithAdjust(c: Control, side: Side, n: Nudge)
    requires Synced(c) && InRange(c.Values())
    ensures Click(c, side, n).Values() == Adjust(c.Values(), side, n)
  {
    BalancedBySide(Click(c, side, n).Values(), Adjust(c.Values(), side, n), side);
  }

  /** Editing a number agrees with typing into a stepper. */
  lemma BlurAgreesWithSetSide(c: Control, side: Side, raw: Option<int>)
    ensures Blur(c, side, raw).Values() == SetSide(c.Values(), side, raw)
  {
  }
}
