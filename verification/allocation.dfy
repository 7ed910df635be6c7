/**
 Allocation pairs: the four two-sided weight splits of the scoring step.
 Setting one side of a pair (by typing, or by a plus/minus step of 5)
 clamps that side to [0, 100] and makes the other side 100 minus it
 (script.js, handleStepperChange and adjustStepperValue). A validator
 reports the pairs whose sides do not add up to 100 (validateStepperTotals).
 */
module Allocation {
  import opened Wrappers

  /** JavaScript's `parseInt(text) || fallback`. `raw` is what parseInt
      reads from the text, None when it gives NaN; NaN and 0 are both falsy,
      so both give the fallback. */
  function ReadOr(raw: Option<int>, fallback: int): int {
    if raw.Some? && raw.value != 0 then raw.value else fallback
  }

  /** `Math.max(0, Math.min(100, x))`. */
  function Clamp(x: int): (r: int)
    ensures 0 <= r <= 100
    ensures 0 <= x <= 100 ==> r == x
    ensures x < 0 ==> r == 0
    ensures x > 100 ==> r == 100
  {
    if x < 0 then 0 else if x > 100 then 100 else x
  }

  datatype Side = Left | Right {
    function Other(): Side {
      if Left? then Right else Left
    }
  }

  /** The two stepper inputs of one comparison step. */
  datatype Pair = Pair(left: int, right: int) {
    function Get(side: Side): int {
      if side.Left? then left else right
    }

    function Total(): int {
      left + right
    }
  }

  predicate Balanced(p: Pair) {
    p.Total() == 100
  }

  predicate InRange(p: Pair) {
    0 <= p.left <= 100 && 0 <= p.right <= 100
  }

  /** Both steppers at 50, as proceedToScoring leaves them. */
  const Even: Pair := Pair(50, 50)

  /** Builds the pair whose `side` holds `v` and whose other side holds
      100 - v. */
  function WithSide(side: Side, v: int): (p: Pair)
    ensures p.Get(side) == v && p.Get(side.Other()) == 100 - v
  {
    if side.Left? then Pair(v, 100 - v) else Pair(100 - v, v)
  }

  /** handleStepperChange: the changed input is read leniently (NaN reads
      as 0), clamped to [0, 100], and the other input becomes 100 minus it.
      The pair's previous contents play no part. */
  function SetSide(p: Pair, side: Side, raw: Option<int>): (q: Pair)
    ensures Balanced(q) && InRange(q)
    ensures q.Get(side.Other()) == 100 - q.Get(side)
    ensures raw.Some? && 0 <= raw.value <= 100 ==> q.Get(side) == raw.value
    ensures raw.Some? && raw.value > 100 ==> q.Get(side) == 100
    ensures (raw.None? || raw.value < 0) ==> q.Get(side) == 0
  {
    WithSide(side, Clamp(ReadOr(raw, 0)))
  }

  /** The two stepper buttons. */
  datatype Nudge = Minus | Plus {
    function Delta(): int {
      if Plus? then 5 else -5
    }
  }

  /** adjustStepperValue: the current value moves by 5, is clamped to
      [0, 100], is written back, and the input event it dispatches runs
      handleStepperChange on it. */
  function Adjust(p: Pair, side: Side, n: Nudge): (q: Pair)
    ensures Balanced(q) && InRange(q)
    ensures q.Get(side) == Clamp(p.Get(side) + n.Delta())
    ensures InRange(p) && n.Plus? ==> q.Get(side) == if p.Get(side) > 95 then 100 else p.Get(side) + 5
    ensures InRange(p) && n.Minus? ==> q.Get(side) == if p.Get(side) < 5 then 0 else p.Get(side) - 5
  {
    var current := ReadOr(Some(p.Get(side)), 0);
    var newValue := Clamp(current + n.Delta());
    SetSide(p, side, Some(newValue))
  }

  /** Re-running handleStepperChange on a side of a balanced, in-range
      pair changes nothing (initializeSteppers relies on this). */
  lemma SetSideKeepsBalanced(p: Pair, side: Side)
    requires Balanced(p) && InRange(p)
    ensures SetSide(p, side, Some(p.Get(side))) == p
  {
  }

  /** A plus step undoes a minus step and vice versa, away from the bounds. */
  lemma {:induction false} AdjustRoundTrip(p: Pair, side: Side)
    requires Balanced(p) && InRange(p)
    ensures p.Get(side) <= 95 ==> Adjust(Adjust(p, side, Plus), side, Minus) == p
    ensures p.Get(side) >= 5 ==> Adjust(Adjust(p, side, Minus), side, Plus) == p
  {
  }

  /** Raising one side by a step is the same as lowering the other side by a
      step. */
  lemma AdjustOtherSide(p: Pair, side: Side, n: Nudge)
    requires Balanced(p) && InRange(p)
    ensures Adjust(p, side, n) == Adjust(p, side.Other(), if n.Plus? then Minus else Plus)
  {
    match (side, n)
    case (Left, Plus) =>
    case (Left, Minus) =>
    case (Right, Plus) =>
    case (Right, Minus) =>
  }

  /** The four comparison steps, in step order. */
  datatype Step = InternalA | InternalB | AdvCompare | DisCompare {
    function Number(): (n: int)
      ensures 1 <= n <= 4
    {
      match this
      case InternalA => 1
      case InternalB => 2
      case AdvCompare => 3
      case DisCompare => 4
    }

    function Name(): string {
      match this
      case InternalA => "Step 1: Compare within Option A"
      case InternalB => "Step 2: Compare within Option B"
      case AdvCompare => "Step 3: Compare Advantages"
      case DisCompare => "Step 4: Compare Disadvantages"
    }
  }

  const Steps: seq<Step> := [InternalA, InternalB, AdvCompare, DisCompare]

  /** The eight stepper values. `internalA` is A's advantages against A's
      disadvantages, `internalB` the same for B, `advCompare` A's advantages
      against B's, `disCompare` A's disadvantages against B's. */
  datatype Weights = Weights(internalA: Pair, internalB: Pair, advCompare: Pair, disCompare: Pair) {
    function Get(step: Step): Pair {
      match step
      case InternalA => internalA
      case InternalB => internalB
      case AdvCompare => advCompare
      case DisCompare => disCompare
    }

    function With(step: Step, p: Pair): (w: Weights)
      ensures w.Get(step) == p
      ensures forall t :: t != step ==> w.Get(t) == Get(t)
    {
      match step
      case InternalA => this.(internalA := p)
      case InternalB => this.(internalB := p)
      case AdvCompare => this.(advCompare := p)
      case DisCompare => this.(disCompare := p)
    }
  }

  /** All steppers reset to 50, as proceedToScoring does. */
  const Reset: Weights := Weights(Even, Even, Even, Even)

  predicate AllBalanced(w: Weights) {
    forall s: Step :: Balanced(w.Get(s))
  }

  predicate AllInRange(w: Weights) {
    forall s: Step :: InRange(w.Get(s))
  }

  /** A value typed into one stepper of a step. */
  function SetWeight(w: Weights, step: Step, side: Side, raw: Option<int>): (r: Weights)
    ensures r.Get(step) == SetSide(w.Get(step), side, raw)
    ensures forall t :: t != step ==> r.Get(t) == w.Get(t)
    ensures AllBalanced(w) ==> AllBalanced(r)
    ensures AllInRange(w) ==> AllInRange(r)
  {
    w.With(step, SetSide(w.Get(step), side, raw))
  }

  /** A plus or minus button of one stepper of a step. */
  function AdjustWeight(w: Weights, step: Step, side: Side, n: Nudge): (r: Weights)
    ensures r.Get(step) == Adjust(w.Get(step), side, n)
    ensures forall t :: t != step ==> r.Get(t) == w.Get(t)
    ensures AllBalanced(w) ==> AllBalanced(r)
    ensures AllInRange(w) ==> AllInRange(r)
  {
    w.With(step, Adjust(w.Get(step), side, n))
  }

  /** adjustStepperValue run `count` times in a row on the same side, as
      one click does when the button carries `count` click listeners. */
  function AdjustRepeated(p: Pair, side: Side, n: Nudge, count: nat): (q: Pair)
    ensures count == 0 ==> q == p
    ensures count > 0 ==> Balanced(q) && InRange(q)
    ensures InRange(p) && n.Plus? ==> q.Get(side) == Clamp(p.Get(side) + 5 * count)
    ensures InRange(p) && n.Minus? ==> q.Get(side) == Clamp(p.Get(side) - 5 * count)
    decreases count
  {
    if count == 0 then p else Adjust(AdjustRepeated(p, side, n, count - 1), side, n)
  }

  /** A plus or minus button of one stepper of a step, carrying `count`
      click listeners. */
  function AdjustWeightRepeated(w: Weights, step: Step, side: Side, n: Nudge, count: nat): (r: Weights)
    ensures r.Get(step) == AdjustRepeated(w.Get(step), side, n, count)
    ensures forall t :: t != step ==> r.Get(t) == w.Get(t)
    ensures AllBalanced(w) ==> AllBalanced(r)
    ensures AllInRange(w) ==> AllInRange(r)
  {
    w.With(step, AdjustRepeated(w.Get(step), side, n, count))
  }

  /** One listener is one press: repeating once is `AdjustWeight`. */
  lemma RepeatedOnce(w: Weights, step: Step, side: Side, n: Nudge)
    ensures AdjustWeightRepeated(w, step, side, n, 1) == AdjustWeight(w, step, side, n)
  {
  }

  /** One entry of `invalidGroups`. */
  datatype InvalidGroup = InvalidGroup(stepNumber: int, stepName: string, total: int, step: Step)

  datatype Validation = Validation(isValid: bool, invalidGroups: seq<InvalidGroup>, totalSteps: nat)

  /** `g` faithfully reports that its step's pair in `w` does not total 100. */
  predicate Reports(g: InvalidGroup, w: Weights) {
    && g.stepNumber == g.step.Number()
    && g.stepName == g.step.Name()
    && g.total == w.Get(g.step).Total()
    && g.total != 100
  }

  /** The step with step number `k + 1`. */
  lemma StepsNumbered(k: nat)
    requires k < |Steps|
    ensures Steps[k].Number() == k + 1
    ensures forall s: Step :: s.Number() == k + 1 ==> s == Steps[k]
  {
  }

  /** The report for one step, empty when its pair totals 100. The stepper
      values are read with `parseInt(...) || 0`, which is the identity on the
      integers the model holds. */
  function Check(s: Step, w: Weights): seq<InvalidGroup> {
    var total := w.Get(s).left + w.Get(s).right;
    if total != 100 then [InvalidGroup(s.Number(), s.Name(), total, s)] else []
  }

  /** The failing pairs among the steps numbered above `k`, in step order. */
  function FailingFrom(w: Weights, k: nat): (g: seq<InvalidGroup>)
    requires k <= |Steps|
    ensures forall i :: 0 <= i < |g| ==> Reports(g[i], w) && k < g[i].stepNumber
    ensures forall s: Step :: k < s.Number() && !Balanced(w.Get(s)) ==> exists i :: 0 <= i < |g| && g[i].step == s
    ensures forall i, j :: 0 <= i < j < |g| ==> g[i].stepNumber < g[j].stepNumber
    decreases |Steps| - k
  {
    if k == |Steps| then
      []
    else
      var here := Check(Steps[k], w);
      var rest := FailingFrom(w, k + 1);
      FailingFromReports(w, k, here, rest);
      FailingFromComplete(w, k, here, rest);
      FailingFromOrdered(w, k, here, rest);
      here + rest
  }

  /** The inductive step of `FailingFrom`'s contract, one clause at a
      time: every entry reports a failing pair numbered above `k`, ... */
  lemma FailingFromReports(w: Weights, k: nat, here: seq<InvalidGroup>, rest: seq<InvalidGroup>)
    requires k < |Steps| && here == Check(Steps[k], w)
    requires forall i :: 0 <= i < |rest| ==> Reports(rest[i], w) && k + 1 < rest[i].stepNumber
    ensures forall i :: 0 <= i < |here + rest| ==> Reports((here + rest)[i], w) && k < (here + rest)[i].stepNumber
  {
    StepsNumbered(k);
    var g := here + rest;
    assert forall i :: 0 <= i < |here| ==> Reports(g[i], w) && g[i].stepNumber == k + 1;
    assert forall i :: 0 <= i < |rest| ==> g[|here| + i] == rest[i];
  }

  /** ... every failing pair numbered above `k` is reported, ... */
  lemma FailingFromComplete(w: Weights, k: nat, here: seq<InvalidGroup>, rest: seq<InvalidGroup>)
    requires k < |Steps| && here == Check(Steps[k], w)
    requires forall s: Step :: k + 1 < s.Number() && !Balanced(w.Get(s)) ==> exists i :: 0 <= i < |rest| && rest[i].step == s
    ensures forall s: Step :: k < s.Number() && !Balanced(w.Get(s)) ==> exists i :: 0 <= i < |here + rest| && (here + rest)[i].step == s
  {
    StepsNumbered(k);
    var g := here + rest;
    forall s: Step | k < s.Number() && !Balanced(w.Get(s)) ensures exists i :: 0 <= i < |g| && g[i].step == s {
      if s.Number() == k + 1 {
        assert g[0].step == s;
      } else {
        var i :| 0 <= i < |rest| && rest[i].step == s;
        assert g[|here| + i].step == s;
      }
    }
  }

  /** ... and the step numbers increase. */
  lemma FailingFromOrdered(w: Weights, k: nat, here: seq<InvalidGroup>, rest: seq<InvalidGroup>)
    requires k < |Steps| && here == Check(Steps[k], w)
    requires forall i :: 0 <= i < |rest| ==> k + 1 < rest[i].stepNumber
    requires forall i, j :: 0 <= i < j < |rest| ==> rest[i].stepNumber < rest[j].stepNumber
    ensures forall i, j :: 0 <= i < j < |here + rest| ==> (here + rest)[i].stepNumber < (here + rest)[j].stepNumber
  {
    StepsNumbered(k);
    var g := here + rest;
    assert forall i :: 0 <= i < |here| ==> g[i].stepNumber == k + 1;
    assert forall i :: 0 <= i < |rest| ==> g[|here| + i] == rest[i];
  }

  lemma NoneFailingIff(w: Weights, k: nat)
    requires k <= |Steps|
    ensures |FailingFrom(w, k)| == 0 <==> forall s: Step :: k < s.Number() ==> Balanced(w.Get(s))
  {
    var g := FailingFrom(w, k);
    if |g| > 0 {
      assert Reports(g[0], w);
    }
  }

  /** `FailingFrom` over all four steps. */
  function Failing(w: Weights): (g: seq<InvalidGroup>)
    ensures |g| == 0 <==> AllBalanced(w)
    ensures forall i :: 0 <= i < |g| ==> Reports(g[i], w)
    ensures forall s: Step :: !Balanced(w.Get(s)) ==> exists i :: 0 <= i < |g| && g[i].step == s
    ensures forall i, j :: 0 <= i < j < |g| ==> g[i].stepNumber < g[j].stepNumber
  {
    FailingFromZero(w);
    FailingFrom(w, 0)
  }

  /** Every step's number is positive, so the steps after step 0 are all
      the steps. */
  lemma FailingFromZero(w: Weights)
    ensures var g := FailingFrom(w, 0);
            && (|g| == 0 <==> AllBalanced(w))
            && (forall s: Step :: !Balanced(w.Get(s)) ==> exists i :: 0 <= i < |g| && g[i].step == s)
  {
    var g := FailingFrom(w, 0);
    NoneFailingIff(w, 0);
    forall s: Step ensures 0 < s.Number() {
    }
  }

  /** validateStepperTotals: valid exactly when every pair totals 100, and
      `invalidGroups` lists exactly the failing pairs, once each, in step
      order. */
  function Validate(w: Weights): (r: Validation)
    ensures r.totalSteps == 4
    ensures r.isValid <==> AllBalanced(w)
    ensures r.isValid <==> |r.invalidGroups| == 0
    ensures forall i :: 0 <= i < |r.invalidGroups| ==> Reports(r.invalidGroups[i], w)
    ensures forall s: Step :: !Balanced(w.Get(s)) ==> exists i :: 0 <= i < |r.invalidGroups| && r.invalidGroups[i].step == s
    ensures forall i, j :: 0 <= i < j < |r.invalidGroups| ==> r.invalidGroups[i].stepNumber < r.invalidGroups[j].stepNumber
  {
    var g := Failing(w);
    Validation(|g| == 0, g, |Steps|)
  }
}
