/**
 Scoring and classification (script.js, calculateResult and the first half
 of displayResults): the eight stepper values give each option a score,
 the higher score wins, and a first-match-wins ladder names the kind of
 decision.
 */
module Scoring {
  import opened Wrappers
  import opened Allocation

  /** calculateResult reads every stepper with `parseInt(...) || 50`, so a
      stepper holding 0 counts as 50. */
  function Read(v: int): (r: int)
    ensures v != 0 ==> r == v
    ensures v == 0 ==> r == 50
  {
    ReadOr(Some(v), 50)
  }

  /** The derived totals: circle9..circle12 and the two scores. */
  datatype Scores = Scores(advA: int, disA: int, advB: int, disB: int, scoreA: int, scoreB: int)

  /** No stepper holds 0, so the `|| 50` fallback never applies. */
  predicate NoZero(w: Weights) {
    forall s: Step :: w.Get(s).left != 0 && w.Get(s).right != 0
  }

  /** Option A scores (circle1 + circle5) - (circle2 + circle7) and option B
      (circle3 + circle6) - (circle4 + circle8). */
  function ComputeScores(w: Weights): (s: Scores)
    ensures s.scoreA == s.advA - s.disA && s.scoreB == s.advB - s.disB
    ensures && s.advA == Read(w.internalA.left) + Read(w.advCompare.left)
            && s.disA == Read(w.internalA.right) + Read(w.disCompare.left)
            && s.advB == Read(w.internalB.left) + Read(w.advCompare.right)
            && s.disB == Read(w.internalB.right) + Read(w.disCompare.right)
    ensures AllInRange(w) ==> -200 <= s.scoreA <= 200 && -200 <= s.scoreB <= 200
    ensures NoZero(w) ==> && s.advA == w.internalA.left + w.advCompare.left
                          && s.disA == w.internalA.right + w.disCompare.left
                          && s.advB == w.internalB.left + w.advCompare.right
                          && s.disB == w.internalB.right + w.disCompare.right
  {
    var circle1 := Read(w.internalA.left);
    var circle2 := Read(w.internalA.right);
    var circle3 := Read(w.internalB.left);
    var circle4 := Read(w.internalB.right);
    var circle5 := Read(w.advCompare.left);
    var circle6 := Read(w.advCompare.right);
    var circle7 := Read(w.disCompare.left);
    var circle8 := Read(w.disCompare.right);
    assert NoZero(w) ==> w.Get(InternalA).left != 0 && w.Get(InternalA).right != 0
                         && w.Get(InternalB).left != 0 && w.Get(InternalB).right != 0
                         && w.Get(AdvCompare).left != 0 && w.Get(AdvCompare).right != 0
                         && w.Get(DisCompare).left != 0 && w.Get(DisCompare).right != 0;
    assert AllInRange(w) ==> InRange(w.Get(InternalA)) && InRange(w.Get(InternalB))
                             && InRange(w.Get(AdvCompare)) && InRange(w.Get(DisCompare));
    var circle9 := circle1 + circle5;
    var circle10 := circle2 + circle7;
    var circle11 := circle3 + circle6;
    var circle12 := circle4 + circle8;
    Scores(circle9, circle10, circle11, circle12, circle9 - circle10, circle11 - circle12)
  }

  /** The five decision types. */
  datatype Label = NoBrainer | FenceSitter | CantLose | CantWin | ClearChoice {
    function Text(): string {
      match this
      case NoBrainer => "No Brainer"
      case FenceSitter => "Fence Sitter"
      case CantLose => "Can't Lose"
      case CantWin => "Can't Win"
      case ClearChoice => "Clear Choice"
    }
  }

  function Abs(x: int): int {
    if x < 0 then -x else x
  }

  /** Each rung's own test, taken alone; Clear Choice always fits. */
  predicate Fits(l: Label, a: int, b: int) {
    match l
    case NoBrainer => (a > 50 && b < -50) || (b > 50 && a < -50)
    case FenceSitter => Abs(a - b) <= 20
    case CantLose => a > 0 && b > 0
    case CantWin => a < 0 && b < 0
    case ClearChoice => true
  }

  /** The order in which displayResults tries the rungs. */
  const Ladder: seq<Label> := [NoBrainer, FenceSitter, CantLose, CantWin, ClearChoice]

  /** The position of a label on the ladder. */
  function Rank(l: Label): (k: nat)
    ensures k < |Ladder| && Ladder[k] == l
  {
    match l
    case NoBrainer => 0
    case FenceSitter => 1
    case CantLose => 2
    case CantWin => 3
    case ClearChoice => 4
  }

  /** `l` is the first rung on the ladder whose test the scores pass. */
  predicate FirstFit(l: Label, a: int, b: int) {
    Fits(l, a, b) && forall k :: 0 <= k < Rank(l) ==> !Fits(Ladder[k], a, b)
  }

  /** The classification chain of displayResults. */
  function Classify(a: int, b: int): (l: Label)
    ensures FirstFit(l, a, b)
  {
    if (a > 50 && b < -50) || (b > 50 && a < -50) then NoBrainer
    else if Abs(a - b) <= 20 then FenceSitter
    else if a > 0 && b > 0 then CantLose
    else if a < 0 && b < 0 then CantWin
    else ClearChoice
  }

  /** Exactly one label is the first fit, and it is the one Classify gives. */
  lemma ExactlyOneLabel(a: int, b: int, l: Label)
    ensures FirstFit(l, a, b) <==> l == Classify(a, b)
  {
    var c := Classify(a, b);
    if FirstFit(l, a, b) {
      assert Fits(Ladder[Rank(l)], a, b);
      assert Rank(c) <= Rank(l);
      assert Fits(Ladder[Rank(c)], a, b);
      assert Rank(l) <= Rank(c);
    }
  }

  /** The recommended option: A on a higher score, B on a higher score,
      none on a tie. */
  function Winner(a: int, b: int, optionA: string, optionB: string): (r: Option<string>)
    ensures a > b ==> r == Some(optionA)
    ensures b > a ==> r == Some(optionB)
    ensures a == b ==> r == None
  {
    if a > b then Some(optionA) else if b > a then Some(optionB) else None
  }

  /** What displayResults shows. */
  datatype Outcome = Outcome(optionA: string, optionB: string, scores: Scores, winner: Option<string>, kind: Label)

  /** calculateResult once validation has passed. */
  function Evaluate(w: Weights, optionA: string, optionB: string): (r: Outcome)
    ensures r.scores == ComputeScores(w)
    ensures r.optionA == optionA && r.optionB == optionB
    ensures r.winner == Winner(r.scores.scoreA, r.scores.scoreB, optionA, optionB)
    ensures FirstFit(r.kind, r.scores.scoreA, r.scores.scoreB)
    ensures AllInRange(w) ==> -200 <= r.scores.scoreA <= 200 && -200 <= r.scores.scoreB <= 200
  {
    var s := ComputeScores(w);
    Outcome(optionA, optionB, s, Winner(s.scoreA, s.scoreB, optionA, optionB), Classify(s.scoreA, s.scoreB))
  }

  /** A tie is always a Fence Sitter: No Brainer needs the scores apart. */
  lemma TieIsFenceSitter(a: int, b: int)
    requires a == b
    ensures Classify(a, b) == FenceSitter
  {
  }

  /** Every label other than Fence Sitter comes with a winner. */
  lemma DecidedLabelsHaveWinner(a: int, b: int, optionA: string, optionB: string)
    requires Classify(a, b) != FenceSitter
    ensures Winner(a, b, optionA, optionB).Some?
    ensures Abs(a - b) > 20 || Classify(a, b) == NoBrainer
  {
  }

  /** No Brainer never overlaps Fence Sitter: its scores are over 100
      apart. */
  lemma NoBrainerIsFarApart(a: int, b: int)
    requires Fits(NoBrainer, a, b)
    ensures Abs(a - b) > 100 && !Fits(FenceSitter, a, b)
  {
  }

  /** Fence Sitter is tried before Can't Lose: 10 and 5 pass both tests
      and are a Fence Sitter. */
  lemma FenceSitterBeatsCantLose()
    ensures Fits(CantLose, 10, 5) && Classify(10, 5) == FenceSitter
  {
  }

  /** All steppers at 50 give scores 0 and 0: a Fence Sitter with no
      winner. */
  lemma EvenWeightsAreFenceSitter(optionA: string, optionB: string)
    ensures Evaluate(Reset, optionA, optionB).scores.scoreA == 0
    ensures Evaluate(Reset, optionA, optionB).scores.scoreB == 0
    ensures Evaluate(Reset, optionA, optionB).kind == FenceSitter
    ensures Evaluate(Reset, optionA, optionB).winner == None
  {
  }

  /** Steps (70,30), (40,60), (60,40), (30,70) give 70 and -50. The No
      Brainer test wants B strictly below -50, so this is a Clear Choice
      for option A. */
  lemma StrongSplitIsClearChoice(optionA: string, optionB: string)
    ensures var r := Evaluate(Weights(Pair(70, 30), Pair(40, 60), Pair(60, 40), Pair(30, 70)), optionA, optionB);
            r.scores.scoreA == 70 && r.scores.scoreB == -50 && r.kind == ClearChoice && r.winner == Some(optionA)
  {
  }

  /** The `|| 50` fallback in action: a first step of (0, 100) is scored as
      if A's advantages held 50, so A scores -50 instead of -100. */
  lemma ZeroReadsAsFifty(optionA: string, optionB: string)
    ensures var w := Reset.(internalA := Pair(0, 100));
            AllBalanced(w) && Evaluate(w, optionA, optionB).scores.scoreA == -50
  {
    var w := Reset.(internalA := Pair(0, 100));
    assert w.Get(InternalA) == Pair(0, 100);
  }

  /** The label texts are distinct. */
  lemma LabelTextInjective(l: Label, m: Label)
    ensures l.Text() == m.Text() ==> l == m
  {
    if l != m {
      assert l.Text()[0..2] != m.Text()[0..2] || l.Text()[6] != m.Text()[6];
    }
  }
}
