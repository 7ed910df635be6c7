/**
 The session and its workflow (script.js, init, proceedToComparison,
 startComparison, proceedToScoring, the stepper handlers, calculateResult,
 startOver, goBack, goForward, restoreState). The logical page state is a
 `Session`; the visible section is the `stage`; every section change not
 caused by back/forward records the session on arrival in the history.
 */
module Workflow {
  import opened Wrappers
  import opened Choices
  import opened Allocation
  import Engine = Scoring
  import opened Navigation

  /** The four textareas. */
  datatype Analysis = Analysis(advantagesA: string, disadvantagesA: string, advantagesB: string, disadvantagesB: string)

  const Blank: Analysis := Analysis("", "", "", "")

  /** What captureCurrentState records: the choice input texts, the choice
      list, the selected pair, the textareas and the eight steppers. */
  datatype Session = Session(inputs: seq<string>, choices: seq<string>, optionA: string, optionB: string,
                             analysis: Analysis, weights: Weights)

  /** The page: the session, the section shown, the history, and how many
      times setupComparisonInputListeners has run. That function adds a
      fresh set of listeners to every stepper and button each time and none
      is ever removed, so `listeners` is also how many times one click on a
      stepper button runs adjustStepperValue. */
  datatype App = App(session: Session, stage: Stage, history: History<Session>, listeners: nat)

  /** A session the page can be in: at least one choice row, the choice
      list read off the rows, and every pair balanced and in range. */
  predicate WellFormed(s: Session) {
    && |s.inputs| > 0
    && s.choices == Choices.Choices(s.inputs)
    && AllBalanced(s.weights)
    && AllInRange(s.weights)
  }

  /** The invariant every reachable page state keeps. */
  predicate Invariant(app: App) {
    && WellFormed(app.session)
    && Valid(app.history)
    && forall i :: 0 <= i < |app.history.entries| ==> WellFormed(app.history.entries[i].state)
  }

  /** The cursor is -1 or an index into the history, or one past it. */
  predicate CursorOk(app: App) {
    -1 <= app.history.cursor <= |app.history.entries|
  }

  datatype Refusal = InsufficientChoices | InvalidSelection | Declined | Imbalanced(groups: seq<InvalidGroup>)

  datatype Status = Done | Refused(reason: Refusal) | Scored(outcome: Engine.Outcome)

  /** The page state after an action, and what came of it. */
  datatype Transition = Transition(app: App, status: Status)

  /** handleStepperChange on a pair's first input, fed its own value: the
      value is clamped and the second input becomes its complement. */
  function Resync(p: Pair): (q: Pair)
    ensures Balanced(q) && InRange(q)
    ensures q.left == Clamp(p.left) && q.right == 100 - q.left
    ensures Balanced(p) && InRange(p) ==> q == p
  {
    assert ReadOr(Some(p.left), 0) == p.left;
    SetSide(p, Left, Some(p.left))
  }

  /** initializeSteppers: every pair is re-synchronised from its first
      input. */
  function Rebalance(w: Weights): (r: Weights)
    ensures forall s: Step :: r.Get(s) == Resync(w.Get(s))
    ensures AllBalanced(r) && AllInRange(r)
  {
    var r := Weights(Resync(w.internalA), Resync(w.internalB), Resync(w.advCompare), Resync(w.disCompare));
    ResyncEach(w, r);
    r
  }

  /** Re-synchronising steppers that already agree changes nothing. */
  lemma RebalanceKeeps(w: Weights)
    ensures AllBalanced(w) && AllInRange(w) ==> Rebalance(w) == w
  {
    ResyncEach(w, Rebalance(w));
  }

  lemma ResyncEach(w: Weights, r: Weights)
    requires r == Weights(Resync(w.internalA), Resync(w.internalB), Resync(w.advCompare), Resync(w.disCompare))
    ensures forall s: Step :: r.Get(s) == Resync(w.Get(s))
    ensures AllBalanced(r) && AllInRange(r)
    ensures AllBalanced(w) && AllInRange(w) ==> r == w
  {
    if AllBalanced(w) && AllInRange(w) {
      assert Balanced(w.Get(InternalA)) && InRange(w.Get(InternalA));
      assert Balanced(w.Get(InternalB)) && InRange(w.Get(InternalB));
      assert Balanced(w.Get(AdvCompare)) && InRange(w.Get(AdvCompare));
      assert Balanced(w.Get(DisCompare)) && InRange(w.Get(DisCompare));
    }
    forall s: Step ensures r.Get(s) == Resync(w.Get(s)) {
      match s
      case InternalA =>
      case InternalB =>
      case AdvCompare =>
      case DisCompare =>
    }
  }

  /** showSection without skipping history: record the session on arrival
      and show the section. */
  function Show(app: App, s: Session, target: Stage, now: int): (t: Transition)
    requires CursorOk(app)
    ensures t.status == Done
    ensures t.app.session == s && t.app.stage == target
    ensures t.app.history == Record(app.history, Entry(target, s, now))
    ensures t.app.listeners == app.listeners
    ensures AtEntry(t.app)
  {
    Transition(app.(session := s, stage := target, history := Record(app.history, Entry(target, s, now))), Done)
  }

  /** init: the choice list is read off the initial rows, the steppers
      start at 50, and the history holds the Brainstorm entry. The initial
      rows and stepper values come from the page markup, which is not part
      of this model. */
  function Init(inputs: seq<string>, now: int): (app: App)
    ensures app.session.choices == Choices.Choices(inputs) && app.session.inputs == inputs
    ensures app.stage == Brainstorm
    ensures app.history == History([Entry(Brainstorm, app.session, now)], 0)
    ensures app.listeners == 0
    ensures |inputs| > 0 ==> Invariant(app)
  {
    var s := Session(inputs, Choices.Choices(inputs), "", "", Blank, Reset);
    assert AllBalanced(Reset) && AllInRange(Reset) by {
      assert forall t: Step :: Reset.Get(t) == Even;
    }
    App(s, Brainstorm, Initialize(Empty(), s, now), 0)
  }

  /** handleChoiceInput: a row's text changes and the choice list is
      re-read. */
  function EditChoice(app: App, i: nat, text: string): (r: App)
    requires i < |app.session.inputs|
    ensures r.session.inputs == app.session.inputs[i := text]
    ensures r.session.choices == Choices.Choices(r.session.inputs)
    ensures r.session.(inputs := app.session.inputs, choices := app.session.choices) == app.session
    ensures r.stage == app.stage && r.history == app.history && r.listeners == app.listeners
  {
    var inputs := app.session.inputs[i := text];
    app.(session := app.session.(inputs := inputs, choices := Choices.Choices(inputs)))
  }

  /** addChoice: a new empty row; the choice list is not re-read, and does
      not need to be. */
  function AddChoiceRow(app: App): (r: App)
    ensures r.session.inputs == AddInput(app.session.inputs)
    ensures r.session.(inputs := app.session.inputs) == app.session
    ensures r.session.choices == Choices.Choices(app.session.inputs) ==> r.session.choices == Choices.Choices(r.session.inputs)
    ensures r.stage == app.stage && r.history == app.history && r.listeners == app.listeners
  {
    AddInputKeepsChoices(app.session.inputs);
    app.(session := app.session.(inputs := AddInput(app.session.inputs)))
  }

  /** handleRemoveChoice: the row goes only while another remains, and the
      choice list is re-read. */
  function RemoveChoiceRow(app: App, i: nat): (r: App)
    requires i < |app.session.inputs|
    ensures |app.session.inputs| <= 1 ==> r == app
    ensures |app.session.inputs| > 1 ==> && r.session.inputs == RemoveInput(app.session.inputs, i)
                                         && r.session.choices == Choices.Choices(r.session.inputs)
    ensures r.session.(inputs := app.session.inputs, choices := app.session.choices) == app.session
    ensures r.stage == app.stage && r.history == app.history && r.listeners == app.listeners
  {
    if |app.session.inputs| > 1 then
      var inputs := RemoveInput(app.session.inputs, i);
      app.(session := app.session.(inputs := inputs, choices := Choices.Choices(inputs)))
    else
      app
  }

  /** handleChoiceKeydown: Enter adds a row after non-blank text. */
  function EnterOnChoice(app: App, i: nat): (r: App)
    requires i < |app.session.inputs|
    ensures AllWhite(app.session.inputs[i]) ==> r == app
    ensures !AllWhite(app.session.inputs[i]) ==> r == AddChoiceRow(app)
  {
    TrimIsTrimOf(app.session.inputs[i]);
    if Trim(app.session.inputs[i]) != "" then AddChoiceRow(app) else app
  }

  /** proceedToComparison: fewer than 2 choices is refused; exactly 2 skips
      the selection step with A and B the first two choices and the
      textareas cleared; more goes to the selection step. */
  function ProceedToComparison(app: App, now: int): (t: Transition)
    requires CursorOk(app)
    ensures t.status == Refused(InsufficientChoices) <==> |app.session.choices| < 2
    ensures |app.session.choices| < 2 ==> t.app == app
    ensures t.app.listeners == app.listeners
    ensures |app.session.choices| == 2 ==>
              && t.app.session == app.session.(optionA := app.session.choices[0],
                                                optionB := app.session.choices[1], analysis := Blank)
              && t.app.stage == Comparison
              && t.app.history == Record(app.history, Entry(Comparison, t.app.session, now))
    ensures |app.session.choices| > 2 ==>
              && t.app.session == app.session && t.app.stage == Selection
              && t.app.history == Record(app.history, Entry(Selection, app.session, now))
  {
    var s := app.session;
    if |s.choices| < 2 then
      Transition(app, Refused(InsufficientChoices))
    else if |s.choices| == 2 then
      Show(app, s.(optionA := s.choices[0], optionB := s.choices[1], analysis := Blank), Comparison, now)
    else
      Show(app, s, Selection, now)
  }

  /** The selection startComparison refuses: a side left unselected, or
      the same option on both sides. */
  predicate BadSelection(a: string, b: string) {
    a == "" || b == "" || a == b
  }

  /** startComparison. The two selections are stored before they are
      checked, so a refused selection still replaces optionA and optionB;
      nothing else changes then. An accepted one clears the textareas and
      goes to the comparison step. */
  function StartComparison(app: App, a: string, b: string, now: int): (t: Transition)
    requires CursorOk(app)
    ensures t.status == Refused(InvalidSelection) <==> BadSelection(a, b)
    ensures t.app.session.optionA == a && t.app.session.optionB == b
    ensures t.app.listeners == app.listeners
    ensures BadSelection(a, b) ==> t.app == app.(session := app.session.(optionA := a, optionB := b))
    ensures !BadSelection(a, b) ==>
              && t.app.session == app.session.(optionA := a, optionB := b, analysis := Blank)
              && t.app.stage == Comparison
              && t.app.history == Record(app.history, Entry(Comparison, t.app.session, now))
  {
    var s := app.session.(optionA := a, optionB := b);
    if a == "" || b == "" || a == b then
      Transition(app.(session := s), Refused(InvalidSelection))
    else
      Show(app, s.(analysis := Blank), Comparison, now)
  }

  /** Every textarea holds non-blank text. */
  predicate HasContent(x: Analysis) {
    && Trim(x.advantagesA) != "" && Trim(x.disadvantagesA) != ""
    && Trim(x.advantagesB) != "" && Trim(x.disadvantagesB) != ""
  }

  /** proceedToScoring: with a blank textarea the user is asked to confirm
      (`confirmed` is the answer) and may stay; otherwise every stepper is
      reset to 50, one more set of stepper listeners is attached, and the
      scoring step is shown. */
  function ProceedToScoring(app: App, confirmed: bool, now: int): (t: Transition)
    requires CursorOk(app)
    ensures t.status == Refused(Declined) <==> !HasContent(app.session.analysis) && !confirmed
    ensures t.status == Refused(Declined) ==> t.app == app
    ensures t.status != Refused(Declined) ==>
              && t.app.session == app.session.(weights := Reset)
              && t.app.stage == Stage.Scoring
              && t.app.history == Record(app.history, Entry(Stage.Scoring, t.app.session, now))
              && t.app.listeners == app.listeners + 1
  {
    if !HasContent(app.session.analysis) && !confirmed then
      Transition(app, Refused(Declined))
    else
      assert AllBalanced(Reset) && AllInRange(Reset) by {
        assert forall t: Step :: Reset.Get(t) == Even;
      }
      RebalanceKeeps(Reset);
      Show(app.(listeners := app.listeners + 1), app.session.(weights := Rebalance(Reset)), Stage.Scoring, now)
  }

  /** Typing into a stepper. handleStepperChange runs once per attached
      input listener, and running it again changes nothing, so the count
      does not matter once there is one; before the scoring step has been
      set up there is none. */
  function TypeWeight(app: App, step: Step, side: Side, raw: Option<int>): (r: App)
    requires app.listeners > 0
    ensures r.session.weights == SetWeight(app.session.weights, step, side, raw)
    ensures r.session.(weights := app.session.weights) == app.session
    ensures r.stage == app.stage && r.history == app.history && r.listeners == app.listeners
  {
    app.(session := app.session.(weights := SetWeight(app.session.weights, step, side, raw)))
  }

  /** A stepper's plus or minus button, as the page behaves: every
      attached click listener runs adjustStepperValue, so the value moves
      by 5 once per completed proceedToScoring since the page loaded;
      arriving at the scoring step by back or forward adds none. */
  function NudgeWeight(app: App, step: Step, side: Side, n: Nudge): (r: App)
    ensures r.session.weights == AdjustWeightRepeated(app.session.weights, step, side, n, app.listeners)
    ensures InRange(app.session.weights.Get(step)) ==>
              var v := app.session.weights.Get(step).Get(side);
              r.session.weights.Get(step).Get(side)
                == if n.Plus? then Clamp(v + 5 * app.listeners) else Clamp(v - 5 * app.listeners)
    ensures r.session.(weights := app.session.weights) == app.session
    ensures r.stage == app.stage && r.history == app.history && r.listeners == app.listeners
  {
    app.(session := app.session.(weights := AdjustWeightRepeated(app.session.weights, step, side, n, app.listeners)))
  }

  /** A stepper's plus or minus button as evidently intended: one press
      moves the value by 5, however often the scoring step was entered. */
  function NudgeOnce(app: App, step: Step, side: Side, n: Nudge): (r: App)
    ensures r.session.weights.Get(step).Get(side) == Clamp(app.session.weights.Get(step).Get(side) + n.Delta())
    ensures r.session.weights.Get(step) == Adjust(app.session.weights.Get(step), side, n)
    ensures forall t :: t != step ==> r.session.weights.Get(t) == app.session.weights.Get(t)
    ensures r.session.(weights := app.session.weights) == app.session
    ensures r.stage == app.stage && r.history == app.history && r.listeners == app.listeners
    ensures app.listeners == 1 ==> r == NudgeWeight(app, step, side, n)
  {
    RepeatedOnce(app.session.weights, step, side, n);
    app.(session := app.session.(weights := AdjustWeight(app.session.weights, step, side, n)))
  }

  /** The textareas of the comparison step: typing replaces their text and
      nothing else (the page only saves it). */
  function EditAnalysis(app: App, x: Analysis): (r: App)
    ensures r.session.analysis == x
    ensures r.session.(analysis := app.session.analysis) == app.session
    ensures r.stage == app.stage && r.history == app.history && r.listeners == app.listeners
  {
    app.(session := app.session.(analysis := x))
  }

  /** calculateResult: an unbalanced pair blocks the calculation and is
      reported; otherwise the result is computed and the results step
      shown. */
  function CalculateResult(app: App, now: int): (t: Transition)
    requires CursorOk(app)
    ensures t.status.Refused? <==> !AllBalanced(app.session.weights)
    ensures t.app.listeners == app.listeners
    ensures t.status.Refused? ==> t.app == app && t.status.reason == Imbalanced(Validate(app.session.weights).invalidGroups)
    ensures !t.status.Refused? ==>
              && t.status == Scored(Engine.Evaluate(app.session.weights, app.session.optionA, app.session.optionB))
              && t.app.session == app.session && t.app.stage == Results
              && t.app.history == Record(app.history, Entry(Results, app.session, now))
  {
    var v := Validate(app.session.weights);
    if !v.isValid then
      Transition(app, Refused(Imbalanced(v.invalidGroups)))
    else
      var outcome := Engine.Evaluate(app.session.weights, app.session.optionA, app.session.optionB);
      Transition(Show(app, app.session, Results, now).app, Scored(outcome))
  }

  /** Rows whose text is all empty contribute no choice. */
  lemma {:induction false} BlankRowsNoChoices(inputs: seq<string>)
    requires forall k :: 0 <= k < |inputs| ==> inputs[k] == ""
    ensures Choices.Choices(inputs) == []
    decreases |inputs|
  {
    if |inputs| > 0 {
      BlankRowsNoChoices(inputs[1..]);
    }
  }

  /** startOver: the choice rows are emptied (their number kept), the
      choice list and the selection cleared, and the brainstorm step shown.
      The textareas and steppers are left as they are. */
  function StartOver(app: App, now: int): (t: Transition)
    requires CursorOk(app)
    ensures |t.app.session.inputs| == |app.session.inputs|
    ensures forall k :: 0 <= k < |t.app.session.inputs| ==> t.app.session.inputs[k] == ""
    ensures t.app.session.choices == [] == Choices.Choices(t.app.session.inputs)
    ensures t.app.session.optionA == "" && t.app.session.optionB == ""
    ensures t.app.session.analysis == app.session.analysis && t.app.session.weights == app.session.weights
    ensures t.app.stage == Brainstorm
    ensures t.app.listeners == app.listeners
    ensures t.app.history == Record(app.history, Entry(Brainstorm, t.app.session, now))
  {
    var inputs := seq(|app.session.inputs|, k => "");
    BlankRowsNoChoices(inputs);
    Show(app, app.session.(inputs := inputs, choices := [], optionA := "", optionB := ""), Brainstorm, now)
  }

  /** restoreState: the snapshot replaces the session. The rows are rebuilt
      only when the snapshot has some, and then the choice list is re-read
      from them; the steppers are re-balanced from their first inputs. */
  function Restore(current: Session, snap: Session): (r: Session)
    ensures r.optionA == snap.optionA && r.optionB == snap.optionB && r.analysis == snap.analysis
    ensures |snap.inputs| > 0 ==> r.inputs == snap.inputs && r.choices == Choices.Choices(snap.inputs)
    ensures |snap.inputs| == 0 ==> r.inputs == current.inputs && r.choices == snap.choices
    ensures AllBalanced(r.weights) && AllInRange(r.weights)
    ensures WellFormed(snap) ==> r == snap
  {
    RebalanceKeeps(snap.weights);
    var w := Rebalance(snap.weights);
    if |snap.inputs| > 0 then
      Session(snap.inputs, Choices.Choices(snap.inputs), snap.optionA, snap.optionB, snap.analysis, w)
    else
      Session(current.inputs, snap.choices, snap.optionA, snap.optionB, snap.analysis, w)
  }

  /** goBack and goForward at the page level: if the history moved, the
      entry's snapshot is restored and its section shown, without
      recording. */
  function Travel(app: App, m: Move<Session>): (r: App)
    ensures m.restored.None? ==> r == app
    ensures r.listeners == app.listeners
    ensures m.restored.Some? ==> && r.history == m.history
                                 && r.stage == m.restored.value.section
                                 && r.session == Restore(app.session, m.restored.value.state)
  {
    match m.restored
    case None => app
    case Some(e) => app.(session := Restore(app.session, e.state), stage := e.section, history := m.history)
  }

  function Back(app: App): (r: App)
    requires CursorOk(app)
    ensures !CanGoBack(app.history) ==> r == app
    ensures r.listeners == app.listeners
    ensures CanGoBack(app.history) ==>
              && r.history == app.history.(cursor := app.history.cursor - 1)
              && r.stage == app.history.entries[r.history.cursor].section
              && r.session == Restore(app.session, app.history.entries[r.history.cursor].state)
  {
    Travel(app, GoBack(app.history))
  }

  function Forward(app: App): (r: App)
    requires CursorOk(app)
    ensures !CanGoForward(app.history) ==> r == app
    ensures r.listeners == app.listeners
    ensures CanGoForward(app.history) ==>
              && r.history == app.history.(cursor := app.history.cursor + 1)
              && r.stage == app.history.entries[r.history.cursor].section
              && r.session == Restore(app.session, app.history.entries[r.history.cursor].state)
  {
    Travel(app, GoForward(app.history))
  }

  /** In a reachable state, going back restores the previous snapshot
      exactly and shows its section. */
  lemma BackRestoresExactly(app: App)
    requires Invariant(app) && CanGoBack(app.history)
    ensures Back(app).session == app.history.entries[app.history.cursor - 1].state
    ensures Back(app).stage == app.history.entries[app.history.cursor - 1].section
  {
    assert WellFormed(app.history.entries[app.history.cursor - 1].state);
  }

  /** In a reachable state, going forward restores the next snapshot
      exactly and shows its section. */
  lemma ForwardRestoresExactly(app: App)
    requires Invariant(app) && CanGoForward(app.history)
    ensures Forward(app).session == app.history.entries[app.history.cursor + 1].state
    ensures Forward(app).stage == app.history.entries[app.history.cursor + 1].section
  {
    var e := app.history.entries[app.history.cursor + 1];
    var m := GoForward(app.history);
    assert m.restored == Some(e);
    assert WellFormed(e.state);
    assert Restore(app.session, e.state) == e.state;
  }

  /** The page shows exactly what the history entry under the cursor
      recorded, as it does right after any recorded transition. */
  predicate AtEntry(app: App) {
    && 0 <= app.history.cursor < |app.history.entries|
    && app.history.entries[app.history.cursor].state == app.session
    && app.history.entries[app.history.cursor].section == app.stage
  }

  /** From a recorded page, back then forward gives the same page again. */
  lemma BackThenForwardRestoresPage(app: App)
    requires Invariant(app) && AtEntry(app) && CanGoBack(app.history)
    ensures Forward(Back(app)) == app
  {
    var b := Back(app);
    ApplyKeepsInvariant(app, GoBackAction, 0);
    assert CanGoForward(b.history);
    ForwardRestoresExactly(b);
  }

  /** The user's actions on the page. */
  datatype Action =
    | EditChoiceAt(i: nat, text: string)
    | AddRow
    | RemoveRowAt(i: nat)
    | EnterAt(i: nat)
    | Write(x: Analysis)
    | Proceed
    | Select(a: string, b: string)
    | GoToScoring(confirmed: bool)
    | Type(step: Step, side: Side, raw: Option<int>)
    | Press(step: Step, side: Side, n: Nudge)
    | Calculate
    | Restart
    | GoBackAction
    | GoForwardAction

  /** The row indices an action names exist, and a stepper is typed into
      only once its listeners are attached. */
  predicate Applicable(app: App, a: Action) {
    match a
    case EditChoiceAt(i, _) => i < |app.session.inputs|
    case RemoveRowAt(i) => i < |app.session.inputs|
    case EnterAt(i) => i < |app.session.inputs|
    case Type(_, _, _) => app.listeners > 0
    case _ => true
  }

  function Apply(app: App, a: Action, now: int): (r: App)
    requires CursorOk(app) && Applicable(app, a)
  {
    match a
    case EditChoiceAt(i, text) => EditChoice(app, i, text)
    case AddRow => AddChoiceRow(app)
    case RemoveRowAt(i) => RemoveChoiceRow(app, i)
    case EnterAt(i) => EnterOnChoice(app, i)
    case Write(x) => EditAnalysis(app, x)
    case Proceed => ProceedToComparison(app, now).app
    case Select(x, y) => StartComparison(app, x, y, now).app
    case GoToScoring(confirmed) => ProceedToScoring(app, confirmed, now).app
    case Type(step, side, raw) => TypeWeight(app, step, side, raw)
    case Press(step, side, n) => NudgeWeight(app, step, side, n)
    case Calculate => CalculateResult(app, now).app
    case Restart => StartOver(app, now).app
    case GoBackAction => Back(app)
    case GoForwardAction => Forward(app)
  }

  /** Recording a well-formed session keeps every snapshot well-formed. */
  lemma RecordKeepsSnapshots(h: History<Session>, e: Entry<Session>)
    requires Valid(h) && WellFormed(e.state)
    requires forall i :: 0 <= i < |h.entries| ==> WellFormed(h.entries[i].state)
    ensures forall i :: 0 <= i < |Record(h, e).entries| ==> WellFormed(Record(h, e).entries[i].state)
  {
    var r := Record(h, e);
    forall i | 0 <= i < |r.entries| ensures WellFormed(r.entries[i].state) {
      if i < |r.entries| - 1 {
        assert r.entries[i] == h.entries[h.cursor + 2 - |r.entries| + i];
      }
    }
  }

  /** Every action keeps the invariant: at least one row, the choice list
      read off the rows, all pairs balanced and in range, at most 20
      history entries with the cursor on one, and well-formed snapshots. */
  lemma ApplyKeepsInvariant(app: App, a: Action, now: int)
    requires Invariant(app) && Applicable(app, a)
    ensures Invariant(Apply(app, a, now))
  {
    var r := Apply(app, a, now);
    match a
    case EditChoiceAt(i, text) =>
    case AddRow =>
    case RemoveRowAt(i) =>
    case EnterAt(i) =>
    case Write(x) =>
    case Proceed =>
      if |app.session.choices| >= 2 {
        RecordKeepsSnapshots(app.history, Entry(r.stage, r.session, now));
      }
    case Select(x, y) =>
      if !BadSelection(x, y) {
        RecordKeepsSnapshots(app.history, Entry(r.stage, r.session, now));
      }
    case GoToScoring(confirmed) =>
      if HasContent(app.session.analysis) || confirmed {
        assert AllBalanced(Reset) && AllInRange(Reset) by {
          assert forall t: Step :: Reset.Get(t) == Even;
        }
        RecordKeepsSnapshots(app.history, Entry(r.stage, r.session, now));
      }
    case Type(step, side, raw) =>
    case Press(step, side, n) =>
    case Calculate =>
      if AllBalanced(app.session.weights) {
        RecordKeepsSnapshots(app.history, Entry(r.stage, r.session, now));
      }
    case Restart =>
      RecordKeepsSnapshots(app.history, Entry(r.stage, r.session, now));
    case GoBackAction =>
      if CanGoBack(app.history) {
        BackRestoresExactly(app);
      }
    case GoForwardAction =>
      if CanGoForward(app.history) {
        ForwardRestoresExactly(app);
      }
  }

  /** Two choices, "Job" and "Stay": proceeding skips the selection step,
      and with the steppers left at 50 the result is a Fence Sitter with
      no winner. */
  lemma JobOrStay()
    ensures var app := Init(["Job", "Stay"], 0);
            var compared := ProceedToComparison(app, 1).app;
            var scoring := ProceedToScoring(compared, true, 2).app;
            var result := CalculateResult(scoring, 3).status;
            && compared.stage == Comparison
            && compared.session.optionA == "Job" && compared.session.optionB == "Stay"
            && result.Scored? && result.outcome.kind == Engine.FenceSitter && result.outcome.winner == None
  {
    var app := Init(["Job", "Stay"], 0);
    JobAndStayAreChoices();
    var compared := ProceedToComparison(app, 1).app;
    assert compared.session.optionA == "Job" && compared.session.optionB == "Stay";
    var scoring := ProceedToScoring(compared, true, 2).app;
    assert scoring.session.weights == Reset;
    assert AllBalanced(Reset) by {
      assert forall t: Step :: Reset.Get(t) == Even;
    }
    Engine.EvenWeightsAreFenceSitter("Job", "Stay");
  }

  /** From a page with no stepper listeners yet, as `Init` leaves it,
      completing proceedToScoring twice (proceed to scoring, go back,
      proceed to scoring again) and pressing plus once on the first stepper
      moves it from 50 to 60, not to 55 as one press is meant to. */
  lemma TwoVisitsDoubleStep(app: App, now: int)
    requires CursorOk(app) && app.listeners == 0
    ensures var scoring := ProceedToScoring(app, true, now).app;
            var again := ProceedToScoring(Back(scoring), true, now + 1).app;
            && again.listeners == 2 && again.session.weights == Reset
            && NudgeWeight(again, InternalA, Left, Plus).session.weights.internalA == Pair(60, 40)
            && NudgeOnce(again, InternalA, Left, Plus).session.weights.internalA == Pair(55, 45)
  {
    var scoring := ProceedToScoring(app, true, now).app;
    assert scoring.listeners == 1;
    var back := Back(scoring);
    assert back.listeners == 1 && CursorOk(back);
    var again := ProceedToScoring(back, true, now + 1).app;
    assert again.listeners == 2 && again.session.weights == Reset;
    assert AdjustRepeated(Even, Left, Plus, 2) == Pair(60, 40);
  }

  /** Returning to the scoring step by back and forward attaches no
      listeners: the page is the one proceedToScoring left, so from a page
      with none attached yet one press there still moves the stepper by 5. */
  lemma ForwardVisitKeepsStep(app: App, now: int)
    requires Invariant(app) && |app.history.entries| > 0
    ensures var scoring := ProceedToScoring(app, true, now).app;
            && Forward(Back(scoring)) == scoring
            && scoring.stage == Stage.Scoring && scoring.listeners == app.listeners + 1
            && (app.listeners == 0 ==>
                  NudgeWeight(Forward(Back(scoring)), InternalA, Left, Plus).session.weights.internalA == Pair(55, 45))
  {
    var scoring := ProceedToScoring(app, true, now).app;
    ApplyKeepsInvariant(app, GoToScoring(true), now);
    assert scoring.session.weights == Reset;
    assert |scoring.history.entries| >= 2;
    BackThenForwardRestoresPage(scoring);
    assert AdjustRepeated(Even, Left, Plus, 1) == Pair(55, 45);
  }

  /** With exactly two choice rows holding the same text, the two-choice
      shortcut compares that option with itself: unlike startComparison,
      it does not check that A and B differ. */
  lemma DuplicateShortcut()
    ensures var app := Init(["Job", "Job"], 0);
            var t := ProceedToComparison(app, 1);
            && t.status == Done && t.app.stage == Comparison
            && t.app.session.optionA == "Job" && t.app.session.optionB == "Job"
            && BadSelection(t.app.session.optionA, t.app.session.optionB)
  {
    PlainWord("Job");
    ChoicesAppend(["Job"], ["Job"]);
    assert ["Job"] + ["Job"] == ["Job", "Job"];
  }

  lemma JobAndStayAreChoices()
    ensures Choices.Choices(["Job", "Stay"]) == ["Job", "Stay"]
  {
    PlainWord("Job");
    PlainWord("Stay");
    ChoicesAppend(["Job"], ["Stay"]);
    assert ["Job"] + ["Stay"] == ["Job", "Stay"];
  }

  lemma PlainWord(w: string)
    requires w != [] && !IsWhite(w[0]) && !IsWhite(w[|w| - 1])
    ensures Choices.Choices([w]) == [w]
  {
    TrimOfTrimmed(w);
    ChoicesOne(w);
  }
}
