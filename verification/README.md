# Decision helper engine, in Dafny

A model of the decision engine in `script.js`, the client-side script of a
single-page "which option should I pick" helper. The user goes through five
stages:

1. Brainstorm: list the options.
2. Selection: pick two of them.
3. Comparison: write the advantages and disadvantages of each.
4. Scoring: split 100 points between the two sides of four weight pairs.
5. Results: one option is recommended and the decision gets a label.

Every forward section change is recorded in a bounded undo/redo history;
moving back and forward through that history changes the section without
recording.

The model keeps the logic and drops the DOM. Page state is an immutable
`Session` value, and each handler becomes a pure function from the page state
to the next one.

Modules (one file each):

- `Wrappers` holds `Option`.
- `Choices` covers JavaScript `trim`, the choice list read off the input
  rows, and adding, removing and Enter on rows.
- `Allocation` covers the weight pairs. Each pair has two steppers that always
  add up to 100. It models the ±5 buttons, the four steps, and the safety-net
  validator `validateStepperTotals`.
- `Legacy` is the earlier paired-number controls with a slider
  (`handleValueButtonClick`, `handleEditableValueBlur`,
  `updateValueAndSlider`). It is shown to agree with the stepper logic.
- `Scoring` covers the two scores, the winner and the five-rung label ladder.
- `Navigation` is the history: a sequence of (section, snapshot, timestamp)
  entries and a cursor. Recording drops the forward branch and keeps the
  newest 20 entries; back and forward are also modelled.
- `Workflow` is the page as a whole:
  - the stage gates (`proceedToComparison`, `startComparison`,
    `proceedToScoring`, `calculateResult`, `startOver`);
  - `restoreState`;
  - an `Action` type of the user's events on the workflow page (choice
    rows, the four textareas, the buttons of each step, the steppers, back
    and forward), with a proof that every action keeps the page invariant.
    The legacy controls are modelled on their own in `Legacy`, not as
    actions.

Three things are modelled as data:

- JavaScript's `parseInt(text) || d` is `Allocation.ReadOr(raw, d)`. `raw` is
  the integer `parseInt` reads, or `None` for NaN. Both NaN and 0 fall back to
  `d`.
- `Date.now()` becomes a `now` parameter.
- The answer to the `confirm` dialog in `proceedToScoring` becomes a
  `confirmed` parameter.

Some of the code's behaviour is easy to misread; the model follows the code
as written:

- `calculateResult` reads each stepper with `|| 50`, so a stepper holding 0
  counts as 50 (`Scoring.ZeroReadsAsFifty`).
- The No Brainer rung needs one score strictly above 50 and the other
  strictly below -50. Steps (70,30), (40,60), (60,40), (30,70) score 70 and
  -50, so they are a Clear Choice, not a No Brainer
  (`Scoring.StrongSplitIsClearChoice`).
- `startComparison` stores the two selections before it checks them, so a
  refused selection still replaces option A and option B
  (`Workflow.StartComparison`).
- The two-choice shortcut of `proceedToComparison` takes the first two
  choices without checking that they differ, so two rows with the same
  text compare that option with itself (`Workflow.DuplicateShortcut`).
  `startComparison` refuses such a pair.
- `startOver` empties the choice rows, the choice list and the selection. It
  leaves the textareas and the steppers alone (`Workflow.StartOver`).
- After `initializeNavigationHistory` the cursor is 0 and the history holds
  one Brainstorm entry (`Navigation.Initialize`).
- When `loadSavedData` reads a saved cursor, `currentHistoryIndex || -1`
  turns a saved cursor of 0 into -1. Persistence is not modelled, but
  `Navigation` accepts a cursor of -1.

## Model

| member | source | states |
|---|---|---|
| `Choices.TrimIsTrimOf` | script.js:171-173 | `trim` removes a white-space prefix and suffix (the ECMAScript WhiteSpace and LineTerminator code points) and nothing else; what is left has no white space at either end; the result is empty exactly when the text is all white space |
| `Choices.TrimOfTrimmed` | script.js:172 | text with no white space at either end trims to itself |
| `Choices.ChoicesAreTrimmed` | script.js:171-173 | every choice is non-empty and trimmed |
| `Choices.ChoicesAppend` | script.js:171-173 | rows are read independently and in order: the choices of two runs of rows are the choices of the first followed by those of the second |
| `Choices.ChoicesSingle` | script.js:172-173 | one row contributes its trimmed text, or nothing when it is all white space |
| `Choices.ChoicesSnoc` | script.js:171-173 | one more row at the end extends the choice list by that row's contribution only |
| `Choices.UpdateChoices` | script.js:169-177 | the loop computes exactly the reference choice list: trimmed rows, empties dropped, order kept |
| `Choices.AddInput` | script.js:126-138 | adding a row appends one empty row and keeps the others |
| `Choices.AddInputKeepsChoices` | script.js:126-138 | a new empty row adds no choice |
| `Choices.RemoveInput` | script.js:147-156 | a row is removed only while more than one exists; the others keep their order; at least one row always remains |
| `Choices.ChoicesAround` | script.js:171-173 | the choice list splits around any row into the choices before it, its own contribution, and the choices after it |
| `Choices.RemoveInputChoices` | script.js:147-156 | removing a row drops exactly that row's contribution from the choice list |
| `Choices.EnterOnInput` | script.js:158-167 | Enter adds a row exactly when the current row is not all white space |
| `Allocation.Clamp` | script.js:397 | the result lies in [0, 100]; values inside are kept, values below give 0, values above give 100 |
| `Allocation.WithSide` | script.js:398-406 | the chosen side holds the value and the other side holds 100 minus it |
| `Allocation.SetSide` | script.js:394-406 | after typing into one stepper the pair is balanced and in range; an in-range value is kept; above 100 gives 100; NaN or negative gives 0 |
| `Allocation.Adjust` | script.js:453-464 | a ±5 press leaves the pair balanced and in range; the pressed side moves by 5, clamped to [0, 100], before its partner is balanced |
| `Allocation.SetSideKeepsBalanced` | script.js:473-486 | re-running the change handler on a balanced, in-range pair changes nothing |
| `Allocation.AdjustRoundTrip` | script.js:453-458 | away from the bounds, plus then minus (or minus then plus) on one side gives the original pair back |
| `Allocation.AdjustOtherSide` | script.js:445-449 | on a balanced pair, plus on one side is the same as minus on the other |
| `Allocation.SetWeight` | script.js:370-371 | typing into a stepper changes only that step's pair, as `SetSide` does; all pairs stay balanced and in range |
| `Allocation.AdjustWeight` | script.js:445-449 | one run of a ±5 button listener changes only that step's pair, as `Adjust` does; all pairs stay balanced and in range |
| `Allocation.AdjustRepeated` | script.js:453-464 | `count` runs of `adjustStepperValue` on one side: none leaves the pair alone; otherwise the pair is balanced and in range, and from an in-range pair the side ends at the start value plus or minus 5 × count, clamped to [0, 100] |
| `Allocation.AdjustWeightRepeated` | script.js:435-450 | a ±5 button carrying `count` listeners changes only that step's pair, by `AdjustRepeated`; all pairs stay balanced and in range |
| `Allocation.RepeatedOnce` | script.js:445-449 | with a single listener a press is exactly one `AdjustWeight` |
| `Allocation.StepsNumbered` | script.js:514-526 | the step at index k has step number k + 1, and it is the only one |
| `Allocation.FailingFrom` | script.js:512-534 | over the steps after k, every entry reports an unbalanced pair with its number, name and total; every unbalanced pair is reported; numbers increase |
| `Allocation.FailingFromReports` | script.js:524-531 | an entry records its step number, its step name and its pair's total, which is not 100 |
| `Allocation.FailingFromComplete` | script.js:514-534 | no unbalanced step is left out |
| `Allocation.FailingFromOrdered` | script.js:514-534 | the steps are reported in step order |
| `Allocation.NoneFailingIff` | script.js:536-537 | nothing is reported exactly when every pair after k is balanced |
| `Allocation.FailingFromZero` | script.js:512-537 | since every step number is positive, the report over the steps after 0 is empty exactly when every pair is balanced, and names every unbalanced pair |
| `Allocation.Failing` | script.js:512-537 | the report is empty exactly when every pair is balanced, and it lists exactly the unbalanced pairs, once each, in step order |
| `Allocation.Validate` | script.js:488-541 | `isValid` holds exactly when every pair totals 100, which is exactly when `invalidGroups` is empty; the groups report exactly the failing pairs, in step order; `totalSteps` is 4 |
| `Legacy.UpdateValue` | script.js:1224-1267 | the named number takes the value, the other becomes 100 minus it, and the slider follows the right-hand number |
| `Legacy.Bump` | script.js:1184-1188 | on values in [0, 100], a press moves by 5 clamped to [0, 100] |
| `Legacy.Click` | script.js:1171-1193 | a press keeps the pair synced and in range, and moves the pressed number by 5 within [0, 100] |
| `Legacy.Blur` | script.js:1195-1207 | an edited number is read leniently, clamped, and leaves the pair synced and in range |
| `Legacy.ClickAgreesWithAdjust` | script.js:1181-1192 | on a synced pair the legacy buttons give the same pair as the stepper buttons |
| `Legacy.BlurAgreesWithSetSide` | script.js:1199-1206 | editing a legacy number gives the same pair as typing into a stepper |
| `Scoring.Read` | script.js:612-619 | a stepper value is read as itself, except that 0 is read as 50 |
| `Scoring.ComputeScores` | script.js:612-630 | each score is its advantages minus its disadvantages; with every stepper in [0, 100] both scores lie in [-200, 200]; for every input, each total is the sum of its two steppers as `Read` gives them (0 reads as 50): A's advantages circle1 + circle5, A's disadvantages circle2 + circle7, B's advantages circle3 + circle6, B's disadvantages circle4 + circle8; with no zero stepper these are the raw stepper sums |
| `Scoring.Rank` | script.js:688-703 | each label has its place on the ladder in the order the chain tries them |
| `Scoring.Classify` | script.js:688-703 | the label is the first rung whose test the scores pass |
| `Scoring.ExactlyOneLabel` | script.js:688-703 | exactly one label is the first fit, and it is the one the chain gives |
| `Scoring.Winner` | script.js:681-685 | the higher score wins; a tie has no winner |
| `Scoring.Evaluate` | script.js:611-703 | the result carries the two options, the computed scores, the winner of those scores and the first-fit label; scores lie in [-200, 200] for in-range steppers |
| `Scoring.TieIsFenceSitter` | script.js:688-692 | equal scores are always a Fence Sitter |
| `Scoring.DecidedLabelsHaveWinner` | script.js:681-703 | every label but Fence Sitter has a winner, and the scores are more than 20 apart unless it is a No Brainer |
| `Scoring.NoBrainerIsFarApart` | script.js:688-692 | No Brainer scores are over 100 apart, so they never pass the Fence Sitter test |
| `Scoring.FenceSitterBeatsCantLose` | script.js:691-696 | scores 10 and 5 pass the Can't Lose test, but Fence Sitter is tried first and wins |
| `Scoring.EvenWeightsAreFenceSitter` | script.js:624-630 | all steppers at 50 give scores 0 and 0, a Fence Sitter, and no winner |
| `Scoring.StrongSplitIsClearChoice` | script.js:688-703 | scores 70 and -50 are a Clear Choice for A, because the No Brainer test wants B strictly below -50 |
| `Scoring.ZeroReadsAsFifty` | script.js:612-619 | a balanced first step of (0, 100) scores A as if it were (50, 100) |
| `Scoring.LabelTextInjective` | script.js:689-701 | distinct labels show distinct texts |
| `Navigation.Empty` | script.js:23-24 | the empty history is valid |
| `Navigation.Record` | script.js:1550-1572 | recording gives a valid history with the cursor on the new last entry; from a cursor of -1 only the new entry remains (`slice(0, 0)`); from a valid history it keeps min(cursor + 2, 20) entries, the earlier ones being the newest entries up to the old cursor, in order |
| `Navigation.GoBack` | script.js:1627-1636 | back moves the cursor down by one and returns that entry when the cursor is above 0; otherwise nothing changes; validity is kept |
| `Navigation.GoForward` | script.js:1638-1647 | forward moves the cursor up by one and returns that entry when it is below the last; otherwise nothing changes; validity is kept |
| `Navigation.Initialize` | script.js:1723-1734 | an empty history gets one Brainstorm entry with the cursor at 0; a non-empty one is left as it is |
| `Navigation.BackThenForward` | script.js:1619-1647 | back then forward gives the same history and returns the entry left from |
| `Navigation.ForwardThenBack` | script.js:1619-1647 | forward then back gives the same history and returns the entry left from |
| `Navigation.RecordIntoEmpty` | script.js:1555-1571 | recording into an empty history gives one entry and cursor 0 |
| `Navigation.RecordAll` | script.js:1550-1572 | recording entries one after another keeps the history valid |
| `Navigation.RecordAllKeepsNewest` | script.js:1566-1571 | recording any number of entries from empty keeps exactly the newest 20 in order, with the cursor on the last |
| `Navigation.RecordSlides` | script.js:1566-1571 | recording onto the newest entries of a run keeps the newest entries of the run extended by one |
| `Navigation.TwentyFiveRecords` | script.js:1567-1569 | after 25 records the oldest 5 are gone and the cursor is 19 |
| `Navigation.BranchDiscard` | script.js:1554-1557 | recording after going back replaces the entry that was ahead of the cursor: three entries, with the cursor on the new one and nothing to go forward to |
| `Navigation.UndoRedo` | script.js:1619-1647 | with three entries recorded, back restores the second then the first, after which back is not allowed; forward then restores the second and the third and gives the recorded history back |
| `Workflow.Resync` | script.js:482-485 | re-running the change handler from a pair's first stepper clamps it and balances its partner; a balanced, in-range pair is unchanged |
| `Workflow.Rebalance` | script.js:473-486 | `initializeSteppers` re-synchronises each pair from its first stepper and leaves every pair balanced and in range |
| `Workflow.ResyncEach` | script.js:482-485 | the four pairs are re-synchronised independently; already balanced, in-range steppers are unchanged |
| `Workflow.RebalanceKeeps` | script.js:1694-1695 | re-initialising balanced, in-range steppers changes nothing |
| `Workflow.Show` | script.js:761-765 | a section change records the session on arrival and shows the section; the page is then at the recorded entry |
| `Workflow.Init` | script.js:64-72 | the choice list is read off the rows, the stage is Brainstorm, the history is one Brainstorm entry at cursor 0, and the page invariant holds |
| `Workflow.EditChoice` | script.js:140-145 | editing a row re-reads the choice list from the rows; nothing else changes |
| `Workflow.AddChoiceRow` | script.js:126-138 | adding a row keeps the choice list, which still matches the rows; nothing else changes |
| `Workflow.RemoveChoiceRow` | script.js:147-156 | the last row is never removed; otherwise the row goes and the choice list is re-read; nothing else changes |
| `Workflow.EnterOnChoice` | script.js:158-167 | Enter adds a row exactly when the current row has non-blank text |
| `Workflow.ProceedToComparison` | script.js:179-212 | refused, with the page unchanged, exactly when fewer than 2 choices exist; with exactly 2, A and B are the first two, the textareas are cleared and Comparison is recorded; with more, Selection is recorded and the session is unchanged |
| `Workflow.StartComparison` | script.js:249-270 | refused exactly when a side is empty or both are equal; the two selections are stored either way; when accepted the textareas are cleared and Comparison is recorded |
| `Workflow.ProceedToScoring` | script.js:272-352 | with a blank textarea and no confirmation the page is unchanged; otherwise every stepper is 50, one more set of stepper listeners is attached (the count goes up by one), and Scoring is recorded |
| `Workflow.TypeWeight` | script.js:370-371 | once listeners are attached, typing into a stepper changes only the steppers, as `SetWeight` does; running the handler once per listener gives the same result as once |
| `Workflow.NudgeWeight` | script.js:435-464 | as the page behaves: a ±5 button runs `adjustStepperValue` once per attached listener set, so from an in-range pair the side moves by 5 × (completed `proceedToScoring` calls since page load), clamped; back and forward arrivals add none; only the steppers change |
| `Workflow.NudgeOnce` | script.js:453-464 | as evidently intended: one press moves the side by exactly 5, clamped to [0, 100], and changes nothing else; with one listener set it equals `NudgeWeight` |
| `Workflow.EditAnalysis` | script.js:110-114 | typing into a textarea replaces the four texts and changes nothing else on the page |
| `Workflow.CalculateResult` | script.js:601-669 | refused with the validator's groups, page unchanged, exactly when a pair is unbalanced; otherwise the result is evaluated from the steppers and the selection, and Results is recorded |
| `Workflow.BlankRowsNoChoices` | script.js:800-801 | emptied rows give no choices |
| `Workflow.StartOver` | script.js:793-810 | the rows are emptied with their number kept; choice list and selection are cleared; textareas and steppers are kept; Brainstorm is recorded |
| `Workflow.Restore` | script.js:1649-1706 | the selection and textareas come from the snapshot; the rows are rebuilt and re-read only when the snapshot has rows, otherwise the snapshot's choice list is taken; steppers are re-balanced; a well-formed snapshot is restored exactly |
| `Workflow.Travel` | script.js:1627-1647 | when the history moved, the entry's snapshot is restored and its section shown without recording; otherwise nothing changes |
| `Workflow.Back` | script.js:1627-1636 | back, when allowed, moves the cursor down one and restores that entry; otherwise the page is unchanged |
| `Workflow.Forward` | script.js:1638-1647 | forward, when allowed, moves the cursor up one and restores that entry; otherwise the page is unchanged |
| `Workflow.BackRestoresExactly` | script.js:1627-1636 | in a reachable page, back shows exactly the previous entry's session and section |
| `Workflow.ForwardRestoresExactly` | script.js:1638-1647 | in a reachable page, forward shows exactly the next entry's session and section |
| `Workflow.BackThenForwardRestoresPage` | script.js:1619-1647 | from a page just recorded, back then forward gives the same page |
| `Workflow.RecordKeepsSnapshots` | script.js:1550-1572 | recording a well-formed session keeps every stored snapshot well-formed |
| `Workflow.ApplyKeepsInvariant` | script.js:104-811 | every user action, textarea edits included, keeps the invariant: at least one row, the choice list matching the rows, all pairs balanced and in range, at most 20 history entries with the cursor on one, and every snapshot well-formed |
| `Workflow.TwoVisitsDoubleStep` | script.js:349-375 | from any page with no listeners attached yet (as `Init` leaves it): proceed to scoring, go back, proceed to scoring again, then one plus press on the first stepper ends at 60/40 on the page, where one press is meant to give 55/45 |
| `Workflow.ForwardVisitKeepsStep` | script.js:1627-1647 | from any reachable page with a non-empty history: after proceeding to scoring, back then forward gives exactly that page again, with the listener count raised by the one `proceedToScoring` only; from a page with none attached, one plus press there gives 55/45 |
| `Workflow.DuplicateShortcut` | script.js:186-189 | two rows both "Job" take the two-choice shortcut to Comparison with A = B = "Job", a pair `startComparison` would refuse |
| `Workflow.JobOrStay` | script.js:186-205 | two choices "Job" and "Stay" skip the selection step with A = Job and B = Stay; with untouched steppers the result is a Fence Sitter with no winner |
| `Workflow.JobAndStayAreChoices` | script.js:171-173 | the rows "Job" and "Stay" give the choices "Job" and "Stay" |

## Findings

| source | as written | input that shows it | evidently intended | confidence | as-written member | corrected member |
|---|---|---|---|---|---|---|
| script.js:349-375 | every `proceedToScoring` runs `setupComparisonInputListeners`, which adds one more click listener to each ±5 button and never removes the earlier ones; one click then runs `adjustStepperValue` once per completed `proceedToScoring` since page load; back and forward arrivals at the scoring step add none (`Workflow.ForwardVisitKeepsStep`) | from `Init` (no listeners yet): GoToScoring(true), Back, GoToScoring(true), plus on the first stepper: 60/40 | one press moves the stepper by 5 (55/45) | not executed; high, since script.js has no `removeEventListener` | `Workflow.NudgeWeight`, `Workflow.TwoVisitsDoubleStep` | `Workflow.NudgeOnce` |

The page-level `Apply` follows the code as written and uses
`NudgeWeight`. `NudgeOnce` is the intended press, stated on its own:
it moves the value by exactly 5, and it agrees with `NudgeWeight` when
the listeners are attached once.

## Left out

- The DOM is not modelled: element lookups, `innerHTML` rendering of results, option titles, section show/hide, focus, scrolling, `populateSelectors` and `updateAvailableOptions`. The stage and the session stand in for what is shown.
- Persistence (`saveData`, `loadSavedData`, `clearSavedData`) is browser storage and JSON I/O. Its `currentHistoryIndex || -1` quirk is noted in the `Navigation` module comment.
- Sharing and export (`shareResults`, `fallbackShare`, `showTextAreaShare`, `generateShareText`, `savePDF`) are asynchronous browser APIs and printing.
- Service-worker registration, meta tags and the dev-mode mock data (`checkDevModeHash`, `setupMockData*`) are environment setup.
- Timers, screen-reader announcements, ARIA text and slider backgrounds only affect presentation.
- `universalStartOver` reloads the page.
- `showValidationError` and the visual indicators for invalid groups only display the validator's report. That report is modelled.
- `handleEditableValueKeydown` only filters keystrokes.
- `alert` and `confirm` are dialogs. The answer to `confirm` is the `confirmed` parameter.
- `Date.now()` is the `now` parameter.
- Workflow.Init: the initial rows, stepper values and textarea texts come from the page markup, which is not part of this model. `Init` takes the rows as a parameter and assumes the steppers start at 50/50 and the textareas empty.
- Typing into a stepper before the scoring step has ever been entered is left out. No input listener is attached then, so the typed text would stay unbalanced, and the steppers are not shown before that step anyway. `Apply` allows `Type` only when `listeners > 0`.
- `navigateToSection` with `skipHistory` also attaches a set of stepper listeners. It is called only when saved data is loaded, which is not modelled.
- `parseInt` is not modelled beyond its result. Each typed value is given as an integer, or as none when `parseInt` gives NaN. Prefix parsing of text such as "12abc" is left out.
- Snapshots store stepper values read as `value || 50` from text. The model keeps steppers as integers, so an empty stepper text has no counterpart.
- The row-removal loop of `restoreState` is modelled by its outcome: exactly the snapshot's rows.
- `Choices.Choices`: its own contract states only a length bound. What it computes is stated by `Choices.UpdateChoices`, `Choices.ChoicesAppend`, `Choices.ChoicesSingle` and `Choices.ChoicesAreTrimmed`.
