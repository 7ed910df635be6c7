/**
 Navigation history (script.js, addToNavigationHistory, canGoBack,
 canGoForward, goBack, goForward, initializeNavigationHistory): a list of
 (section, snapshot) entries and a cursor. Recording a transition drops the
 forward branch, appends, keeps the newest 20 entries and moves the cursor
 to the tip; back and forward move the cursor by one and hand back the
 entry to restore.

 The saved copy of the cursor is reloaded with `currentHistoryIndex || -1`,
 which turns a saved cursor of 0 into -1; saving and loading are not part
 of this model, so the operations below accept a cursor of -1 over a
 non-empty list too.
 */
module Navigation {
  import opened Wrappers

  /** The five sections of the page, in workflow order. */
  datatype Stage = Brainstorm | Selection | Comparison | Scoring | Results

  /** One history entry; `state` is the snapshot taken on arrival. */
  datatype Entry<S> = Entry(section: Stage, state: S, timestamp: int)

  datatype History<S> = History(entries: seq<Entry<S>>, cursor: int)

  /** The most entries the history keeps. */
  const Capacity: nat := 20

  function Min(a: int, b: int): int {
    if a < b then a else b
  }

  /** At most 20 entries, and the cursor is on one of them, or -1 when
      there are none. */
  predicate Valid<S>(h: History<S>) {
    && |h.entries| <= Capacity
    && (if |h.entries| == 0 then h.cursor == -1 else 0 <= h.cursor < |h.entries|)
  }

  /** The history before anything is recorded. */
  function Empty<S>(): (h: History<S>)
    ensures Valid(h) && |h.entries| == 0
  {
    History([], -1)
  }

  /** addToNavigationHistory. */
  function Record<S>(h: History<S>, e: Entry<S>): (r: History<S>)
    requires h.cursor >= -1
    ensures Valid(r) && |r.entries| >= 1
    ensures r.cursor == |r.entries| - 1
    ensures r.entries[|r.entries| - 1] == e
    ensures h.cursor == -1 ==> r.entries == [e]
    ensures Valid(h) ==> |r.entries| == Min(h.cursor + 2, Capacity)
    ensures Valid(h) ==> forall i :: 0 <= i < |r.entries| - 1 ==> r.entries[i] == h.entries[h.cursor + 2 - |r.entries| + i]
  {
    var kept := if h.cursor < |h.entries| - 1 then h.entries[..h.cursor + 1] else h.entries;
    var all := kept + [e];
    var entries := if |all| > Capacity then all[|all| - Capacity..] else all;
    History(entries, |entries| - 1)
  }

  predicate CanGoBack<S>(h: History<S>) {
    h.cursor > 0
  }

  predicate CanGoForward<S>(h: History<S>) {
    h.cursor < |h.entries| - 1
  }

  /** The history after a move, and the entry to restore when it moved. */
  datatype Move<S> = Move(history: History<S>, restored: Option<Entry<S>>)

  /** goBack: nothing happens at the oldest entry; otherwise the cursor
      steps back and that entry is restored. */
  function GoBack<S>(h: History<S>): (m: Move<S>)
    requires h.cursor <= |h.entries|
    ensures m.restored.None? <==> !CanGoBack(h)
    ensures !CanGoBack(h) ==> m.history == h
    ensures CanGoBack(h) ==> && m.history.entries == h.entries
                             && m.history.cursor == h.cursor - 1
                             && m.restored == Some(h.entries[h.cursor - 1])
    ensures Valid(h) ==> Valid(m.history)
  {
    if !CanGoBack(h) then
      Move(h, None)
    else
      var back := h.(cursor := h.cursor - 1);
      Move(back, Some(back.entries[back.cursor]))
  }

  /** goForward: nothing happens at the newest entry; otherwise the cursor
      steps forward and that entry is restored. */
  function GoForward<S>(h: History<S>): (m: Move<S>)
    requires h.cursor >= -1
    ensures m.restored.None? <==> !CanGoForward(h)
    ensures !CanGoForward(h) ==> m.history == h
    ensures CanGoForward(h) ==> && m.history.entries == h.entries
                                && m.history.cursor == h.cursor + 1
                                && m.restored == Some(h.entries[h.cursor + 1])
    ensures Valid(h) ==> Valid(m.history)
  {
    if !CanGoForward(h) then
      Move(h, None)
    else
      var forward := h.(cursor := h.cursor + 1);
      Move(forward, Some(forward.entries[forward.cursor]))
  }

  /** initializeNavigationHistory: an empty history gets the Brainstorm
      entry with the cursor on it; a non-empty one is left alone. */
  function Initialize<S>(h: History<S>, state: S, now: int): (r: History<S>)
    ensures |h.entries| == 0 ==> r.entries == [Entry(Brainstorm, state, now)] && r.cursor == 0
    ensures |h.entries| > 0 ==> r == h
    ensures Valid(h) ==> Valid(r)
  {
    if |h.entries| == 0 then History([Entry(Brainstorm, state, now)], 0) else h
  }

  /** Back then forward returns to the same history and restores the entry
      that was current. */
  lemma BackThenForward<S>(h: History<S>)
    requires Valid(h) && CanGoBack(h)
    ensures GoForward(GoBack(h).history).history == h
    ensures GoForward(GoBack(h).history).restored == Some(h.entries[h.cursor])
  {
  }

  /** Forward then back returns to the same history and restores the entry
      that was current. */
  lemma ForwardThenBack<S>(h: History<S>)
    requires Valid(h) && CanGoForward(h)
    ensures GoBack(GoForward(h).history).history == h
    ensures GoBack(GoForward(h).history).restored == Some(h.entries[h.cursor])
  {
  }

  /** Recording into an empty history gives one entry under the cursor. */
  lemma RecordIntoEmpty<S>(h: History<S>, e: Entry<S>)
    requires Valid(h) && |h.entries| == 0
    ensures Record(h, e) == History([e], 0)
  {
  }

  /** Records a sequence of entries, oldest first. */
  function RecordAll<S>(h: History<S>, es: seq<Entry<S>>): (r: History<S>)
    requires h.cursor >= -1
    ensures |es| > 0 ==> Valid(r)
    decreases |es|
  {
    if |es| == 0 then h else Record(RecordAll(h, es[..|es| - 1]), es[|es| - 1])
  }

  /** Recording any number of entries from empty keeps exactly the newest
      20 of them, in order, with the cursor on the last. */
  lemma {:induction false} RecordAllKeepsNewest<S>(es: seq<Entry<S>>)
    ensures var r := RecordAll(Empty(), es);
            && r.entries == es[|es| - Min(|es|, Capacity)..]
            && r.cursor == |r.entries| - 1
    decreases |es|
  {
    if |es| == 0 {
      assert RecordAll(Empty<S>(), es) == Empty<S>();
    } else {
      var prefix, e := es[..|es| - 1], es[|es| - 1];
      RecordAllKeepsNewest(prefix);
      var h := RecordAll(Empty<S>(), prefix);
      assert |h.entries| == Min(|prefix|, Capacity);
      assert RecordAll(Empty<S>(), es) == Record(h, e);
      RecordSlides(prefix, h, e);
      assert prefix + [e] == es;
    }
  }

  /** The inductive step: recording onto the newest entries of `prefix`
      gives the newest entries of `prefix + [e]`. */
  lemma RecordSlides<S>(prefix: seq<Entry<S>>, h: History<S>, e: Entry<S>)
    requires h.entries == prefix[|prefix| - Min(|prefix|, Capacity)..]
    requires h.cursor == |h.entries| - 1
    ensures var es := prefix + [e];
            && Record(h, e).entries == es[|es| - Min(|es|, Capacity)..]
            && Record(h, e).cursor == |Record(h, e).entries| - 1
  {
    var es := prefix + [e];
    var r := Record(h, e);
    var n := |h.entries|;
    assert Valid(h);
    assert |r.entries| == Min(|es|, Capacity);
    forall i | 0 <= i < |r.entries| ensures r.entries[i] == es[|es| - |r.entries| + i] {
      if i < |r.entries| - 1 {
        var j := n + 1 - |r.entries| + i;
        assert r.entries[i] == h.entries[j];
        assert h.entries[j] == prefix[|prefix| - n + j];
      }
    }
  }

  /** Twenty-five transitions from empty leave the newest twenty. */
  lemma TwentyFiveRecords<S>(es: seq<Entry<S>>)
    requires |es| == 25
    ensures RecordAll(Empty(), es).entries == es[5..]
    ensures RecordAll(Empty(), es).cursor == 19
  {
    RecordAllKeepsNewest(es);
  }

  /** S0, S1, S2 recorded, back to S1, then S3 recorded: the history is
      S0, S1, S3 and S2 can no longer be reached by going forward. */
  lemma BranchDiscard<S>(e0: Entry<S>, e1: Entry<S>, e2: Entry<S>, e3: Entry<S>)
    ensures var h := Record(Record(Initialize(Empty(), e0.state, e0.timestamp), e1), e2);
            var r := Record(GoBack(h).history, e3);
            r.entries == [Entry(Brainstorm, e0.state, e0.timestamp), e1, e3] && r.cursor == 2 && !CanGoForward(r)
  {
    var h0 := Initialize(Empty(), e0.state, e0.timestamp);
    var h := Record(Record(h0, e1), e2);
    assert h.entries == [h0.entries[0], e1, e2];
    var r := Record(GoBack(h).history, e3);
    assert r.entries[..2] == h.entries[..2];
  }

  /** S0, S1, S2 recorded: back restores S1 then S0, forward restores S1
      then S2. */
  lemma UndoRedo<S>(e0: Entry<S>, e1: Entry<S>, e2: Entry<S>)
    ensures var h := Record(Record(Initialize(Empty(), e0.state, e0.timestamp), e1), e2);
            var b1 := GoBack(h);
            var b2 := GoBack(b1.history);
            var f1 := GoForward(b2.history);
            var f2 := GoForward(f1.history);
            && b1.restored == Some(e1)
            && b2.restored.Some? && b2.restored.value.state == e0.state
            && !CanGoBack(b2.history)
            && f1.restored == Some(e1)
            && f2.restored == Some(e2)
            && f2.history == h
  {
    var h0 := Initialize(Empty(), e0.state, e0.timestamp);
    var h := Record(Record(h0, e1), e2);
    assert h.entries == [h0.entries[0], e1, e2];
  }
}
