/**
 Choice collection: the list of options the user is deciding between is
 read off the choice text inputs by trimming each one and dropping the ones
 that come out empty (script.js, updateChoices).
 */
module Choices {

  /** The code points JavaScript's String.prototype.trim removes: the
      ECMAScript WhiteSpace and LineTerminator code points. */
  const WhiteCodes: seq<int> :=
    [0x09, 0x0A, 0x0B, 0x0C, 0x0D, 0x20, 0xA0, 0x1680,
     0x2000, 0x2001, 0x2002, 0x2003, 0x2004, 0x2005, 0x2006, 0x2007, 0x2008, 0x2009, 0x200A,
     0x2028, 0x2029, 0x202F, 0x205F, 0x3000, 0xFEFF]

  /** Every listed code point is at most 0x20 or at least 0xA0; the range
      test in front of the lookup says so and settles ordinary text at
      once. */
  predicate IsWhite(c: char) {
    var n := c as int;
    (n <= 0x20 || 0xA0 <= n) && Listed(n, WhiteCodes)
  }

  /** `x` occurs in `codes`, looked up one entry at a time. */
  predicate Listed(x: int, codes: seq<int>) {
    |codes| > 0 && (codes[0] == x || Listed(x, codes[1..]))
  }

  predicate AllWhite(s: string) {
    forall k :: 0 <= k < |s| ==> IsWhite(s[k])
  }

  /** The index of the first character at or after `i` that is not
      white space, or |s| when there is none. */
  function FirstKept(s: string, i: nat): (j: nat)
    requires i <= |s|
    ensures i <= j <= |s|
    ensures j < |s| ==> !IsWhite(s[j])
    decreases |s| - i
  {
    if i < |s| && IsWhite(s[i]) then FirstKept(s, i + 1) else i
  }

  lemma {:induction false} FirstKeptSkipsWhite(s: string, i: nat)
    requires i <= |s|
    ensures forall k :: i <= k < FirstKept(s, i) ==> IsWhite(s[k])
    decreases |s| - i
  {
    if i < |s| && IsWhite(s[i]) {
      FirstKeptSkipsWhite(s, i + 1);
    }
  }

  /** The end of `s[lo..j]` once its trailing white space is dropped. */
  function EndKept(s: string, lo: nat, j: nat): (e: nat)
    requires lo <= j <= |s|
    ensures lo <= e <= j
    ensures e > lo ==> !IsWhite(s[e - 1])
    decreases j
  {
    if j > lo && IsWhite(s[j - 1]) then EndKept(s, lo, j - 1) else j
  }

  lemma {:induction false} EndKeptSkipsWhite(s: string, lo: nat, j: nat)
    requires lo <= j <= |s|
    ensures forall k :: EndKept(s, lo, j) <= k < j ==> IsWhite(s[k])
    decreases j
  {
    if j > lo && IsWhite(s[j - 1]) {
      EndKeptSkipsWhite(s, lo, j - 1);
    }
  }

  /** Neither end of `t` is white space. */
  predicate Trimmed(t: string) {
    t == [] || (!IsWhite(t[0]) && !IsWhite(t[|t| - 1]))
  }

  /** `r` is `s` with a white prefix and a white suffix cut off, and
      neither end of `r` is white. */
  predicate IsTrimOf(s: string, r: string) {
    && |r| <= |s|
    && Trimmed(r)
    && exists i :: 0 <= i <= |s| - |r| && s[i..i + |r|] == r
                   && AllWhite(s[..i]) && AllWhite(s[i + |r|..])
  }

  /** JavaScript's `value.trim()`: leading white space goes, then trailing
      white space; `TrimIsTrimOf` states what it removes. */
  function Trim(s: string): string {
    var i := FirstKept(s, 0);
    s[i..EndKept(s, i, |s|)]
  }

  lemma WhiteSlice(s: string, a: nat, b: nat)
    requires a <= b <= |s|
    requires forall k :: a <= k < b ==> IsWhite(s[k])
    ensures AllWhite(s[a..b])
  {
    forall k | 0 <= k < b - a ensures IsWhite(s[a..b][k]) {
      assert s[a..b][k] == s[a + k];
    }
  }

  /** Trim cuts a white prefix and a white suffix off its input, and comes
      out empty exactly when the whole input is white space. */
  lemma TrimIsTrimOf(s: string)
    ensures IsTrimOf(s, Trim(s))
    ensures Trim(s) == [] <==> AllWhite(s)
  {
    var i := FirstKept(s, 0);
    var e := EndKept(s, i, |s|);
    var r := s[i..e];
    FirstKeptSkipsWhite(s, 0);
    EndKeptSkipsWhite(s, i, |s|);
    WhiteSlice(s, 0, i);
    assert s[..i] == s[0..i];
    WhiteSlice(s, e, |s|);
    assert s[e..] == s[e..|s|];
    if i < e {
      assert r[0] == s[i] && r[|r| - 1] == s[e - 1];
    }
    assert s[i..i + |r|] == r;
    if e == i {
      assert forall k :: 0 <= k < |s| ==> IsWhite(s[k]);
    }
  }

  /** Text with no white space at either end is left alone. */
  lemma TrimOfTrimmed(s: string)
    requires Trimmed(s)
    ensures Trim(s) == s
  {
  }

  /** The choice list contributed by one input: its trimmed text, or
      nothing when that is empty. */
  function ChoiceOf(input: string): (r: seq<string>)
  {
    var t := Trim(input);
    if t == [] then [] else [t]
  }

  /** The choice list for a sequence of inputs, as a reference definition
      by recursion from the front. */
  function Choices(inputs: seq<string>): (r: seq<string>)
    ensures |r| <= |inputs|
  {
    if |inputs| == 0 then
      []
    else
      ChoiceOf(inputs[0]) + Choices(inputs[1..])
  }

  /** Every choice is non-empty and has no white space at either end. */
  lemma {:induction false} ChoicesAreTrimmed(inputs: seq<string>)
    ensures forall k :: 0 <= k < |Choices(inputs)| ==> Choices(inputs)[k] != [] && Trimmed(Choices(inputs)[k])
    decreases |inputs|
  {
    if |inputs| > 0 {
      ChoicesAreTrimmed(inputs[1..]);
      TrimIsTrimOf(inputs[0]);
      var head, rest := ChoiceOf(inputs[0]), Choices(inputs[1..]);
      assert forall k :: 0 <= k < |rest| ==> (head + rest)[|head| + k] == rest[k];
    }
  }

  /** The choice list of a concatenation is the concatenation of the
      choice lists: inputs are read independently and in order. */
  lemma {:induction false} ChoicesAppend(a: seq<string>, b: seq<string>)
    ensures Choices(a + b) == Choices(a) + Choices(b)
    decreases |a|
  {
    if |a| == 0 {
      assert a + b == b;
    } else {
      assert (a + b)[1..] == a[1..] + b;
      ChoicesAppend(a[1..], b);
    }
  }

  lemma ChoicesOne(input: string)
    ensures Choices([input]) == ChoiceOf(input)
  {
    assert [input][1..] == [];
  }

  /** A single input contributes its trimmed text, or nothing when the
      input is all white space. */
  lemma ChoicesSingle(input: string)
    ensures Choices([input]) == (if AllWhite(input) then [] else [Trim(input)])
  {
    ChoicesOne(input);
    TrimIsTrimOf(input);
  }

  /** Reading one more row extends the choice list by that row's
      contribution. */
  lemma ChoicesSnoc(inputs: seq<string>, i: nat)
    requires i < |inputs|
    ensures Choices(inputs[..i + 1]) == Choices(inputs[..i]) + ChoiceOf(inputs[i])
  {
    assert inputs[..i + 1] == inputs[..i] + [inputs[i]];
    ChoicesAppend(inputs[..i], [inputs[i]]);
    ChoicesOne(inputs[i]);
  }

  /** updateChoices: map every input through trim and keep the non-empty
      results, in order. */
  method UpdateChoices(inputs: seq<string>) returns (choices: seq<string>)
    ensures choices == Choices(inputs)
  {
    choices := [];
    var i := 0;
    while i < |inputs|
      invariant 0 <= i <= |inputs|
      invariant choices == Choices(inputs[..i])
    {
      var value := Trim(inputs[i]);
      ChoicesSnoc(inputs, i);
      if value != "" {
        choices := choices + [value];
      }
      i := i + 1;
    }
    assert inputs[..i] == inputs;
  }

  /** addChoice appends a fresh empty input row; it adds no choice. */
  function AddInput(inputs: seq<string>): (r: seq<string>)
    ensures |r| == |inputs| + 1 && r[..|inputs|] == inputs && r[|inputs|] == ""
  {
    inputs + [""]
  }

  lemma AddInputKeepsChoices(inputs: seq<string>)
    ensures Choices(AddInput(inputs)) == Choices(inputs)
  {
    ChoicesAppend(inputs, [""]);
    ChoicesSingle("");
  }

  /** handleRemoveChoice: the row is removed only while more than one row
      remains, so at least one input always exists. */
  function RemoveInput(inputs: seq<string>, i: nat): (r: seq<string>)
    requires i < |inputs|
    ensures |inputs| > 1 ==> |r| == |inputs| - 1
                             && (forall k :: 0 <= k < i ==> r[k] == inputs[k])
                             && (forall k :: i <= k < |r| ==> r[k] == inputs[k + 1])
    ensures |inputs| <= 1 ==> r == inputs
    ensures |r| >= 1
  {
    if |inputs| > 1 then inputs[..i] + inputs[i + 1..] else inputs
  }

  lemma SplitAt<T>(s: seq<T>, i: nat)
    requires i < |s|
    ensures s == s[..i] + ([s[i]] + s[i + 1..])
  {
  }

  /** The choice list splits around any one row. */
  lemma ChoicesAround(inputs: seq<string>, i: nat)
    requires i < |inputs|
    ensures Choices(inputs) == Choices(inputs[..i]) + (ChoiceOf(inputs[i]) + Choices(inputs[i + 1..]))
  {
    SplitAt(inputs, i);
    ChoicesAppend(inputs[..i], [inputs[i]] + inputs[i + 1..]);
    ChoicesAppend([inputs[i]], inputs[i + 1..]);
    ChoicesOne(inputs[i]);
  }

  /** Removing a row drops exactly that row's contribution to the choice
      list. */
  lemma RemoveInputChoices(inputs: seq<string>, i: nat)
    requires 1 < |inputs| && i < |inputs|
    ensures Choices(inputs) == Choices(inputs[..i]) + (ChoiceOf(inputs[i]) + Choices(inputs[i + 1..]))
    ensures Choices(RemoveInput(inputs, i)) == Choices(inputs[..i]) + Choices(inputs[i + 1..])
  {
    ChoicesAround(inputs, i);
    assert RemoveInput(inputs, i) == inputs[..i] + inputs[i + 1..];
    ChoicesAppend(inputs[..i], inputs[i + 1..]);
  }

  /** handleChoiceKeydown: Enter on a choice input adds a row only when the
      current input has non-blank text. */
  function EnterOnInput(inputs: seq<string>, i: nat): (r: seq<string>)
    requires i < |inputs|
    ensures r == (if AllWhite(inputs[i]) then inputs else AddInput(inputs))
  {
    TrimIsTrimOf(inputs[i]);
    if Trim(inputs[i]) != "" then AddInput(inputs) else inputs
  }
}
