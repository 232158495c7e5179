/**
 * The timer-driven effects, as the state each timer tick updates:
 * `initializeTypingEffect` (one code unit per tick) and
 * `initializeCounterAnimation` (the counters start at most once).
 * The timers themselves are not modelled: a tick is a method call.
 */
module Typing {

  /** A UTF-16 code unit. JavaScript's `length` and `charAt` count these,
      not characters. */
  type CodeUnit = x: int | 0 <= x < 0x1_0000

  predicate IsHighSurrogate(u: CodeUnit) {
    0xD800 <= u < 0xDC00
  }

  predicate IsLowSurrogate(u: CodeUnit) {
    0xDC00 <= u < 0xE000
  }

  /** Whether every character of `s` lies in the Basic Multilingual Plane. */
  predicate InBmp(s: string) {
    forall i :: 0 <= i < |s| ==> s[i] as int < 0x1_0000
  }

  /** The UTF-16 encoding of one character: the character itself inside the
      Basic Multilingual Plane, otherwise a surrogate pair that decodes back
      to it. */
  function UnitsOf(c: char): (u: seq<CodeUnit>)
    ensures |u| == if c as int < 0x1_0000 then 1 else 2
    ensures |u| == 1 ==> u[0] == c as int
    ensures |u| == 2 ==> IsHighSurrogate(u[0]) && IsLowSurrogate(u[1])
    ensures |u| == 2 ==> 0x1_0000 + (u[0] as int - 0xD800) * 0x400 + (u[1] as int - 0xDC00) == c as int
  {
    var n := c as int;
    if n < 0x1_0000 then [n]
    else [0xD800 + (n - 0x1_0000) / 0x400, 0xDC00 + (n - 0x1_0000) % 0x400]
  }

  /** The UTF-16 code units of `s`: what `textContent` holds for the text
      `s` of the page. */
  function Utf16(s: string): (u: seq<CodeUnit>)
    ensures |u| >= |s|
    ensures InBmp(s) ==> |u| == |s| && forall i :: 0 <= i < |s| ==> u[i] == s[i] as int
  {
    if s == [] then [] else UnitsOf(s[0]) + Utf16(s[1..])
  }

  /** The typed text so far (`typingText.textContent`) and the index of the
      next code unit. */
  datatype TypingState = TypingState(shown: seq<CodeUnit>, index: nat)

  /** Right after set-up: the element emptied, nothing typed. */
  const Start: TypingState := TypingState([], 0)

  function Min(a: nat, b: nat): nat {
    if a <= b then a else b
  }

  /** The element shows exactly the code units before `index`. */
  predicate ShowsPrefix(text: seq<CodeUnit>, s: TypingState) {
    s.index <= |text| && s.shown == text[..s.index]
  }

  /** One call of `typeText()` over `text`: it keeps the element showing a
      prefix of the text and moves one code unit further, until the end. */
  function TypeStep(text: seq<CodeUnit>, s: TypingState): (r: TypingState)
    ensures ShowsPrefix(text, s) ==> ShowsPrefix(text, r) && r.index == Min(s.index + 1, |text|)
    ensures s.index >= |text| ==> r == s
  {
    if s.index < |text| then TypingState(s.shown + [text[s.index]], s.index + 1) else s
  }

  /** The state after `k` ticks from `Start`. */
  function TypeSteps(text: seq<CodeUnit>, k: nat): TypingState {
    if k == 0 then Start else TypeStep(text, TypeSteps(text, k - 1))
  }

  /** After `k` ticks the element shows the first `min(k, text.length)` code
      units. */
  lemma {:induction false} TypeStepsShowPrefix(text: seq<CodeUnit>, k: nat)
    ensures TypeSteps(text, k) == TypingState(text[..Min(k, |text|)], Min(k, |text|))
  {
    if k > 0 {
      TypeStepsShowPrefix(text, k - 1);
    }
  }

  /** Once the whole text is shown, further ticks change nothing, and the
      timer is no longer re-armed. */
  lemma TypingStops(text: seq<CodeUnit>, k: nat)
    requires k >= |text|
    ensures TypeSteps(text, k) == TypingState(text, |text|)
    ensures TypeStep(text, TypeSteps(text, k)) == TypeSteps(text, k)
  {
    TypeStepsShowPrefix(text, k);
    assert text[..|text|] == text;
  }

  /** Inside the Basic Multilingual Plane one tick is one character: after
      `k` ticks the element shows the first `min(k, |s|)` characters of `s`. */
  lemma BmpTypesByCharacter(s: string, k: nat)
    requires InBmp(s)
    ensures TypeSteps(Utf16(s), k).shown == Utf16(s[..Min(k, |s|)])
  {
    TypeStepsShowPrefix(Utf16(s), k);
    var m := Min(k, |s|);
    assert InBmp(s[..m]) by {
      forall i | 0 <= i < m
        ensures s[..m][i] as int < 0x1_0000
      {
        assert s[..m][i] == s[i];
      }
    }
  }

  /** A character outside the Basic Multilingual Plane takes two ticks, and
      after the first one the element shows a lone high surrogate. */
  lemma SupplementaryCharTakesTwoTicks(c: char)
    requires c as int >= 0x1_0000
    ensures |Utf16([c])| == 2
    ensures TypeSteps(Utf16([c]), 1).shown == [Utf16([c])[0]]
    ensures IsHighSurrogate(Utf16([c])[0])
    ensures TypeSteps(Utf16([c]), 2).shown == Utf16([c])
  {
    var u := Utf16([c]);
    assert u == UnitsOf(c) + Utf16([]);
    TypeStepsShowPrefix(u, 1);
    TypeStepsShowPrefix(u, 2);
    assert u[..2] == u;
  }

  /** "a" followed by U+1F600: two ticks show "a" and half of the emoji's
      surrogate pair, and a third tick is still to come. */
  lemma EmojiTakesThreeTicks()
    ensures Utf16("a\U{1F600}") == [0x61, 0xD83D, 0xDE00]
    ensures TypeSteps(Utf16("a\U{1F600}"), 2) == TypingState([0x61, 0xD83D], 2)
    ensures TypeSteps(Utf16("a\U{1F600}"), 3) == TypingState([0x61, 0xD83D, 0xDE00], 3)
  {
    var s := "a\U{1F600}";
    assert s[1..] == "\U{1F600}";
    assert "\U{1F600}"[1..] == [];
    var u := Utf16(s);
    assert u == [0x61, 0xD83D, 0xDE00];
    TypeStepsShowPrefix(u, 2);
    TypeStepsShowPrefix(u, 3);
    assert u[..3] == u;
  }

  /** The `.typing-text` element and the closure's `index`. */
  class Typewriter {
    /** The element's original text, read once at set-up. */
    const text: seq<CodeUnit>
    var shown: seq<CodeUnit>
    var index: nat

    function State(): TypingState
      reads this
    {
      TypingState(shown, index)
    }

    /** Reads the element's text `content` and empties the element. */
    constructor (content: string)
      ensures text == Utf16(content) && State() == Start
    {
      text := Utf16(content);
      shown := [];
      index := 0;
    }

    /** `typeText()`: appends the next code unit, if any; `rearmed` says
        whether it schedules itself again. */
    method TypeText() returns (rearmed: bool)
      modifies this
      ensures State() == TypeStep(text, old(State()))
      ensures rearmed <==> old(index) < |text|
    {
      rearmed := false;
      if index < |text| {
        shown := shown + [text[index]];
        index := index + 1;
        rearmed := true;
      }
    }

    /** `k` timer ticks in a row. */
    method TypeTicks(k: nat)
      requires State() == Start
      modifies this
      ensures State() == TypeSteps(text, k)
      ensures shown == text[..Min(k, |text|)]
    {
      var i := 0;
      while i < k
        invariant 0 <= i <= k
        invariant State() == TypeSteps(text, i)
      {
        var _ := TypeText();
        i := i + 1;
      }
      TypeStepsShowPrefix(text, k);
    }
  }
}

module Counters {

  /** How many of `calls` successive calls of `animateCounters()` start the
      counters, given the flag `countersAnimated` before the first: none once
      the flag is set, and exactly one from a fresh page when it is called at
      all. */
  function Starts(animated: bool, calls: nat): (n: nat)
    ensures n == if animated || calls == 0 then 0 else 1
    decreases calls
  {
    if calls == 0 then 0 else (if animated then 0 else 1) + Starts(true, calls - 1)
  }

  /** The closure of `initializeCounterAnimation`. */
  class CounterAnimation {
    var countersAnimated: bool
    /** How many times `animateCounters()` has been called since set-up. */
    ghost var calls: nat
    /** How many of those calls started the counters. */
    ghost var runs: nat

    /** The counters have started as often as the guard lets them, so at
        most once, and the flag is set once any call has been made. */
    ghost predicate Valid()
      reads this
    {
      runs == Starts(false, calls) && (countersAnimated <==> calls > 0)
    }

    constructor ()
      ensures Valid() && !countersAnimated && calls == 0
    {
      countersAnimated := false;
      calls := 0;
      runs := 0;
    }

    /** `animateCounters()`: the first call starts one timer per
        `[data-target]` element; later calls return at once. */
    method AnimateCounters(targets: seq<int>) returns (started: seq<int>)
      requires Valid()
      modifies this
      ensures Valid() && countersAnimated && calls == old(calls) + 1
      ensures runs == old(runs) + (if old(countersAnimated) then 0 else 1)
      ensures started == if old(countersAnimated) then [] else targets
    {
      calls := calls + 1;
      if countersAnimated {
        started := [];
        return;
      }
      countersAnimated := true;
      runs := runs + 1;
      started := targets;
    }
  }
}
