/** The autocomplete widget's state and its event handlers, as pure
    functions from the state before an event to the state after it.
    The class in module Widget performs the same updates in place. */
module Transitions {
  import opened Strings
  import opened Suggest

  /** The text field's value. React keeps whatever is passed to
      `setInputValue`, and reading `suggestions[i]` past the end of the list
      yields `undefined` in JavaScript. */
  datatype InputValue = Str(text: string) | Undefined

  /** The three pieces of component state (react-autocomplete.tsx:10-12);
      `highlightedIndex` -1 means that no suggestion is highlighted. */
  datatype WidgetState = WidgetState(inputValue: InputValue, suggestions: seq<string>, highlightedIndex: int)

  /** The state of a freshly mounted widget. */
  const Initial := WidgetState(Str(""), [], -1)

  /** The events the widget reacts to. `Arrival(q)` is the debounced text
      handler for input `q` together with the filter result it produces. */
  datatype Event =
    | KeyDown(key: string)
    | Submit
    | Change(text: string)
    | Click(index: nat)
    | Arrival(query: string)

  /** No suggestion list is shown and nothing is highlighted. */
  predicate Idle(w: WidgetState) {
    w.suggestions == [] && w.highlightedIndex == -1
  }

  /** The highlight is "none" or an entry of the current list. */
  predicate InRange(w: WidgetState) {
    -1 <= w.highlightedIndex < |w.suggestions|
  }

  /** What every reachable state satisfies: the highlight is never below -1
      and the suggestions are drawn, in order, from the source list. */
  predicate Valid(source: seq<string>, w: WidgetState) {
    w.highlightedIndex >= -1 && IsSubsequence(w.suggestions, source)
  }

  /** `suggestions[i]` in JavaScript, for a non-negative index. */
  function Lookup(suggestions: seq<string>, i: nat): InputValue {
    if i < |suggestions| then Str(suggestions[i]) else Undefined
  }

  /** `handleArrowUp`: step the highlight back by one, but never from the
      first entry or from "none". */
  function ArrowUp(w: WidgetState): (r: WidgetState)
    ensures r.inputValue == w.inputValue && r.suggestions == w.suggestions
    ensures w.highlightedIndex > 0 ==> r.highlightedIndex == w.highlightedIndex - 1
    ensures w.highlightedIndex <= 0 ==> r == w
    ensures r.highlightedIndex <= w.highlightedIndex
    ensures r.highlightedIndex >= 0 || r.highlightedIndex == w.highlightedIndex
    ensures InRange(w) ==> InRange(r)
  {
    if w.highlightedIndex > 0 then w.(highlightedIndex := w.highlightedIndex - 1) else w
  }

  /** `handleArrowDown`: step the highlight forward by one, but never past
      the last entry. */
  function ArrowDown(w: WidgetState): (r: WidgetState)
    ensures r.inputValue == w.inputValue && r.suggestions == w.suggestions
    ensures w.highlightedIndex < |w.suggestions| - 1 ==> r.highlightedIndex == w.highlightedIndex + 1
    ensures w.highlightedIndex >= |w.suggestions| - 1 ==> r == w
    ensures w.suggestions == [] && w.highlightedIndex >= -1 ==> r == w
    ensures r.highlightedIndex >= w.highlightedIndex
    ensures r.highlightedIndex <= |w.suggestions| - 1 || r.highlightedIndex == w.highlightedIndex
    ensures InRange(w) ==> InRange(r)
  {
    if w.highlightedIndex < |w.suggestions| - 1 then w.(highlightedIndex := w.highlightedIndex + 1) else w
  }

  /** `handleKeyDown`: the two arrow keys move the highlight, every other
      key leaves the state alone. */
  function KeyPress(w: WidgetState, key: string): (r: WidgetState)
    ensures r.inputValue == w.inputValue && r.suggestions == w.suggestions
    ensures key == "ArrowUp" ==> r == ArrowUp(w)
    ensures key == "ArrowDown" ==> r == ArrowDown(w)
    ensures key != "ArrowUp" && key != "ArrowDown" ==> r == w
  {
    if key == "ArrowUp" then ArrowUp(w)
    else if key == "ArrowDown" then ArrowDown(w)
    else w
  }

  /** `handleReset`: clear the list and drop the highlight; the text stays. */
  function Reset(w: WidgetState): (r: WidgetState)
    ensures r.inputValue == w.inputValue && r.suggestions == []
    ensures w.highlightedIndex >= -1 ==> Idle(r)
    ensures w.highlightedIndex < -1 ==> r.highlightedIndex == w.highlightedIndex
  {
    var cleared := if w.highlightedIndex >= 0 then w.(highlightedIndex := -1) else w;
    cleared.(suggestions := [])
  }

  /** `handleSubmit` as written: commit the highlighted entry, if any, then
      reset. A highlight past the end of the list commits `undefined`. */
  function SubmitForm(w: WidgetState): (r: WidgetState)
    ensures r.suggestions == [] && (w.highlightedIndex >= -1 ==> Idle(r))
    ensures 0 <= w.highlightedIndex < |w.suggestions| ==>
              r.inputValue == Str(w.suggestions[w.highlightedIndex])
    ensures w.highlightedIndex < 0 ==> r.inputValue == w.inputValue
    ensures w.highlightedIndex >= |w.suggestions| ==> r.inputValue == Undefined
  {
    var committed :=
      if w.highlightedIndex >= 0 then w.(inputValue := Lookup(w.suggestions, w.highlightedIndex)) else w;
    Reset(committed)
  }

  /** The submit handler as evidently intended: commit only an entry that
      the list actually holds. */
  function SubmitGuarded(w: WidgetState): (r: WidgetState)
    ensures r.suggestions == [] && (w.highlightedIndex >= -1 ==> Idle(r))
    ensures 0 <= w.highlightedIndex < |w.suggestions| ==>
              r.inputValue == Str(w.suggestions[w.highlightedIndex])
    ensures !(0 <= w.highlightedIndex < |w.suggestions|) ==> r.inputValue == w.inputValue
    ensures w.inputValue.Str? ==> r.inputValue.Str?
  {
    var committed :=
      if 0 <= w.highlightedIndex < |w.suggestions|
      then w.(inputValue := Str(w.suggestions[w.highlightedIndex])) else w;
    Reset(committed)
  }

  /** The input's `onChange`: take the typed text and drop the highlight;
      the list stays until the filter result for the text arrives. */
  function ChangeText(w: WidgetState, text: string): (r: WidgetState)
    ensures r.inputValue == Str(text) && r.suggestions == w.suggestions
    ensures r.highlightedIndex == -1 && InRange(r)
  {
    w.(inputValue := Str(text), highlightedIndex := -1)
  }

  /** The `onClick` of the suggestion rendered at `index`: commit that
      entry, then reset. Only entries of the current list are rendered. */
  function ClickItem(w: WidgetState, index: nat): (r: WidgetState)
    requires index < |w.suggestions|
    ensures r.inputValue == Str(w.suggestions[index]) && r.inputValue.text in w.suggestions
    ensures r.suggestions == []
    ensures w.highlightedIndex >= -1 ==> Idle(r)
  {
    Reset(w.(inputValue := Str(w.suggestions[index])))
  }

  /** The debounced handler for `query` and the filter result it yields:
      the list is replaced, the text and the highlight are not touched. */
  function ReceiveSuggestions(source: seq<string>, w: WidgetState, query: string): (r: WidgetState)
    ensures r.inputValue == w.inputValue && r.highlightedIndex == w.highlightedIndex
    ensures query == [] ==> r.suggestions == []
    ensures forall x :: x in r.suggestions <==> query != [] && x in source && Matches(x, query)
    ensures IsSubsequence(r.suggestions, source)
  {
    FilterIsSubsequence(source, query);
    w.(suggestions := SuggestionsFor(source, query))
  }

  /** One event. A click can only land on a rendered entry, so a click index
      past the end of the list is no event at all and changes nothing. */
  function Step(source: seq<string>, w: WidgetState, e: Event): WidgetState {
    match e
    case KeyDown(key) => KeyPress(w, key)
    case Submit => SubmitForm(w)
    case Change(text) => ChangeText(w, text)
    case Click(index) => if index < |w.suggestions| then ClickItem(w, index) else w
    case Arrival(query) => ReceiveSuggestions(source, w, query)
  }

  function Run(source: seq<string>, w: WidgetState, events: seq<Event>): WidgetState
    decreases |events|
  {
    if events == [] then w else Run(source, Step(source, w, events[0]), events[1..])
  }

  /** The same step with the guarded submit handler. */
  function StepGuarded(source: seq<string>, w: WidgetState, e: Event): WidgetState {
    if e.Submit? then SubmitGuarded(w) else Step(source, w, e)
  }

  function RunGuarded(source: seq<string>, w: WidgetState, events: seq<Event>): WidgetState
    decreases |events|
  {
    if events == [] then w else RunGuarded(source, StepGuarded(source, w, events[0]), events[1..])
  }

  /** Resetting twice is resetting once. */
  lemma ResetIdempotent(w: WidgetState)
    ensures Reset(Reset(w)) == Reset(w)
  {
  }

  /** Every event keeps the state valid. */
  lemma StepKeepsValid(source: seq<string>, w: WidgetState, e: Event)
    requires Valid(source, w)
    ensures Valid(source, Step(source, w, e))
  {
  }

  /** Every reachable state is valid. */
  lemma {:induction false} RunKeepsValid(source: seq<string>, w: WidgetState, events: seq<Event>)
    requires Valid(source, w)
    ensures Valid(source, Run(source, w, events))
    decreases |events|
  {
    if events != [] {
      StepKeepsValid(source, w, events[0]);
      RunKeepsValid(source, Step(source, w, events[0]), events[1..]);
    }
  }

  /** Without a filter result arriving, the highlight stays "none" or an
      entry of the list, and the text stays a string. */
  lemma {:induction false} RunWithoutArrivalKeepsRange(source: seq<string>, w: WidgetState, events: seq<Event>)
    requires InRange(w) && w.inputValue.Str?
    requires forall i :: 0 <= i < |events| ==> !events[i].Arrival?
    ensures InRange(Run(source, w, events)) && Run(source, w, events).inputValue.Str?
    decreases |events|
  {
    if events != [] {
      var next := Step(source, w, events[0]);
      assert InRange(next) && next.inputValue.Str?;
      RunWithoutArrivalKeepsRange(source, next, events[1..]);
    }
  }

  /** With the guarded submit handler the text is a string in every state
      reachable from one where it is. */
  lemma {:induction false} RunGuardedKeepsText(source: seq<string>, w: WidgetState, events: seq<Event>)
    requires w.inputValue.Str?
    ensures RunGuarded(source, w, events).inputValue.Str?
    decreases |events|
  {
    if events != [] {
      var next := StepGuarded(source, w, events[0]);
      assert next.inputValue.Str?;
      RunGuardedKeepsText(source, next, events[1..]);
    }
  }

  /** Where the highlight is in range the guarded handler does what the
      handler as written does. */
  lemma SubmitGuardedAgrees(w: WidgetState)
    requires InRange(w)
    ensures SubmitGuarded(w) == SubmitForm(w)
  {
  }

  /** The two filter results of the scenario below. */
  lemma ScenarioMatchesA()
    ensures SuggestionsFor(["Spain", "France"], "a") == ["Spain", "France"]
  {
  }

  lemma ScenarioMatchesFr()
    ensures SuggestionsFor(["Spain", "France"], "fr") == ["France"]
  {
  }

  /** As written, a filter result that arrives after the highlight was moved
      can be shorter than the highlight, and submitting then commits
      `undefined`; the guarded handler keeps the typed text. The list is
      ["Spain", "France"]; the user types "a" and receives its two matches,
      types "fr", presses arrow down twice, and then the single match for
      "fr" arrives. */
  lemma StaleHighlightCommitsUndefined(source: seq<string>, typed: seq<Event>)
    requires source == ["Spain", "France"]
    requires typed == [Change("a"), Arrival("a"), Change("fr"),
                       KeyDown("ArrowDown"), KeyDown("ArrowDown"), Arrival("fr")]
    ensures !InRange(Run(source, Initial, typed))
    ensures Run(source, Initial, typed + [Submit]).inputValue == Undefined
    ensures RunGuarded(source, Initial, typed + [Submit]).inputValue == Str("fr")
  {
    ScenarioStale(source, typed, typed[..3], typed[3..]);
    RunSnoc(source, Initial, typed, Submit);
    RunGuardedMatches(source, Initial, typed);
    RunGuardedSnoc(source, Initial, typed, Submit);
  }

  lemma ScenarioStale(source: seq<string>, typed: seq<Event>, first: seq<Event>, last: seq<Event>)
    requires source == ["Spain", "France"]
    requires first == [Change("a"), Arrival("a"), Change("fr")]
    requires last == [KeyDown("ArrowDown"), KeyDown("ArrowDown"), Arrival("fr")]
    requires typed == first + last
    ensures Run(source, Initial, typed) == WidgetState(Str("fr"), ["France"], 1)
  {
    ScenarioListed();
    ScenarioHighlightThenArrival();
    RunAppend(source, Initial, first, last);
  }

  /** The first three events of the scenario: two matches listed, nothing
      highlighted. */
  lemma ScenarioListed()
    ensures Run(["Spain", "France"], Initial, [Change("a"), Arrival("a"), Change("fr")])
            == WidgetState(Str("fr"), ["Spain", "France"], -1)
  {
    ScenarioMatchesA();
  }

  /** The last three: the highlight moves to the second entry, then the
      one-entry result for "fr" arrives. */
  lemma ScenarioHighlightThenArrival()
    ensures Run(["Spain", "France"], WidgetState(Str("fr"), ["Spain", "France"], -1),
                [KeyDown("ArrowDown"), KeyDown("ArrowDown"), Arrival("fr")])
            == WidgetState(Str("fr"), ["France"], 1)
  {
    ScenarioMatchesFr();
  }

  /** Running two event sequences one after the other. */
  lemma {:induction false} RunAppend(source: seq<string>, w: WidgetState, first: seq<Event>, last: seq<Event>)
    ensures Run(source, w, first + last) == Run(source, Run(source, w, first), last)
    decreases |first|
  {
    if first == [] {
      assert first + last == last;
    } else {
      assert (first + last)[1..] == first[1..] + last;
      RunAppend(source, Step(source, w, first[0]), first[1..], last);
    }
  }

  /** Running one more event is one more step. */
  lemma {:induction false} RunSnoc(source: seq<string>, w: WidgetState, events: seq<Event>, e: Event)
    ensures Run(source, w, events + [e]) == Step(source, Run(source, w, events), e)
    decreases |events|
  {
    if events != [] {
      assert (events + [e])[1..] == events[1..] + [e];
      RunSnoc(source, Step(source, w, events[0]), events[1..], e);
    }
  }

  lemma {:induction false} RunGuardedSnoc(source: seq<string>, w: WidgetState, events: seq<Event>, e: Event)
    ensures RunGuarded(source, w, events + [e]) == StepGuarded(source, RunGuarded(source, w, events), e)
    decreases |events|
  {
    if events != [] {
      assert (events + [e])[1..] == events[1..] + [e];
      RunGuardedSnoc(source, StepGuarded(source, w, events[0]), events[1..], e);
    }
  }

  /** Both handlers reach the same state on events that contain no submit. */
  lemma {:induction false} RunGuardedMatches(source: seq<string>, w: WidgetState, events: seq<Event>)
    requires forall i :: 0 <= i < |events| ==> !events[i].Submit?
    ensures RunGuarded(source, w, events) == Run(source, w, events)
    decreases |events|
  {
    if events != [] {
      RunGuardedMatches(source, Step(source, w, events[0]), events[1..]);
    }
  }
}
