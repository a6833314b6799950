# AutoComplete widget — Dafny model

This project models the React `AutoComplete` component of
`src/components/react-autocomplete/react-autocomplete.tsx`: a text field
whose typed text is filtered, case-insensitively, against a fixed list of
country names, and a drop-down of suggestions that is navigated with the
arrow keys and committed by submitting the form or clicking an entry.

- `strings.dfy` (module `Strings`): `toLowerCase` (ASCII) and `includes`,
  with a proof that the left-to-right search agrees with "occurs at some
  position", and transitivity of occurrence.
- `suggest.dfy` (module `Suggest`): the filter inside `fetchData` and the
  empty-text guard of the debounced handler, with their membership,
  order, multiplicity, case-insensitivity and narrowing properties.
- `transitions.dfy` (module `Transitions`): the component state
  (`inputValue`, `suggestions`, `highlightedIndex`) as a datatype, one
  function per event handler stating what that handler does to the state,
  event sequences (`Step`, `Run`), and the invariants reachable states keep.
- `widget.dfy` (module `Widget`): class `AutoComplete` with the three state
  fields, a constructor for the mounted state and one method per handler,
  each updating the fields in place and specified by the matching function
  of `Transitions`.

The country list is the constructor's `source` parameter (`countries.json`
is not part of this model). The debounced text handler and the filter result
it eventually stores are one event, `Arrival(query)`, which replaces
`suggestions` by the filter of `query` (or by the empty list for an empty
query) and touches neither `inputValue` nor `highlightedIndex`. The query
need not be the current text: a result for older text may land after the
user has typed more or moved the highlight, so the model does not claim that
the highlight stays within the list across that event.

Two facts about the highlight follow from the code. A shorter filter
result that arrives after the highlight has moved leaves the highlight past
the end of the list (see Findings). Arrow-down can reach the last entry,
because its guard is `highlightedIndex < suggestions.length - 1`
(react-autocomplete.tsx:92).

`inputValue` is modelled as `Str(text)` or `Undefined`, because the submit
handler passes `suggestions[highlightedIndex]` to `setInputValue`, and that
read yields JavaScript's `undefined` when the index is past the end.

## Model

| member | source | states |
|---|---|---|
| Strings.LowerChar | src/components/react-autocomplete/react-autocomplete.tsx:24 | the lowercase of a character is never an ASCII capital; a capital moves to its small letter, anything else is unchanged |
| Strings.Lower | src/components/react-autocomplete/react-autocomplete.tsx:24 | `toLowerCase` keeps the length and lowercases every position |
| Strings.LowerIdempotent | src/components/react-autocomplete/react-autocomplete.tsx:24 | lowercasing an already lowercased string changes nothing |
| Strings.LowerAppend | src/components/react-autocomplete/react-autocomplete.tsx:24 | the lowercase of a concatenation is the concatenation of the lowercases |
| Strings.IncludesIff | src/components/react-autocomplete/react-autocomplete.tsx:24 | `includes` holds exactly when the query occurs at some position of the string (both directions) |
| Strings.IncludesTransitive | src/components/react-autocomplete/react-autocomplete.tsx:24 | a string that includes `p` includes everything `p` includes |
| Strings.IncludesPrefix | src/components/react-autocomplete/react-autocomplete.tsx:24 | a string is included in any extension of it |
| Suggest.Filter | src/components/react-autocomplete/react-autocomplete.tsx:23-25 | an entry is in the result exactly when it is in the list and its lowercase contains the lowercase query; the result is no longer than the list |
| Suggest.SuggestionsFor | src/components/react-autocomplete/react-autocomplete.tsx:39-43 | an empty input gives no suggestions; otherwise exactly the list entries matching the input |
| Suggest.FilterIsSubsequence | src/components/react-autocomplete/react-autocomplete.tsx:23-25 | the filter result is a subsequence of the list: source order is kept |
| Suggest.FilterCount | src/components/react-autocomplete/react-autocomplete.tsx:23-25 | each matching entry occurs in the result as many times as in the list; a non-matching one not at all |
| Suggest.FilterEmptyQuery | src/components/react-autocomplete/react-autocomplete.tsx:39-43 | without the empty-text guard the empty query would return the whole list |
| Suggest.FilterCaseInsensitive | src/components/react-autocomplete/react-autocomplete.tsx:23-25 | queries with the same lowercase form give the same result |
| Suggest.FilterNarrows | src/components/react-autocomplete/react-autocomplete.tsx:23-25 | if the lowercase of one query contains that of another, its result is a subsequence of the other's |
| Suggest.SuggestionsCaseInsensitive | src/components/react-autocomplete/react-autocomplete.tsx:39-43 | inputs that differ only in letter case get the same suggestions |
| Suggest.TypingMoreNarrows | src/components/react-autocomplete/react-autocomplete.tsx:39-43 | appending characters to a non-empty input can only remove suggestions, keeping order |
| Suggest.EntryTypedInFullIsSuggested | src/components/react-autocomplete/react-autocomplete.tsx:23-25 | a list entry typed in full, in any letter case, is among the suggestions |
| Transitions.ArrowUp | src/components/react-autocomplete/react-autocomplete.tsx:83-88 | text and list unchanged; the highlight drops by exactly one when above 0 and is unchanged at 0 or -1, so it never decreases into -1 and a valid highlight stays valid |
| Transitions.ArrowDown | src/components/react-autocomplete/react-autocomplete.tsx:91-96 | text and list unchanged; the highlight rises by exactly one while below the last index and is otherwise unchanged, so it never passes the last entry and is a no-op on an empty list |
| Transitions.KeyPress | src/components/react-autocomplete/react-autocomplete.tsx:99-108 | "ArrowUp" acts as `ArrowUp`, "ArrowDown" as `ArrowDown`, every other key changes nothing; no key changes text or list |
| Transitions.Reset | src/components/react-autocomplete/react-autocomplete.tsx:50-58 | the list is emptied, the text kept, and from any highlight of at least -1 the widget is idle (highlight -1) |
| Transitions.SubmitForm | src/components/react-autocomplete/react-autocomplete.tsx:61-67 | ends idle; commits the highlighted entry when the highlight is in the list, keeps the text when it is -1, and commits `undefined` when it is past the end |
| Transitions.SubmitGuarded | src/components/react-autocomplete/react-autocomplete.tsx:61-67 | the corrected submit: ends idle, commits only an entry the list holds, and never turns a string text into `undefined` |
| Transitions.ChangeText | src/components/react-autocomplete/react-autocomplete.tsx:123-127 | the text becomes the typed text, the highlight -1, and the list is left as it was |
| Transitions.ClickItem | src/components/react-autocomplete/react-autocomplete.tsx:133-140 | the entry at the clicked index of the current list becomes the text (so a click always commits a list entry) and the widget is idle |
| Transitions.ReceiveSuggestions | src/components/react-autocomplete/react-autocomplete.tsx:30-43 | the list becomes the suggestions for the query (empty for an empty query), drawn in order from the source; text and highlight untouched |
| Transitions.ResetIdempotent | src/components/react-autocomplete/react-autocomplete.tsx:50-58 | resetting twice gives the same state as resetting once |
| Transitions.StepKeepsValid | src/components/react-autocomplete/react-autocomplete.tsx:10-12 | every event keeps the highlight at least -1 and the list a subsequence of the source |
| Transitions.RunKeepsValid | src/components/react-autocomplete/react-autocomplete.tsx:10-12 | every state reached by any event sequence keeps that invariant |
| Transitions.RunWithoutArrivalKeepsRange | src/components/react-autocomplete/react-autocomplete.tsx:83-140 | as long as no filter result arrives, the highlight stays -1 or a valid index and the text stays a string |
| Transitions.SubmitGuardedAgrees | src/components/react-autocomplete/react-autocomplete.tsx:61-67 | with the highlight in range the corrected submit equals the submit as written |
| Transitions.RunGuardedKeepsText | src/components/react-autocomplete/react-autocomplete.tsx:61-67 | with the corrected submit, the text is a string after any event sequence |
| Transitions.StaleHighlightCommitsUndefined | src/components/react-autocomplete/react-autocomplete.tsx:61-67 | a concrete event sequence leaves the highlight past the end after a filter result, and submitting then commits `undefined` (the corrected submit keeps "fr") |
| Widget.AutoComplete.constructor | src/components/react-autocomplete/react-autocomplete.tsx:10-12 | the mounted widget has empty text, no list, no highlight |
| Widget.AutoComplete.ArrowUp | src/components/react-autocomplete/react-autocomplete.tsx:83-88 | updates the fields as `Transitions.ArrowUp` says and keeps the invariant |
| Widget.AutoComplete.ArrowDown | src/components/react-autocomplete/react-autocomplete.tsx:91-96 | updates the fields as `Transitions.ArrowDown` says and keeps the invariant |
| Widget.AutoComplete.KeyDown | src/components/react-autocomplete/react-autocomplete.tsx:99-108 | updates the fields as `Transitions.KeyPress` says |
| Widget.AutoComplete.Reset | src/components/react-autocomplete/react-autocomplete.tsx:50-58 | updates the fields as `Transitions.Reset` says and leaves the widget idle |
| Widget.AutoComplete.Submit | src/components/react-autocomplete/react-autocomplete.tsx:61-67 | updates the fields as `Transitions.SubmitForm` says and leaves the widget idle |
| Widget.AutoComplete.Change | src/components/react-autocomplete/react-autocomplete.tsx:123-127 | updates the fields as `Transitions.ChangeText` says |
| Widget.AutoComplete.Click | src/components/react-autocomplete/react-autocomplete.tsx:133-140 | for an index of the current list, updates the fields as `Transitions.ClickItem` says and leaves the widget idle |
| Widget.AutoComplete.ReceiveSuggestions | src/components/react-autocomplete/react-autocomplete.tsx:30-43 | updates the fields as `Transitions.ReceiveSuggestions` says and keeps the invariant |

## Left out

- The 500 ms simulated latency (`setTimeout` inside a `Promise`) and the 200 ms `useDebounce` wrapper: timing and scheduling; the hook's source is not part of this model. A debounced call and its result are one event, `Arrival`.
- Which of several overlapping filter results lands last: a timing matter; each arrival is a plain event with its own query, in any order the caller chooses.
- The `catch` branch of `fetchData`: its only effect is a console message, and the awaited promise never rejects.
- Scrolling the highlighted entry into view, blurring the input on reset, `preventDefault`, and the rendered markup and CSS classes: browser effects with no bearing on the three state fields.
- The `keydown` listener registered on `window` at mount: its closure sees the mounted state (no list, highlight -1), where both arrow handlers are no-ops; the input's own `onKeyDown` is modelled as `KeyDown`.
- Loading `countries.json`: the list is a constructor parameter.
- Passing the remaining props through to the `<input>`: no behaviour.
- Strings.Lower: models ASCII case folding only, not the full Unicode `toLowerCase` (which can also change a string's length).
- React's batching of state updates within one handler: each handler's updates touch distinct fields or read only the values of the render that created the handler, so applying them in sequence gives the same final state.

## Findings

| source | as written | input that shows it | evidently intended | confidence | as-written member | corrected member |
|---|---|---|---|---|---|---|
| src/components/react-autocomplete/react-autocomplete.tsx:63-64 | submit commits `suggestions[highlightedIndex]` whenever the index is at least 0, and a filter result arriving after the highlight moved can be shorter than the index, so `undefined` is stored as the input's value | list ["Spain", "France"]: type "a", its two matches arrive, type "fr", arrow down twice (highlight 1), the one-entry result for "fr" arrives, submit | commit only when the index is within the current list, otherwise keep the typed text | not executed; medium | Transitions.StaleHighlightCommitsUndefined | Transitions.SubmitGuarded |
