/** The AutoComplete component as an object: its three state fields are
    updated in place by one method per event handler, and each method is
    specified by the matching function of module Transitions. */
module Widget {
  import opened Suggest
  import Transitions

  class AutoComplete {
    /** The fixed country list the filter searches. */
    const source: seq<string>
    var inputValue: Transitions.InputValue
    var suggestions: seq<string>
    var highlightedIndex: int

    function State(): Transitions.WidgetState
      reads this
    {
      Transitions.WidgetState(inputValue, suggestions, highlightedIndex)
    }

    ghost predicate Valid()
      reads this
    {
      Transitions.Valid(source, State())
    }

    /** A freshly mounted widget: empty text, no list, nothing highlighted. */
    constructor (source: seq<string>)
      ensures this.source == source
      ensures State() == Transitions.Initial && Valid()
    {
      this.source := source;
      inputValue := Transitions.Str("");
      suggestions := [];
      highlightedIndex := -1;
    }

    /** `handleArrowUp` */
    method ArrowUp()
      requires Valid()
      modifies this
      ensures Valid()
      ensures State() == Transitions.ArrowUp(old(State()))
    {
      if highlightedIndex > 0 {
        highlightedIndex := highlightedIndex - 1;
      }
    }

    /** `handleArrowDown` */
    method ArrowDown()
      requires Valid()
      modifies this
      ensures Valid()
      ensures State() == Transitions.ArrowDown(old(State()))
    {
      if highlightedIndex < |suggestions| - 1 {
        highlightedIndex := highlightedIndex + 1;
      }
    }

    /** `handleKeyDown` */
    method KeyDown(key: string)
      requires Valid()
      modifies this
      ensures Valid()
      ensures State() == Transitions.KeyPress(old(State()), key)
    {
      if key == "ArrowUp" {
        ArrowUp();
      } else if key == "ArrowDown" {
        ArrowDown();
      }
    }

    /** `handleReset` */
    method Reset()
      requires Valid()
      modifies this
      ensures Valid() && Transitions.Idle(State())
      ensures State() == Transitions.Reset(old(State()))
    {
      if highlightedIndex >= 0 {
        highlightedIndex := -1;
      }
      suggestions := [];
    }

    /** `handleSubmit` */
    method Submit()
      requires Valid()
      modifies this
      ensures Valid() && Transitions.Idle(State())
      ensures State() == Transitions.SubmitForm(old(State()))
    {
      if highlightedIndex >= 0 {
        inputValue := Transitions.Lookup(suggestions, highlightedIndex);
      }
      Reset();
    }

    /** The input's `onChange` with the typed text. */
    method Change(text: string)
      requires Valid()
      modifies this
      ensures Valid()
      ensures State() == Transitions.ChangeText(old(State()), text)
    {
      inputValue := Transitions.Str(text);
      highlightedIndex := -1;
    }

    /** The `onClick` of the suggestion rendered at `index`. */
    method Click(index: nat)
      requires Valid()
      requires index < |suggestions|
      modifies this
      ensures Valid() && Transitions.Idle(State())
      ensures State() == Transitions.ClickItem(old(State()), index)
    {
      var item := suggestions[index];
      inputValue := Transitions.Str(item);
      Reset();
    }

    /** The debounced handler for `query` and the filter result it stores. */
    method ReceiveSuggestions(query: string)
      requires Valid()
      modifies this
      ensures Valid()
      ensures State() == Transitions.ReceiveSuggestions(source, old(State()), query)
    {
      if query != [] {
        suggestions := Filter(source, query);
        FilterIsSubsequence(source, query);
      } else {
        suggestions := [];
      }
    }
  }
}
