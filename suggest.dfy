/** The suggestion filter: the entries of the fixed country list whose
    lowercase form contains the lowercase query, in list order, and the
    guard of the debounced text handler that sends an empty query to an
    empty list instead of to the filter. */
module Suggest {
  import opened Strings

  /** `item.toLowerCase().includes(query.toLowerCase())` */
  predicate Matches(item: string, query: string) {
    Includes(Lower(item), Lower(query))
  }

  /** `a` is obtained from `b` by deleting entries, keeping the rest in order
      (and as many times as they occur). */
  predicate IsSubsequence<T(==)>(a: seq<T>, b: seq<T>)
    decreases |b|
  {
    a == [] ||
    (b != [] && ((a[0] == b[0] && IsSubsequence(a[1..], b[1..])) || IsSubsequence(a, b[1..])))
  }

  /** `source.filter(item => Matches(item, query))`: an entry is kept exactly
      when it is in the source and matches. */
  function Filter(source: seq<string>, query: string): (r: seq<string>)
    ensures |r| <= |source|
    ensures forall x :: x in r <==> x in source && Matches(x, query)
  {
    if source == [] then []
    else if Matches(source[0], query) then [source[0]] + Filter(source[1..], query)
    else Filter(source[1..], query)
  }

  /** The debounced text handler: a non-empty input is filtered, an empty one
      clears the suggestions. */
  function SuggestionsFor(source: seq<string>, input: string): (r: seq<string>)
    ensures input == [] ==> r == []
    ensures forall x :: x in r <==> input != [] && x in source && Matches(x, input)
  {
    if input != [] then Filter(source, input) else []
  }

  /** The filter keeps the source's order: its result is a subsequence of
      the source. */
  lemma {:induction false} FilterIsSubsequence(source: seq<string>, query: string)
    ensures IsSubsequence(Filter(source, query), source)
  {
    if source != [] {
      FilterIsSubsequence(source[1..], query);
      var rest := Filter(source[1..], query);
      if Matches(source[0], query) {
        assert ([source[0]] + rest)[1..] == rest;
      }
    }
  }

  /** The filter keeps the multiplicity of every matching entry and drops
      every other entry. */
  lemma {:induction false} FilterCount(source: seq<string>, query: string, x: string)
    ensures multiset(Filter(source, query))[x] ==
            if Matches(x, query) then multiset(source)[x] else 0
  {
    if source != [] {
      FilterCount(source[1..], query, x);
      assert source == [source[0]] + source[1..];
      assert multiset(source) == multiset{source[0]} + multiset(source[1..]);
    }
  }

  /** Without the guard, the empty query would match every entry: the
      filter of "" is the whole source. */
  lemma {:induction false} FilterEmptyQuery(source: seq<string>)
    ensures Filter(source, "") == source
  {
    if source != [] {
      assert StartsWith(Lower(source[0]), "");
      FilterEmptyQuery(source[1..]);
    }
  }

  /** The filter depends on the query only through its lowercase form. */
  lemma {:induction false} FilterCaseInsensitive(source: seq<string>, q1: string, q2: string)
    requires Lower(q1) == Lower(q2)
    ensures Filter(source, q1) == Filter(source, q2)
  {
    if source != [] {
      FilterCaseInsensitive(source[1..], q1, q2);
    }
  }

  /** A query whose lowercase form occurs in another's narrows the result:
      what the longer query keeps is a subsequence of what the shorter keeps. */
  lemma {:induction false} FilterNarrows(source: seq<string>, longer: string, shorter: string)
    requires Includes(Lower(longer), Lower(shorter))
    ensures IsSubsequence(Filter(source, longer), Filter(source, shorter))
  {
    if source != [] {
      var x := source[0];
      FilterNarrows(source[1..], longer, shorter);
      var l, s := Filter(source[1..], longer), Filter(source[1..], shorter);
      if Matches(x, longer) {
        IncludesTransitive(Lower(x), Lower(longer), Lower(shorter));
        assert ([x] + l)[1..] == l && ([x] + s)[1..] == s;
      } else if Matches(x, shorter) {
        assert ([x] + s)[1..] == s;
      }
    }
  }

  /** Suggestions for a query that differs only in letter case are the same. */
  lemma SuggestionsCaseInsensitive(source: seq<string>, q1: string, q2: string)
    requires Lower(q1) == Lower(q2)
    ensures SuggestionsFor(source, q1) == SuggestionsFor(source, q2)
  {
    assert |q1| == |q2|;
    FilterCaseInsensitive(source, q1, q2);
  }

  /** Typing more characters after a non-empty query can only remove
      suggestions, never add or reorder them. */
  lemma TypingMoreNarrows(source: seq<string>, query: string, extra: string)
    requires query != []
    ensures IsSubsequence(SuggestionsFor(source, query + extra), SuggestionsFor(source, query))
  {
    LowerAppend(query, extra);
    IncludesPrefix(Lower(query), Lower(extra));
    FilterNarrows(source, query + extra, query);
  }

  /** An entry typed in full, in any letter case, is always among the
      suggestions. */
  lemma EntryTypedInFullIsSuggested(source: seq<string>, entry: string, input: string)
    requires entry in source
    requires input != [] && Lower(input) == Lower(entry)
    ensures entry in SuggestionsFor(source, input)
  {
    assert StartsWith(Lower(entry), Lower(input));
  }
}
