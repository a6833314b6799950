/** Case folding and substring search, the two string primitives the
    suggestion filter is built from (`toLowerCase` and `includes`).
    Lowercasing is modelled on ASCII letters only. */
module Strings {

  predicate IsUpper(c: char) {
    'A' <= c <= 'Z'
  }

  /** Lowercase of one character: an ASCII capital maps to its small letter,
      every other character is left as it is. */
  function LowerChar(c: char): (r: char)
    ensures !IsUpper(r)
    ensures IsUpper(c) ==> r != c && r as int - c as int == 'a' as int - 'A' as int
    ensures !IsUpper(c) ==> r == c
  {
    if IsUpper(c) then (c as int - 'A' as int + 'a' as int) as char else c
  }

  /** `s.toLowerCase()`: the character-wise lowercase of `s`. */
  function Lower(s: string): (r: string)
    ensures |r| == |s|
    ensures forall i :: 0 <= i < |s| ==> r[i] == LowerChar(s[i])
  {
    if s == [] then [] else [LowerChar(s[0])] + Lower(s[1..])
  }

  /** Lowercasing twice is lowercasing once. */
  lemma LowerIdempotent(s: string)
    ensures Lower(Lower(s)) == Lower(s)
  {
  }

  /** Lowercase distributes over concatenation. */
  lemma LowerAppend(a: string, b: string)
    ensures Lower(a + b) == Lower(a) + Lower(b)
  {
    var l, r := Lower(a + b), Lower(a) + Lower(b);
    assert |l| == |r|;
    forall i | 0 <= i < |l| ensures l[i] == r[i] {
      if i < |a| {
        assert (a + b)[i] == a[i];
      } else {
        assert (a + b)[i] == b[i - |a|];
      }
    }
  }

  predicate StartsWith(s: string, q: string) {
    |q| <= |s| && s[..|q|] == q
  }

  /** `s.includes(q)`: `q` occurs in `s` starting at some position
      (so the empty string occurs in every string). */
  predicate Includes(s: string, q: string)
    decreases |s|
  {
    StartsWith(s, q) || (s != [] && Includes(s[1..], q))
  }

  /** `q` occurs in `s` at position `i`. */
  predicate OccursAt(s: string, q: string, i: int) {
    0 <= i && i + |q| <= |s| && s[i..i + |q|] == q
  }

  /** The left-to-right search finds `q` exactly when `q` occurs at some
      position of `s`. */
  lemma {:induction false} IncludesIff(s: string, q: string)
    ensures Includes(s, q) <==> exists i :: OccursAt(s, q, i)
    decreases |s|
  {
    if Includes(s, q) {
      if StartsWith(s, q) {
        assert OccursAt(s, q, 0);
      } else {
        IncludesIff(s[1..], q);
        var i :| OccursAt(s[1..], q, i);
        assert s[1..][i..i + |q|] == s[i + 1..i + 1 + |q|];
        assert OccursAt(s, q, i + 1);
      }
    }
    if exists i :: OccursAt(s, q, i) {
      var i :| OccursAt(s, q, i);
      if i == 0 {
        assert StartsWith(s, q);
      } else {
        assert s[1..][i - 1..i - 1 + |q|] == s[i..i + |q|];
        assert OccursAt(s[1..], q, i - 1);
        IncludesIff(s[1..], q);
      }
    }
  }

  /** Occurrence is transitive: an occurrence of `q` inside an occurrence
      of `p` inside `s` is an occurrence of `q` in `s`. */
  lemma IncludesTransitive(s: string, p: string, q: string)
    requires Includes(s, p) && Includes(p, q)
    ensures Includes(s, q)
  {
    IncludesIff(s, p);
    IncludesIff(p, q);
    var i :| OccursAt(s, p, i);
    var j :| OccursAt(p, q, j);
    var found, inner := s[i + j..i + j + |q|], p[j..j + |q|];
    forall k | 0 <= k < |q| ensures found[k] == inner[k] {
      assert s[i..i + |p|][j + k] == s[i + j + k];
    }
    assert found == inner;
    assert OccursAt(s, q, i + j);
    IncludesIff(s, q);
  }

  /** Every string includes its prefixes. */
  lemma IncludesPrefix(s: string, extra: string)
    ensures Includes(s + extra, s)
  {
    assert (s + extra)[..|s|] == s;
  }
}
