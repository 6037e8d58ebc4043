/** Reading byte strings and character strings: what stands where, the search
    for a substring, and decimal numbers. */
module Strings {
  import opened Wrappers

  // --------------------------------------------------------------- substrings

  /** `p` is the slice of `s` that starts at `i`. */
  predicate OccursAt(s: string, i: nat, p: string) {
    i + |p| <= |s| && s[i..i + |p|] == p
  }

  /** First index from `i` on at which `p` occurs. */
  function FindFrom(s: string, p: string, i: nat): (r: Option<nat>)
    ensures r.Some? ==> i <= r.value && OccursAt(s, r.value, p)
    ensures forall k :: i <= k < (if r.Some? then r.value else |s| + 1) ==> !OccursAt(s, k, p)
    decreases |s| + 1 - i
  {
    if i > |s| then None
    else if OccursAt(s, i, p) then Some(i)
    else FindFrom(s, p, i + 1)
  }

  lemma {:induction false} FindIs(s: string, p: string, i: nat, j: nat)
    requires i <= j <= |s| && OccursAt(s, j, p)
    requires forall k :: i <= k < j ==> !OccursAt(s, k, p)
    ensures FindFrom(s, p, i) == Some(j)
  {
    hide OccursAt, FindFrom;
    var r := FindFrom(s, p, i);
    assert r.Some? && r.value <= j;
    assert OccursAt(s, r.value, p);
  }

  /** `s` reads `p` from `i` on, character by character. */
  predicate Holds(s: string, i: nat, p: string) {
    i + |p| <= |s| && forall k :: 0 <= k < |p| ==> s[i + k] == p[k]
  }

  lemma {:induction false} HoldsParts(s: string, i: nat, p: string, q: string)
    requires Holds(s, i, p + q)
    ensures Holds(s, i, p) && Holds(s, i + |p|, q)
  {
    forall k | 0 <= k < |p| ensures s[i + k] == p[k] { assert (p + q)[k] == p[k]; }
    forall k | 0 <= k < |q| ensures s[i + |p| + k] == q[k] { assert (p + q)[|p| + k] == q[k]; }
  }

  lemma {:induction false} HoldsSlice(s: string, i: nat, p: string, k: nat, n: nat)
    requires Holds(s, i, p) && k + n <= |p|
    ensures i + k + n <= |s| && s[i + k..i + k + n] == p[k..k + n]
  {
  }

  // ------------------------------------------------------------------ numbers

  predicate IsDigit(c: char) { '0' <= c <= '9' }

  predicate AllDigits(s: string) { forall k :: 0 <= k < |s| ==> IsDigit(s[k]) }

  function DigitValue(c: char): nat {
    if IsDigit(c) then c as int - '0' as int else 0
  }

  function DecimalValue(s: string): nat {
    if |s| == 0 then 0 else 10 * DecimalValue(s[..|s| - 1]) + DigitValue(s[|s| - 1])
  }
}
