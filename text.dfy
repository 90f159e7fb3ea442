/** String helpers: `Array.prototype.join` and substring search. */
module Text {
  import opened Wrappers

  /** `xs.join(sep)`. */
  function Join(xs: seq<string>, sep: string): (r: string)
    decreases |xs|
  {
    if |xs| == 0 then ""
    else if |xs| == 1 then xs[0]
    else Join(xs[..|xs| - 1], sep) + sep + xs[|xs| - 1]
  }

  /** Joining one more element appends the separator and that element. */
  lemma JoinSnoc(xs: seq<string>, x: string, sep: string)
    ensures Join(xs + [x], sep) == if xs == [] then x else Join(xs, sep) + sep + x
  {
    assert (xs + [x])[..|xs|] == xs;
  }

  predicate OccursAt(s: string, pat: string, i: nat) {
    i + |pat| <= |s| && s[i..i + |pat|] == pat
  }

  /** The leftmost occurrence of `pat` in `s` at or after `from`. */
  function FirstOccurrence(s: string, pat: string, from: nat): (r: Option<nat>)
    ensures r.Some? ==> from <= r.value && OccursAt(s, pat, r.value)
    ensures r.Some? ==> forall k :: from <= k < r.value ==> !OccursAt(s, pat, k)
    ensures r.None? ==> forall k :: from <= k ==> !OccursAt(s, pat, k)
    decreases |s| - from
  {
    if from + |pat| > |s| then None
    else if s[from..from + |pat|] == pat then Some(from)
    else FirstOccurrence(s, pat, from + 1)
  }

  /** The rightmost occurrence of `pat` in `s` that starts at or after `from`. */
  function LastOccurrence(s: string, pat: string, from: nat): (r: Option<nat>)
    ensures r.Some? ==> from <= r.value && OccursAt(s, pat, r.value)
    ensures r.Some? ==> forall k :: r.value < k ==> !OccursAt(s, pat, k)
    ensures r.None? ==> forall k :: from <= k ==> !OccursAt(s, pat, k)
  {
    LastAtOrBelow(s, pat, from, |s| - |pat|)
  }

  function LastAtOrBelow(s: string, pat: string, from: nat, hi: int): (r: Option<nat>)
    requires hi <= |s| - |pat|
    requires forall k :: hi < k ==> !OccursAt(s, pat, k)
    ensures r.Some? ==> from <= r.value <= hi && OccursAt(s, pat, r.value)
    ensures r.Some? ==> forall k :: r.value < k ==> !OccursAt(s, pat, k)
    ensures r.None? ==> forall k :: from <= k ==> !OccursAt(s, pat, k)
    decreases hi - from
  {
    if hi < from then None
    else if s[hi..hi + |pat|] == pat then Some(hi)
    else LastAtOrBelow(s, pat, from, hi - 1)
  }
}
