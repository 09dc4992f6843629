/** JavaScript value conventions shared by the server and the viewer models. */
module Js {

  /** A value that may be `undefined` (None). */
  datatype Option<+T> = None | Some(value: T)

  /** A plain object: `keys` is what `Object.keys` returns, `entries` the own properties. */
  datatype Dict<V> = Dict(keys: seq<string>, entries: map<string, V>) {

    /** Each own key is listed exactly once. */
    ghost predicate Valid() {
      && Distinct(keys)
      && (forall k :: k in entries <==> k in keys)
    }

    /** `obj[k]`: the property, or undefined when the object has none. */
    function Get(k: string): Option<V> {
      if k in entries then Some(entries[k]) else None
    }
  }

  /** No element of `s` occurs twice. */
  ghost predicate Distinct<T>(s: seq<T>) {
    forall i, j :: 0 <= i < j < |s| ==> s[i] != s[j]
  }

  /** `pat` occurs in `s` starting at index `j`. */
  predicate OccursAt(s: string, pat: string, j: nat) {
    j + |pat| <= |s| && s[j..j + |pat|] == pat
  }

  /** `s.indexOf(pat, from)`: the first index at or after `from` where `pat` occurs; None stands for -1. */
  function IndexOfFrom(s: string, pat: string, from: nat): (r: Option<nat>)
    ensures r.Some? ==> from <= r.value && OccursAt(s, pat, r.value)
    ensures forall j: nat :: from <= j && (r.None? || j < r.value) ==> !OccursAt(s, pat, j)
    decreases |s| - from
  {
    if from + |pat| > |s| then None
    else if s[from..from + |pat|] == pat then Some(from)
    else IndexOfFrom(s, pat, from + 1)
  }

  /** `s.indexOf(pat)`. */
  function IndexOf(s: string, pat: string): (r: Option<nat>)
    ensures r.Some? ==> OccursAt(s, pat, r.value)
    ensures forall j: nat :: (r.None? || j < r.value) ==> !OccursAt(s, pat, j)
  {
    IndexOfFrom(s, pat, 0)
  }

  /** `a.slice(begin, end)` for non-negative bounds: indices past the end are clamped. */
  function Slice<T>(a: seq<T>, begin: nat, end: nat): (r: seq<T>)
    requires begin <= end
    ensures |r| == if end <= |a| then end - begin else if begin <= |a| then |a| - begin else 0
    ensures forall i :: 0 <= i < |r| ==> r[i] == a[begin + i]
  {
    var b := if begin <= |a| then begin else |a|;
    var e := if end <= |a| then end else |a|;
    a[b..e]
  }
}
