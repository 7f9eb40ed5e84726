/**
  The part of JavaScript's `Array.prototype.slice` that the bookmark screen
  relies on, for integer arguments. Indices are clamped to the array, and a
  negative index counts back from the end, as in the language standard
  (ECMA-262, section 23.1.3.28).
 */
module JsArray {

  function Min(a: int, b: int): int {
    if a <= b then a else b
  }

  /** Turns a relative slice bound into an index in `0 .. len`. */
  function Clamp(relative: int, len: nat): (k: nat)
    ensures k <= len
    ensures 0 <= relative ==> k == Min(relative, len)
  {
    if relative < 0 then
      (if len + relative < 0 then 0 else len + relative)
    else if relative < len then relative
    else len
  }

  /** `s.slice(start, end)`: the run of `s` from the clamped start up to,
      but not including, the clamped end; empty when they cross. */
  function Slice<T>(s: seq<T>, start: int, end: int): (r: seq<T>)
    ensures |r| <= |s|
    ensures 0 <= start <= end ==> |r| == Min(end, |s|) - Min(start, |s|)
    ensures 0 <= start ==> |r| == 0 || start + |r| <= |s|
    ensures 0 <= start ==> forall i :: 0 <= i < |r| ==> r[i] == s[start + i]
    ensures 0 <= start && |s| <= start ==> r == []
    ensures 0 <= end <= start ==> r == []
  {
    var from := Clamp(start, |s|);
    var to := Clamp(end, |s|);
    if from < to then s[from..to] else []
  }

  /** A slice whose bounds are non-negative and in order is the sub-range
      it names, with both bounds clamped to the array. */
  lemma SliceInRange<T>(s: seq<T>, start: int, end: int)
    requires 0 <= start <= end
    ensures Slice(s, start, end) == s[Min(start, |s|)..Min(end, |s|)]
  {
  }

  /** `s.slice(0, n)` for `n >= 0` is the prefix of length `min(n, |s|)`. */
  lemma SlicePrefix<T>(s: seq<T>, n: int)
    requires 0 <= n
    ensures Slice(s, 0, n) == s[..Min(n, |s|)]
  {
  }
}
