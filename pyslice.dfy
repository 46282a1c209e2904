/** Python slice semantics on sequences: `s[lo:hi]` and `s[lo:]`, where a
    negative bound counts from the end and every bound is clamped to the
    sequence. */
module PySlice {

  /** The position a slice bound `i` denotes in a sequence of length `len`. */
  function Bound(i: int, len: nat): (b: nat)
    ensures b <= len
  {
    if i < 0 then (if i + len < 0 then 0 else i + len)
    else if i > len then len
    else i
  }

  /** `s[lo:hi]` */
  function Slice<T>(s: seq<T>, lo: int, hi: int): seq<T>
  {
    var a, b := Bound(lo, |s|), Bound(hi, |s|);
    if a < b then s[a..b] else []
  }

  /** `s[lo:]` */
  function From<T>(s: seq<T>, lo: int): seq<T>
  {
    s[Bound(lo, |s|)..]
  }

  /** A non-negative in-range slice is the Dafny subsequence. */
  lemma SliceInRange<T>(s: seq<T>, lo: int, hi: int)
    requires 0 <= lo <= hi <= |s|
    ensures Slice(s, lo, hi) == s[lo..hi]
  {
  }

  /** `s[-k:]` keeps the last `k` elements when `1 <= k <= |s|`; note that
      `s[-0:]` is `s[0:]`, the whole sequence. */
  lemma FromNegative<T>(s: seq<T>, k: int)
    requires 1 <= k <= |s|
    ensures From(s, -k) == s[|s| - k..]
  {
  }

  /** A slice of the suffix from `o` is the slice shifted by `o`. */
  lemma SliceOfSuffix<T>(s: seq<T>, o: int, lo: int, hi: int)
    requires 0 <= o <= |s| && 0 <= lo <= hi <= |s| - o
    ensures s[o..][lo..hi] == s[o + lo..o + hi]
  {
  }
}
