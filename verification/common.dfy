/** Small shared vocabulary: optional values and the JavaScript array
    operations (`slice`, `splice`) whose index rules the front-end relies on. */
module Common {

  /** A value that may be absent (`null` / `undefined` in the front-end). */
  datatype Option<+T> = None | Some(value: T) {
    function GetOr(default: T): T {
      match this
      case Some(v) => v
      case None => default
    }
  }

  function Min(a: int, b: int): int { if a <= b then a else b }
  function Max(a: int, b: int): int { if a >= b then a else b }

  /** Resolves one `Array.prototype.slice` bound: a negative index counts
      from the end, and the result is clamped into [0, len]. */
  function SliceIndex(i: int, len: nat): (r: nat)
    ensures r <= len
    ensures 0 <= i <= len ==> r == i
    ensures i > len ==> r == len
    ensures i < 0 ==> r == Max(0, len + i)
  {
    if i < 0 then (if len + i < 0 then 0 else len + i)
    else if i > len then len
    else i
  }

  /** `s.slice(start, end)` with JavaScript's rules for negative and
      out-of-range bounds. */
  function JsSlice<T>(s: seq<T>, start: int, end: int): (r: seq<T>)
    ensures |r| <= |s|
    ensures 0 <= end <= start ==> r == []
    ensures 0 <= start <= |s| && start <= end ==> r == s[start..Min(end, |s|)]
    ensures 0 <= start && start >= |s| ==> r == []
    ensures start <= end ==> |r| <= end - start
    ensures forall x :: x in r ==> x in s
  {
    var from := SliceIndex(start, |s|);
    var to := SliceIndex(end, |s|);
    if from < to then s[from..to] else []
  }

  /** `copy.splice(index, 1)` on a copy of `s` with a non-negative index:
      removes the element at `index` when there is one. */
  function RemoveAt<T>(s: seq<T>, index: nat): (r: seq<T>)
    ensures index < |s| ==> |r| == |s| - 1
    ensures index < |s| ==> forall k :: 0 <= k < index ==> r[k] == s[k]
    ensures index < |s| ==> forall k :: index <= k < |r| ==> r[k] == s[k + 1]
    ensures index >= |s| ==> r == s
  {
    if index < |s| then s[..index] + s[index + 1..] else s
  }

  /** Number of occurrences of `x` in `s`. */
  function Count<T(==)>(s: seq<T>, x: T): nat {
    if s == [] then 0 else (if s[0] == x then 1 else 0) + Count(s[1..], x)
  }
}
