/** The few JavaScript built-ins the components rely on, with their index clamping written out. */
module Js {

  datatype Option<+T> = None | Some(value: T)

  function Min(a: int, b: int): (r: int)
    ensures r <= a && r <= b && (r == a || r == b)
  {
    if a <= b then a else b
  }

  /** Clamps `x` into the closed range [lo, hi]. */
  function Clamp(x: int, lo: int, hi: int): (r: int)
    requires lo <= hi
    ensures lo <= r <= hi
    ensures lo <= x <= hi ==> r == x
    ensures x < lo ==> r == lo
    ensures hi < x ==> r == hi
  {
    if x < lo then lo else if hi < x then hi else x
  }

  /** `String.prototype.substring(start, end)`: both indices are clamped into [0, |s|]
      and swapped when the first exceeds the second. */
  function Substring<T>(s: seq<T>, start: int, end: int): (r: seq<T>)
    ensures |r| <= |s|
    ensures 0 <= start <= end <= |s| ==> r == s[start..end]
    ensures start == 0 ==> r == s[..Clamp(end, 0, |s|)]
    ensures start == 0 && end <= 0 ==> r == []
    ensures start == 0 && |s| <= end ==> r == s
  {
    var a, b := Clamp(start, 0, |s|), Clamp(end, 0, |s|);
    if a <= b then s[a..b] else s[b..a]
  }

  /** `Array.prototype.slice(start, end)`: a negative index counts from the end, every
      index is clamped into [0, |s|], and an empty range gives the empty array. */
  function Slice<T>(s: seq<T>, start: int, end: int): (r: seq<T>)
    ensures |r| <= |s|
    ensures 0 <= start <= end <= |s| ==> r == s[start..end]
    ensures start == 0 && 0 <= end ==> r == s[..Min(end, |s|)]
  {
    var from := if start < 0 then Clamp(|s| + start, 0, |s|) else Clamp(start, 0, |s|);
    var to := if end < 0 then Clamp(|s| + end, 0, |s|) else Clamp(end, 0, |s|);
    if from < to then s[from..to] else []
  }
}
