/** What several modules share: optional values, bytes, and stripping and regrouping of
    sequences. */
module Basics {

  datatype Option<+T> = None | Some(value: T)

  newtype Byte = b: int | 0 <= b < 256

  lemma Regroup<T>(a: seq<T>, b: seq<T>, c: seq<T>)
    ensures a + (b + c) == (a + b) + c
  {
  }

  lemma Nothing<T>(a: seq<T>)
    ensures a + [] == a && [] + a == a
  {
  }

  function StripLeft<T>(s: seq<T>, space: T -> bool): (r: seq<T>)
    ensures |r| <= |s|
  {
    if s != [] && space(s[0]) then StripLeft(s[1..], space) else s
  }

  function StripRight<T>(s: seq<T>, space: T -> bool): (r: seq<T>)
    ensures |r| <= |s|
  {
    if s != [] && space(s[|s| - 1]) then StripRight(s[..|s| - 1], space) else s
  }

  /** Python's `strip()`, for a notion of white space. */
  function Strip<T>(s: seq<T>, space: T -> bool): (r: seq<T>)
    ensures |r| <= |s|
  {
    StripRight(StripLeft(s, space), space)
  }
}
