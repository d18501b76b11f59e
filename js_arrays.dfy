/** The JavaScript array operation both the treemap and the breadcrumbs
    rely on. */
module JsArrays {
  /** How many elements `slice(0, end)` keeps of a sequence of length `len`:
      a negative `end` counts back from the end. */
  function SliceEnd(len: nat, end: int): (r: nat)
    ensures r <= len
    ensures end >= 0 ==> r == if end < len then end else len
  {
    if end < 0 then (if len + end < 0 then 0 else len + end)
    else if end < len then end
    else len
  }

  /** `slice(0, end)` on a sequence. */
  function Slice<T>(s: seq<T>, end: int): (r: seq<T>)
    ensures |r| <= |s| && r == s[..|r|]
    ensures 0 <= end < |s| ==> r == s[..end]
    ensures end >= |s| ==> r == s
  {
    s[..SliceEnd(|s|, end)]
  }
}
