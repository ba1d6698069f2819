/** The Python string operations the filename rule relies on. */
module PyStr {

  /** `s.startswith(prefix)`. */
  predicate StartsWith(s: string, prefix: string)
    ensures StartsWith(s, prefix) <==>
              |prefix| <= |s| && forall i :: 0 <= i < |prefix| ==> s[i] == prefix[i]
  {
    |prefix| <= |s| && s[..|prefix|] == prefix
  }

  /** `s.endswith(suffix)`. */
  predicate EndsWith(s: string, suffix: string)
    ensures EndsWith(s, suffix) <==>
              |suffix| <= |s| && forall i :: 0 <= i < |suffix| ==> s[|s| - |suffix| + i] == suffix[i]
  {
    |suffix| <= |s| && s[|s| - |suffix|..] == suffix
  }

  /** How Python normalises one slice bound: negative counts from the end, then clamp to [0, len]. */
  function SliceBound(k: int, len: nat): (b: nat)
    ensures b <= len
    ensures 0 <= k <= len ==> b == k
    ensures -(len as int) <= k < 0 ==> b as int == len as int + k
    ensures k > len ==> b == len
    ensures k < -(len as int) ==> b == 0
  {
    if k < 0 then (if len + k < 0 then 0 else len + k)
    else if k > len then len
    else k
  }

  /** `s[start:stop]`: never fails; an empty string when the bounds cross. */
  function Slice(s: string, start: int, stop: int): (r: string)
    ensures |r| <= |s|
    ensures SliceBound(start, |s|) < SliceBound(stop, |s|) ==>
              r == s[SliceBound(start, |s|)..SliceBound(stop, |s|)]
    ensures SliceBound(stop, |s|) <= SliceBound(start, |s|) ==> r == []
  {
    var i := SliceBound(start, |s|);
    var j := SliceBound(stop, |s|);
    if i < j then s[i..j] else []
  }

  /** Slicing off a known head and a non-empty known tail recovers the middle. */
  lemma SliceMiddle(head: string, mid: string, tail: string)
    requires |tail| > 0
    ensures Slice(head + mid + tail, |head|, -|tail|) == mid
  {
    var s := head + mid + tail;
    assert SliceBound(-|tail|, |s|) == |head| + |mid|;
    if |mid| > 0 {
      assert s[|head|..|head| + |mid|] == mid;
    }
  }

  /** `s.replace(from, to)` for single characters: every occurrence is rewritten, nothing else moves. */
  function ReplaceChar(s: string, from: char, to: char): (r: string)
    ensures |r| == |s|
    ensures forall i :: 0 <= i < |s| ==> r[i] == (if s[i] == from then to else s[i])
  {
    if |s| == 0 then []
    else [if s[0] == from then to else s[0]] + ReplaceChar(s[1..], from, to)
  }
}
