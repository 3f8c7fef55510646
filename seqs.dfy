/** Sequence helpers shared by the stages. */
module Seqs {
  import opened Results


  /** `reversed(s)` as a list. */
  function Reverse<T>(s: seq<T>): (r: seq<T>)
    ensures |r| == |s|
    ensures forall i :: 0 <= i < |s| ==> r[i] == s[|s| - 1 - i]
  {
    if s == [] then [] else Reverse(s[1..]) + [s[0]]
  }

  /** Python's normalisation of a slice bound against a length `n`. */
  function PyIndex(i: int, n: nat): (k: nat)
    ensures k <= n
    ensures 0 <= i <= n ==> k == i
    ensures -(n as int) <= i < 0 ==> k == n + i
  {
    if i < 0 then (if i + n < 0 then 0 else i + n) else if i > n then n else i
  }

  /** `a[i:j]` */
  function PySlice<T>(a: seq<T>, i: int, j: int): (r: seq<T>)
    ensures |r| <= |a|
  {
    var lo := PyIndex(i, |a|);
    var hi := PyIndex(j, |a|);
    if lo < hi then a[lo..hi] else []
  }

  /** `a[i]`, where a negative `i` counts from the end; `None` is Python's `IndexError`. */
  function PyGet<T>(a: seq<T>, i: int): (r: Option<T>)
    ensures 0 <= i < |a| ==> r == Some(a[i])
    ensures (i >= |a| || i < -(|a| as int)) <==> r.None?
  {
    if 0 <= i < |a| then Some(a[i])
    else if -(|a| as int) <= i < 0 then Some(a[|a| + i])
    else None
  }

  lemma AppendAssoc<T>(a: seq<T>, b: seq<T>, c: seq<T>)
    ensures (a + b) + c == a + (b + c)
  {
  }
}
