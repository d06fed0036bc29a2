/** Python's `list.insert`, which clamps its index instead of failing. */
module PyList {

  /**
   * Where `insert(i, x)` puts x in a list of length n: a negative index
   * counts from the end, and an index still out of range is clamped to the
   * nearest end.
   */
  function InsertPosition(n: nat, i: int): (p: nat)
    ensures p <= n
    ensures 0 <= i <= n ==> p == i
    ensures i > n ==> p == n
    ensures 0 - n <= i < 0 ==> p == n + i
    ensures i + n < 0 ==> p == 0
  {
    if i < 0 then (if i + n < 0 then 0 else i + n)
    else if i > n then n
    else i
  }

  function Insert<T>(s: seq<T>, i: int, x: T): (r: seq<T>)
    ensures |r| == |s| + 1
    ensures r[InsertPosition(|s|, i)] == x
    ensures forall k :: 0 <= k < InsertPosition(|s|, i) ==> r[k] == s[k]
    ensures forall k :: InsertPosition(|s|, i) < k < |r| ==> r[k] == s[k - 1]
  {
    var p := InsertPosition(|s|, i);
    s[..p] + [x] + s[p..]
  }

  /** An index at or past the end appends. */
  lemma InsertPastEnd<T>(s: seq<T>, i: int, x: T)
    requires i >= |s|
    ensures Insert(s, i, x) == s + [x]
  {
    assert s[|s|..] == [];
  }
}
