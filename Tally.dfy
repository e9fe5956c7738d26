/**
 * `Series.value_counts()`: how often each distinct value occurs in a column.
 * The pandas result is ordered by count; here it is the map it denotes.
 */
module Tally {
  import opened Wrappers

  /** The count of every distinct value of `col`. */
  function Count<T(==)>(col: seq<T>): (m: map<T, nat>)
    ensures m.Keys == set x | x in col
    ensures forall v :: v in m ==> m[v] == multiset(col)[v] && m[v] > 0
  {
    if col == [] then map[]
    else
      var init, x := col[..|col| - 1], col[|col| - 1];
      assert col == init + [x];
      var m := Count(init);
      m[x := if x in m then m[x] + 1 else 1]
  }

  /** The sum of all counts of a map. */
  ghost function Total<T>(m: map<T, nat>): nat
    decreases m.Keys
  {
    if m == map[] then 0
    else
      var k :| k in m;
      m[k] + Total(m - {k})
  }

  /** `Total` does not depend on which key it takes first. */
  lemma {:induction false} TotalRemove<T>(m: map<T, nat>, k: T)
    requires k in m
    ensures Total(m) == m[k] + Total(m - {k})
    decreases m.Keys
  {
    var j :| j in m && Total(m) == m[j] + Total(m - {j});
    if j != k {
      TotalRemove(m - {j}, k);
      TotalRemove(m - {k}, j);
      assert m - {j} - {k} == m - {k} - {j};
    }
  }

  /** The counts add up to the length of the column. */
  lemma {:induction false} CountTotal<T>(col: seq<T>)
    ensures Total(Count(col)) == |col|
  {
    if col != [] {
      var init, x := col[..|col| - 1], col[|col| - 1];
      assert col == init + [x];
      var m := Count(init);
      CountTotal(init);
      var m' := Count(col);
      TotalRemove(m', x);
      assert m' - {x} == m - {x};
      if x in m {
        TotalRemove(m, x);
      } else {
        assert m - {x} == m;
      }
    }
  }

  /**
   * The present values of an optional column, in order: what `value_counts`
   * sees once it drops missing values; exactly the missing entries are lost.
   */
  function Present<T>(col: seq<Option<T>>): (r: seq<T>)
    ensures |r| == |col| - multiset(col)[None]
    ensures forall i :: 0 <= i < |r| ==> Some(r[i]) in col
    ensures forall i :: 0 <= i < |col| && col[i].Some? ==> col[i].value in r
  {
    if col == [] then []
    else
      assert col == [col[0]] + col[1..];
      if col[0].Some? then [col[0].value] + Present(col[1..])
      else Present(col[1..])
  }

  /** Each present value keeps its multiplicity. */
  lemma {:induction false} PresentMultiplicity<T>(col: seq<Option<T>>, v: T)
    ensures multiset(Present(col))[v] == multiset(col)[Some(v)]
  {
    if col != [] {
      assert col == [col[0]] + col[1..];
      PresentMultiplicity(col[1..], v);
    }
  }

  /** Dropping missing values keeps the length exactly when nothing is missing. */
  lemma {:induction false} PresentKeepsAll<T>(col: seq<Option<T>>)
    ensures |Present(col)| == |col| <==> forall i :: 0 <= i < |col| ==> col[i].Some?
  {
    if col != [] {
      PresentKeepsAll(col[1..]);
      assert forall i :: 1 <= i < |col| ==> col[i] == col[1..][i - 1];
    }
  }
}
