/** The two ORM query shapes the core relies on, over a sequence of rows:
    `filter(...)` (the positions of the matching rows, in order) and
    `get(...)` (the single matching row, or an error). */
module Queries {
  import opened Wrappers

  /** Positions of the rows that satisfy `p`, in increasing order. */
  function Matches<T>(rows: seq<T>, p: T -> bool): (ms: seq<nat>)
    ensures forall k :: 0 <= k < |ms| ==> ms[k] < |rows| && p(rows[ms[k]])
    ensures forall i :: 0 <= i < |rows| && p(rows[i]) ==> i in ms
    ensures forall k, l :: 0 <= k < l < |ms| ==> ms[k] < ms[l]
  {
    if |rows| == 0 then []
    else
      var n := |rows| - 1;
      var front := Matches(rows[..n], p);
      assert forall k :: 0 <= k < |front| ==> rows[..n][front[k]] == rows[front[k]];
      front + (if p(rows[n]) then [n] else [])
  }

  /** More than one row matches exactly when two different rows do. */
  lemma SeveralMatches<T>(rows: seq<T>, p: T -> bool)
    ensures |Matches(rows, p)| > 1 <==>
            exists i, j :: 0 <= i < j < |rows| && p(rows[i]) && p(rows[j])
  {
    var ms := Matches(rows, p);
    if |ms| > 1 {
      assert ms[0] < ms[1] && p(rows[ms[0]]) && p(rows[ms[1]]);
    }
    if exists i, j :: 0 <= i < j < |rows| && p(rows[i]) && p(rows[j]) {
      var i, j :| 0 <= i < j < |rows| && p(rows[i]) && p(rows[j]);
      assert i in ms && j in ms;
      var ki :| 0 <= ki < |ms| && ms[ki] == i;
      var kj :| 0 <= kj < |ms| && ms[kj] == j;
      assert ki != kj;
    }
  }

  datatype GetError = DoesNotExist | MultipleObjectsReturned

  /** `QuerySet.get(...)`: the position of the only matching row. */
  function Get<T>(rows: seq<T>, p: T -> bool): (r: Result<nat, GetError>)
    ensures r.Ok? ==> r.value < |rows| && p(rows[r.value])
    ensures r.Ok? ==> forall i :: 0 <= i < |rows| && p(rows[i]) ==> i == r.value
    ensures r == Err(DoesNotExist) <==> forall i :: 0 <= i < |rows| ==> !p(rows[i])
    ensures r == Err(MultipleObjectsReturned) <==>
            exists i, j :: 0 <= i < j < |rows| && p(rows[i]) && p(rows[j])
  {
    var ms := Matches(rows, p);
    SeveralMatches(rows, p);
    if |ms| == 0 then Err(DoesNotExist)
    else if |ms| > 1 then Err(MultipleObjectsReturned)
    else
      assert forall i :: 0 <= i < |rows| && p(rows[i]) ==> i in ms && i == ms[0];
      Ok(ms[0])
  }

  /** A row that is the only match is what `get` returns. */
  lemma GetUnique<T>(rows: seq<T>, p: T -> bool, k: nat)
    requires k < |rows| && p(rows[k])
    requires forall j :: 0 <= j < |rows| && p(rows[j]) ==> j == k
    ensures Get(rows, p) == Ok(k)
  {
  }
}
