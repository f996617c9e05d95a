/** The shrinking-mask Pareto sweep over the variant scores, against the
    declarative definition of the points it should keep. */
module Pareto {

  /** A normalised score. A column whose scores are all equal is divided by a
      range of zero and becomes NaN throughout. */
  datatype Score = Number(v: real) | NaN

  type Matrix = seq<seq<Score>>

  /** data.shape[1] is the same for every row. */
  predicate Rectangular(data: Matrix, d: nat) {
    forall i :: 0 <= i < |data| ==> |data[i]| == d
  }

  /** Every column is NaN throughout or nowhere. */
  predicate WholeColumns(data: Matrix) {
    forall i, j :: 0 <= i < |data| && 0 <= j < |data| ==> SameColumns(data[i], data[j])
  }

  predicate SameColumns(p: seq<Score>, q: seq<Score>) {
    |p| == |q| && forall k :: 0 <= k < |p| ==> (p[k].NaN? <==> q[k].NaN?)
  }

  /** x > y; false when either is NaN. */
  predicate Greater(x: Score, y: Score) {
    x.Number? && y.Number? && x.v > y.v
  }

  /** np.any(p > q) over one row. */
  predicate AnyGreater(p: seq<Score>, q: seq<Score>)
    requires |p| == |q|
  {
    exists k :: 0 <= k < |p| && Greater(p[k], q[k])
  }

  /** q is at least as large as p in every coordinate that is a number. */
  predicate Covers(q: seq<Score>, p: seq<Score>)
    requires |p| == |q|
  {
    forall k :: 0 <= k < |p| && p[k].Number? && q[k].Number? ==> q[k].v >= p[k].v
  }

  /** q is at least as large as p everywhere and larger somewhere. */
  predicate Dominates(q: seq<Score>, p: seq<Score>)
    requires |p| == |q|
  {
    Covers(q, p) && AnyGreater(q, p)
  }

  /** The definition: no point dominates j and no earlier point equals it. */
  ghost predicate Survives(data: Matrix, d: nat, j: nat)
    requires Rectangular(data, d) && j < |data|
  {
    && (forall i :: 0 <= i < |data| ==> !Dominates(data[i], data[j]))
    && (forall i :: 0 <= i < j ==> data[i] != data[j])
  }

  /** How the sweep sees it: point i knocks out point j when it covers j and
      either beats it in some coordinate or comes earlier. */
  predicate Beats(data: Matrix, d: nat, i: nat, j: nat)
    requires Rectangular(data, d) && i < |data| && j < |data|
  {
    i != j && Covers(data[i], data[j]) && (AnyGreater(data[i], data[j]) || i < j)
  }

  lemma SurvivesIffUnbeaten(data: Matrix, d: nat, j: nat)
    requires Rectangular(data, d) && WholeColumns(data) && j < |data|
    ensures Survives(data, d, j) <==> forall i :: 0 <= i < |data| ==> !Beats(data, d, i, j)
  {
    forall i | 0 <= i < |data|
      ensures Beats(data, d, i, j) <==> Dominates(data[i], data[j]) || (i < j && data[i] == data[j])
    {
      if Covers(data[i], data[j]) && !AnyGreater(data[i], data[j]) {
        EqualRows(data[i], data[j]);
      }
    }
  }

  lemma EqualRows(p: seq<Score>, q: seq<Score>)
    requires SameColumns(p, q) && Covers(p, q) && !AnyGreater(p, q)
    ensures p == q
  {
    forall k | 0 <= k < |p| ensures p[k] == q[k] {
      assert !Greater(p[k], q[k]);
    }
  }

  lemma NotGreaterMeansCovered(p: seq<Score>, q: seq<Score>)
    requires |p| == |q|
    ensures !AnyGreater(p, q) <==> Covers(q, p)
  {
  }

  lemma BeatsTransitive(data: Matrix, d: nat, i: nat, j: nat, k: nat)
    requires Rectangular(data, d) && WholeColumns(data) && i < |data| && j < |data| && k < |data|
    requires Beats(data, d, i, j) && Beats(data, d, j, k)
    ensures Beats(data, d, i, k)
  {
  }

  // ------------------------------------------------------------------- sweep

  /** Row i is still efficient when its turn comes: it exceeds, somewhere, every
      earlier row that was. */
  ghost predicate Pivot(data: Matrix, d: nat, i: nat)
    requires Rectangular(data, d) && i < |data|
  {
    forall p :: 0 <= p < i && Pivot(data, d, p) ==> AnyGreater(data[i], data[p])
  }

  /** Row j has outlived the pivots before row `upTo`. */
  ghost predicate Outlives(data: Matrix, d: nat, upTo: nat, j: nat)
    requires Rectangular(data, d) && j < |data|
  {
    forall p :: 0 <= p < upTo && p < |data| && p != j && Pivot(data, d, p) ==> AnyGreater(data[j], data[p])
  }

  /** What the sweep keeps, for every matrix. */
  ghost predicate Kept(data: Matrix, d: nat, j: nat)
    requires Rectangular(data, d) && j < |data|
  {
    Outlives(data, d, |data|, j)
  }

  /** An unbeaten row is a pivot, and a row that is no pivot is beaten by one. */
  lemma PivotOrBeaten(data: Matrix, d: nat, i: nat) returns (p: nat)
    requires Rectangular(data, d) && WholeColumns(data) && i < |data|
    ensures p < |data| && Pivot(data, d, p) && (p == i || Beats(data, d, p, i))
  {
    p := i;
    if !Pivot(data, d, i) {
      p :| 0 <= p < i && Pivot(data, d, p) && !AnyGreater(data[i], data[p]);
      NotGreaterMeansCovered(data[i], data[p]);
    }
  }

  /** With whole columns the sweep keeps exactly the points of the definition:
      those no point dominates and no earlier point equals. */
  lemma KeptIffSurvives(data: Matrix, d: nat, j: nat)
    requires Rectangular(data, d) && WholeColumns(data) && j < |data|
    ensures Kept(data, d, j) <==> Survives(data, d, j)
  {
    SurvivesIffUnbeaten(data, d, j);
    if i :| 0 <= i < |data| && Beats(data, d, i, j) {
      var p := PivotOrBeaten(data, d, i);
      if p != i {
        BeatsTransitive(data, d, p, i, j);
      }
      NotGreaterMeansCovered(data[j], data[p]);
    } else {
      var p := PivotOrBeaten(data, d, j);
      forall i | 0 <= i < |data| && i != j && Pivot(data, d, i) ensures AnyGreater(data[j], data[i]) {
        NotGreaterMeansCovered(data[j], data[i]);
      }
    }
  }

  /** A NaN in only some rows of a column breaks this: the first row removes the
      second, which alone would have removed the third. */
  lemma MixedNaNDisagrees(data: Matrix)
    requires data == [[NaN, Number(1.0), Number(1.0)],
                      [Number(5.0), Number(0.0), NaN],
                      [Number(3.0), Number(0.0), Number(2.0)]]
    ensures Rectangular(data, 3) && Kept(data, 3, 2) && !Survives(data, 3, 2)
  {
    assert Pivot(data, 3, 0) && !AnyGreater(data[1], data[0]);
    assert !Pivot(data, 3, 1);
    assert Greater(data[2][2], data[0][2]);
    assert Greater(data[1][0], data[2][0]);
    assert Dominates(data[1], data[2]);
  }

  /** np.any(row > pivot) */
  method RowAnyGreater(p: seq<Score>, q: seq<Score>) returns (found: bool)
    requires |p| == |q|
    ensures found <==> AnyGreater(p, q)
  {
    for k := 0 to |p|
      invariant forall c :: 0 <= c < k ==> !Greater(p[c], q[c])
    {
      if Greater(p[k], q[k]) {
        return true;
      }
    }
    return false;
  }

  /** is_pareto_efficient, for every matrix; with whole columns it keeps the
      points of the definition. */
  method IsParetoEfficient(data: Matrix, d: nat) returns (efficient: array<bool>)
    requires Rectangular(data, d)
    ensures efficient.Length == |data|
    ensures forall j :: 0 <= j < |data| ==> (efficient[j] <==> Kept(data, d, j))
    ensures WholeColumns(data) ==> forall j :: 0 <= j < |data| ==> (efficient[j] <==> Survives(data, d, j))
  {
    var n := |data|;
    efficient := new bool[n](_ => true);
    for i := 0 to n
      invariant forall j :: 0 <= j < n ==> (efficient[j] <==> Outlives(data, d, i, j))
    {
      assert efficient[i] <==> Pivot(data, d, i);
      if efficient[i] {
        ghost var before := efficient[..];
        for j := 0 to n
          invariant forall k :: 0 <= k < j ==> efficient[k] == (before[k] && AnyGreater(data[k], data[i]))
          invariant forall k :: j <= k < n ==> efficient[k] == before[k]
        {
          if efficient[j] {
            var greater := RowAnyGreater(data[j], data[i]);
            efficient[j] := greater;
          }
        }
        efficient[i] := true;
      }
      forall j | 0 <= j < n ensures efficient[j] <==> Outlives(data, d, i + 1, j) {
      }
    }
    if WholeColumns(data) {
      forall j | 0 <= j < n ensures efficient[j] <==> Survives(data, d, j) {
        KeptIffSurvives(data, d, j);
      }
    }
  }
}
