/**
 * The mean feature vector of a StudentImageCollectionEvent: the column-wise
 * average of the feature vectors of its images, over the reals.
 */
module MeanVector {

  /** All vectors have the length of the first one. */
  predicate SameLength(vectors: seq<seq<real>>) {
    forall i :: 0 <= i < |vectors| ==> |vectors[i]| == |vectors[0]|
  }

  /** The sum of column `j` over `vectors`. */
  function ColumnSum(vectors: seq<seq<real>>, j: nat): real
    requires forall i :: 0 <= i < |vectors| ==> j < |vectors[i]|
  {
    if vectors == [] then 0.0
    else ColumnSum(vectors[..|vectors| - 1], j) + vectors[|vectors| - 1][j]
  }

  /** The component-wise average of a non-empty list of vectors of one length. */
  function Mean(vectors: seq<seq<real>>): (mean: seq<real>)
    requires |vectors| > 0 && SameLength(vectors)
    ensures |mean| == |vectors[0]|
  {
    seq(|vectors[0]|, j requires 0 <= j < |vectors[0]| => ColumnSum(vectors, j) / (|vectors| as real))
  }

  lemma {:induction false} ColumnSumBounds(vectors: seq<seq<real>>, j: nat, lo: real, hi: real)
    requires forall i :: 0 <= i < |vectors| ==> j < |vectors[i]| && lo <= vectors[i][j] <= hi
    ensures (|vectors| as real) * lo <= ColumnSum(vectors, j) <= (|vectors| as real) * hi
  {
    if vectors != [] {
      ColumnSumBounds(vectors[..|vectors| - 1], j, lo, hi);
    }
  }

  /** Every component of the mean lies between the least and the greatest value of its column. */
  lemma MeanWithinBounds(vectors: seq<seq<real>>, j: nat, lo: real, hi: real)
    requires |vectors| > 0 && SameLength(vectors) && j < |vectors[0]|
    requires forall i :: 0 <= i < |vectors| ==> lo <= vectors[i][j] <= hi
    ensures lo <= Mean(vectors)[j] <= hi
  {
    var n := |vectors| as real;
    ColumnSumBounds(vectors, j, lo, hi);
    var m := Mean(vectors)[j];
    assert m * n == ColumnSum(vectors, j);
  }

  /** The mean of copies of one vector is that vector. */
  lemma MeanOfCopies(vectors: seq<seq<real>>, v: seq<real>)
    requires |vectors| > 0
    requires forall i :: 0 <= i < |vectors| ==> vectors[i] == v
    ensures SameLength(vectors) && Mean(vectors) == v
  {
    forall j | 0 <= j < |v|
      ensures Mean(vectors)[j] == v[j]
    {
      ColumnSumBounds(vectors, j, v[j], v[j]);
    }
  }

  /** Example: [1,2,3], [3,4,5] and [5,6,7] average to [3,4,5]. */
  lemma MeanExample()
    ensures SameLength([[1.0, 2.0, 3.0], [3.0, 4.0, 5.0], [5.0, 6.0, 7.0]])
    ensures Mean([[1.0, 2.0, 3.0], [3.0, 4.0, 5.0], [5.0, 6.0, 7.0]]) == [3.0, 4.0, 5.0]
  {
    var vs := [[1.0, 2.0, 3.0], [3.0, 4.0, 5.0], [5.0, 6.0, 7.0]];
    assert vs[..2] == [[1.0, 2.0, 3.0], [3.0, 4.0, 5.0]];
    assert vs[..2][..1] == [[1.0, 2.0, 3.0]];
    assert vs[..2][..1][..0] == vs[..0];
    forall j | 0 <= j < 3
      ensures ColumnSum(vs, j) == vs[0][j] + vs[1][j] + vs[2][j]
    {
      assert ColumnSum(vs[..2][..1], j) == vs[0][j];
      assert ColumnSum(vs[..2], j) == vs[0][j] + vs[1][j];
    }
  }
}
