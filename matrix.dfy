/**
 * The integer matrix operations of project/task1/matrix_operations.py over
 * lists of rows: elementwise sum, the triple-loop product with its dimension
 * check, and the transpose.
 */
module Matrices {
  import opened Wrappers

  type Matrix = seq<seq<int>>

  /** `m` has `rows` rows of `cols` entries each. */
  predicate Shape(m: Matrix, rows: nat, cols: nat)
  {
    |m| == rows && forall i :: 0 <= i < rows ==> |m[i]| == cols
  }

  // ---------------------------------------------------------------------------
  // Sum
  // ---------------------------------------------------------------------------

  /** `m2` has an entry wherever `m1` has one. */
  predicate Covers(m1: Matrix, m2: Matrix)
  {
    |m2| >= |m1| && forall i :: 0 <= i < |m1| ==> |m2[i]| >= |m1[i]|
  }

  /** The elementwise sum, shaped like `m1`. */
  function Plus(m1: Matrix, m2: Matrix): Matrix
    requires Covers(m1, m2)
  {
    seq(|m1|, i requires 0 <= i < |m1| => seq(|m1[i]|, j requires 0 <= j < |m1[i]| => m1[i][j] + m2[i][j]))
  }

  /** `add_matrices`: row by row, entry by entry over `m1`'s shape. The result
      has `m1`'s shape and sums the two matrices entry by entry. */
  method AddMatrices(m1: Matrix, m2: Matrix) returns (result: Matrix)
    requires Covers(m1, m2)
    ensures result == Plus(m1, m2)
    ensures |result| == |m1|
    ensures forall i :: 0 <= i < |m1| ==> |result[i]| == |m1[i]|
    ensures forall i, j :: 0 <= i < |m1| && 0 <= j < |m1[i]| ==> result[i][j] == m1[i][j] + m2[i][j]
  {
    result := [];
    var i := 0;
    while i < |m1|
      invariant 0 <= i <= |m1|
      invariant result == Plus(m1, m2)[..i]
    {
      var row := [];
      var j := 0;
      while j < |m1[i]|
        invariant 0 <= j <= |m1[i]|
        invariant row == Plus(m1, m2)[i][..j]
      {
        row := row + [m1[i][j] + m2[i][j]];
        j := j + 1;
      }
      assert row == Plus(m1, m2)[i];
      assert Plus(m1, m2)[..i + 1] == Plus(m1, m2)[..i] + [row];
      result := result + [row];
      i := i + 1;
    }
  }

  /** The sum commutes for matrices of one shape. */
  lemma PlusCommutes(m1: Matrix, m2: Matrix, rows: nat, cols: nat)
    requires Shape(m1, rows, cols) && Shape(m2, rows, cols)
    ensures Plus(m1, m2) == Plus(m2, m1)
  {
    forall i | 0 <= i < rows
      ensures Plus(m1, m2)[i] == Plus(m2, m1)[i]
    {
    }
  }

  // ---------------------------------------------------------------------------
  // Product
  // ---------------------------------------------------------------------------

  /** What `multiply_matrices` reads: rows of `m1` with at least `|m2|` entries
      and rows of `m2` with at least as many entries as its first row. */
  predicate Multipliable(m1: Matrix, m2: Matrix)
  {
    && |m1| > 0 && |m2| > 0
    && (forall i :: 0 <= i < |m1| ==> |m1[i]| >= |m2|)
    && (forall k :: 0 <= k < |m2| ==> |m2[k]| >= |m2[0]|)
  }

  /** `m1[i][0] * m2[0][j] + ... + m1[i][n-1] * m2[n-1][j]`. */
  function Dot(m1: Matrix, m2: Matrix, i: nat, j: nat, n: nat): int
    requires i < |m1| && n <= |m1[i]| && n <= |m2|
    requires forall k :: 0 <= k < n ==> j < |m2[k]|
  {
    if n == 0 then 0 else Dot(m1, m2, i, j, n - 1) + m1[i][n - 1] * m2[n - 1][j]
  }

  /** The product: `|m1|` rows of `|m2[0]|` entries, entry `(i, j)` the dot
      product of row `i` of `m1` with column `j` of `m2`. */
  function Product(m1: Matrix, m2: Matrix): (p: Matrix)
    requires Multipliable(m1, m2)
    ensures Shape(p, |m1|, |m2[0]|)
  {
    seq(|m1|, i requires 0 <= i < |m1| => seq(|m2[0]|, j requires 0 <= j < |m2[0]| => Dot(m1, m2, i, j, |m2|)))
  }

  datatype MatrixError = ValueError

  /** `multiply_matrices`: a `ValueError` when `m1`'s first row is not as long
      as `m2` is tall; otherwise a matrix of zeros of the product's shape,
      filled by the triple loop, which is the product. */
  method MultiplyMatrices(m1: Matrix, m2: Matrix) returns (r: Result<Matrix, MatrixError>)
    requires |m1| > 0 && |m2| > 0
    requires |m1[0]| == |m2| ==> Multipliable(m1, m2)
    ensures r.Err? <==> |m1[0]| != |m2|
    ensures r.Ok? ==> r.value == Product(m1, m2)
  {
    var rowsA, colsA, rowsB, colsB := |m1|, |m1[0]|, |m2|, |m2[0]|;
    if colsA != rowsB {
      return Err(ValueError);
    }
    var result := seq(rowsA, _ => seq(colsB, _ => 0));
    var i := 0;
    while i < rowsA
      invariant 0 <= i <= rowsA && Shape(result, rowsA, colsB)
      invariant forall a :: 0 <= a < i ==> result[a] == Product(m1, m2)[a]
      invariant forall a :: i <= a < rowsA ==> result[a] == seq(colsB, _ => 0)
    {
      var j := 0;
      while j < colsB
        invariant 0 <= j <= colsB && Shape(result, rowsA, colsB)
        invariant forall a :: 0 <= a < i ==> result[a] == Product(m1, m2)[a]
        invariant forall a :: i < a < rowsA ==> result[a] == seq(colsB, _ => 0)
        invariant forall b :: 0 <= b < j ==> result[i][b] == Dot(m1, m2, i, b, colsA)
        invariant forall b :: j <= b < colsB ==> result[i][b] == 0
      {
        var k := 0;
        while k < colsA
          invariant 0 <= k <= colsA && Shape(result, rowsA, colsB)
          invariant forall a :: 0 <= a < i ==> result[a] == Product(m1, m2)[a]
          invariant forall a :: i < a < rowsA ==> result[a] == seq(colsB, _ => 0)
          invariant forall b :: 0 <= b < j ==> result[i][b] == Dot(m1, m2, i, b, colsA)
          invariant forall b :: j < b < colsB ==> result[i][b] == 0
          invariant result[i][j] == Dot(m1, m2, i, j, k)
        {
          result := result[i := result[i][j := result[i][j] + m1[i][k] * m2[k][j]]];
          k := k + 1;
        }
        j := j + 1;
      }
      assert result[i] == Product(m1, m2)[i];
      i := i + 1;
    }
    return Ok(result);
  }

  /** The two-by-two case of the tests. */
  lemma ProductExample()
    ensures Product([[1, 2], [3, 4]], [[5, 6], [7, 8]]) == [[19, 22], [43, 50]]
  {
    var p := Product([[1, 2], [3, 4]], [[5, 6], [7, 8]]);
    assert p[0] == [19, 22];
    assert p[1] == [43, 50];
  }

  // ---------------------------------------------------------------------------
  // Transpose
  // ---------------------------------------------------------------------------

  /** What `transpose_matrix` reads: a first row, and no row shorter than it. */
  predicate Transposable(m: Matrix)
  {
    |m| > 0 && forall j :: 0 <= j < |m| ==> |m[j]| >= |m[0]|
  }

  /** `transpose_matrix`: one row per entry of the first row; row `i` holds
      entry `i` of every row. */
  function Transpose(m: Matrix): (t: Matrix)
    requires Transposable(m)
    ensures Shape(t, |m[0]|, |m|)
  {
    seq(|m[0]|, i requires 0 <= i < |m[0]| => seq(|m|, j requires 0 <= j < |m| => m[j][i]))
  }

  /** The three-by-two case of the tests. */
  lemma TransposeExample()
    ensures Transpose([[1, 2, 3], [4, 5, 6]]) == [[1, 4], [2, 5], [3, 6]]
  {
    var t := Transpose([[1, 2, 3], [4, 5, 6]]);
    assert t[0] == [1, 4] && t[1] == [2, 5] && t[2] == [3, 6];
  }

  /** Transposing a rectangular matrix with at least one column twice gives it
      back. */
  lemma TransposeTwice(m: Matrix, rows: nat, cols: nat)
    requires Shape(m, rows, cols) && rows > 0 && cols > 0
    ensures Transposable(Transpose(m)) && Transpose(Transpose(m)) == m
  {
    var t := Transpose(m);
    forall j | 0 <= j < rows
      ensures Transpose(t)[j] == m[j]
    {
    }
  }

  /** Row `i` of `a` against column `j` of `b` equals row `j` of `b`'s
      transpose against column `i` of `a`'s transpose. */
  lemma {:induction false} DotTranspose(a: Matrix, b: Matrix, n: nat, m: nat, p: nat, i: nat, j: nat, len: nat)
    requires Shape(a, n, m) && Shape(b, m, p) && n > 0 && m > 0 && p > 0
    requires i < n && j < p && len <= m
    ensures Dot(a, b, i, j, len) == Dot(Transpose(b), Transpose(a), j, i, len)
  {
    if len > 0 {
      DotTranspose(a, b, n, m, p, i, j, len - 1);
      assert Transpose(b)[j][len - 1] == b[len - 1][j];
      assert Transpose(a)[len - 1][i] == a[i][len - 1];
    }
  }

  /** The transpose of a product is the product of the transposes in reverse
      order. */
  lemma TransposeProduct(a: Matrix, b: Matrix, n: nat, m: nat, p: nat)
    requires Shape(a, n, m) && Shape(b, m, p) && n > 0 && m > 0 && p > 0
    ensures Multipliable(a, b) && Multipliable(Transpose(b), Transpose(a))
    ensures Transpose(Product(a, b)) == Product(Transpose(b), Transpose(a))
  {
    var l, r := Transpose(Product(a, b)), Product(Transpose(b), Transpose(a));
    forall j | 0 <= j < p
      ensures l[j] == r[j]
    {
      forall i | 0 <= i < n
        ensures l[j][i] == r[j][i]
      {
        DotTranspose(a, b, n, m, p, i, j, m);
      }
    }
  }
}
