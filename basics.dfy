/** Small value types and the numpy array operations the optimiser relies on:
    reshaping a flat list into rows and summing a list of numbers. */
module Basics {

  datatype Option<+T> = None | Some(value: T)

  datatype Result<+T, +E> = Success(value: T) | Failure(error: E)

  /** Sum of a list of integers (Python's built-in `sum`). */
  function Sum(s: seq<int>): int
  {
    if s == [] then 0 else s[0] + Sum(s[1..])
  }

  /** A list of `rows * cols` values laid out as `rows` rows of `cols` values each,
      row after row (numpy's `reshape((rows, cols))` in C order). */
  function Reshape<T>(flat: seq<T>, rows: nat, cols: nat): (m: seq<seq<T>>)
    requires |flat| == rows * cols
    ensures |m| == rows
    ensures forall k :: 0 <= k < rows ==> |m[k]| == cols
    ensures forall k, u :: 0 <= k < rows && 0 <= u < cols ==> RowMajor(k, u, cols) < |flat| && m[k][u] == flat[RowMajor(k, u, cols)]
  {
    var m := seq(rows, k requires 0 <= k < rows => Row(flat, rows, cols, k));
    assert forall k, u :: 0 <= k < rows && 0 <= u < cols ==> RowMajor(k, u, cols) < |flat| && m[k][u] == flat[RowMajor(k, u, cols)] by {
      forall k, u | 0 <= k < rows && 0 <= u < cols
        ensures RowMajor(k, u, cols) < |flat| && m[k][u] == flat[RowMajor(k, u, cols)]
      {
        var row := Row(flat, rows, cols, k);
        assert m[k] == row;
        assert row[u] == flat[RowMajor(k, u, cols)];
      }
    }
    m
  }

  /** Row `k` of the reshaped list: the `cols` values starting at `k * cols`. */
  function Row<T>(flat: seq<T>, rows: nat, cols: nat, k: nat): (row: seq<T>)
    requires |flat| == rows * cols && k < rows
    ensures |row| == cols
    ensures forall u :: 0 <= u < cols ==> RowMajor(k, u, cols) < |flat| && row[u] == flat[RowMajor(k, u, cols)]
  {
    RowEnd(k, rows, cols);
    flat[k * cols .. k * cols + cols]
  }

  /** Row `k` of a `rows` by `cols` layout ends inside the flat list. */
  lemma RowEnd(k: nat, rows: nat, cols: nat)
    requires k < rows
    ensures k * cols + cols <= rows * cols
  {
    if cols > 0 {
      RowMajorBound(k, cols - 1, rows, cols);
    }
  }

  /** Two matrices of the same shape with the same entries are equal. */
  lemma SameEntries<T>(a: seq<seq<T>>, b: seq<seq<T>>, rows: nat, cols: nat)
    requires |a| == rows && |b| == rows
    requires forall k :: 0 <= k < rows ==> |a[k]| == cols && |b[k]| == cols
    requires forall k, u :: 0 <= k < rows && 0 <= u < cols ==> a[k][u] == b[k][u]
    ensures a == b
  {
    forall k | 0 <= k < rows
      ensures a[k] == b[k]
    {
      assert forall u :: 0 <= u < cols ==> a[k][u] == b[k][u];
    }
  }

  /** `(a + 1) * b` unfolds to `a * b + b`. */
  lemma MulSucc(a: nat, b: nat)
    ensures (a + 1) * b == a * b + b
  {
  }

  /** A row-major position inside a `rows` by `cols` layout lies inside the flat list. */
  lemma {:induction false} RowMajorBound(k: nat, u: nat, rows: nat, cols: nat)
    requires k < rows && u < cols
    ensures RowMajor(k, u, cols) < rows * cols
    decreases rows
  {
    MulSucc(rows - 1, cols);
    if k < rows - 1 {
      RowMajorBound(k, u, rows - 1, cols);
    }
  }

  /** Position of row `k`, column `u` in a row-major layout with `cols` columns. */
  function RowMajor(k: nat, u: nat, cols: nat): nat
  {
    k * cols + u
  }

  /** The rows of a matrix one after the other (numpy's `ravel` in C order). */
  function Flatten<T>(m: seq<seq<T>>): seq<T>
  {
    if m == [] then [] else m[0] + Flatten(m[1..])
  }

  /** Reshaping never loses or reorders a value: flattening the rows gives back the list. */
  lemma {:induction false} FlattenReshape<T>(flat: seq<T>, rows: nat, cols: nat)
    requires |flat| == rows * cols
    ensures Flatten(Reshape(flat, rows, cols)) == flat
    decreases rows
  {
    if rows > 0 {
      MulSucc(rows - 1, cols);
      var m := Reshape(flat, rows, cols);
      assert m[0] == flat[..cols] by {
        assert m[0] == Row(flat, rows, cols, 0);
      }
      ReshapeTail(flat, rows, cols);
      FlattenReshape(flat[cols..], rows - 1, cols);
      assert flat == flat[..cols] + flat[cols..];
    } else {
      assert flat == [];
    }
  }

  /** Dropping the first row of a reshaped list is reshaping what follows that row. */
  lemma ReshapeTail<T>(flat: seq<T>, rows: nat, cols: nat)
    requires |flat| == rows * cols && rows > 0
    ensures (MulSucc(rows - 1, cols); Reshape(flat, rows, cols)[1..] == Reshape(flat[cols..], rows - 1, cols))
  {
    MulSucc(rows - 1, cols);
    var m := Reshape(flat, rows, cols);
    var rest := Reshape(flat[cols..], rows - 1, cols);
    forall k | 0 <= k < rows - 1
      ensures m[1..][k] == rest[k]
    {
      MulSucc(k, cols);
      forall u | 0 <= u < cols
        ensures m[k + 1][u] == rest[k][u]
      {
        assert RowMajor(k + 1, u, cols) == cols + RowMajor(k, u, cols);
      }
    }
  }
}
