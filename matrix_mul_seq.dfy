/**
 * task2/matrix_mul_seq.c: the single-file sequential program. It carries
 * its own copies of the matrix routines; its `MATRIX_idx` strides by the
 * row count instead of the column count.
 */
module MatrixMulSeq {
  import opened Wrappers
  import opened CommandLine
  import opened Matrices
  import opened Sequential

  /** This file's `MATRIX_idx`: it strides by `rows`, the row count of the matrix passed in. */
  function IdxAsWritten(row: int, col: int, rows: int): int
  {
    row * rows + col
  }

  /**
   * The row-count stride finds every cell of a `rows` by `cols` matrix
   * where row-major indexing does exactly when the matrix is square or
   * has a single row.
   */
  lemma {:induction false} IdxAsWrittenAgrees(rows: int, cols: int)
    requires rows > 0 && cols > 0
    ensures (forall row, col :: 0 <= row < rows && 0 <= col < cols ==> IdxAsWritten(row, col, rows) == Idx(row, col, cols))
            <==> rows == cols || rows == 1
  {
    if rows != cols && rows != 1 {
      assert IdxAsWritten(1, 0, rows) != Idx(1, 0, cols);
    }
  }

  /** In a 2 by 3 matrix the stride sends cells (1, 0) and (0, 2) to the same slot. */
  lemma IdxAsWrittenCollides()
    ensures IdxAsWritten(1, 0, 2) == IdxAsWritten(0, 2, 2)
    ensures Idx(1, 0, 3) != Idx(0, 2, 3)
  {
  }

  /** In a 3 by 1 matrix the stride sends cell (2, 0) to slot 6 of a 3-slot buffer. */
  lemma IdxAsWrittenOverruns()
    ensures IdxAsWritten(2, 0, 3) >= 3 * 1
  {
  }

  /** `struct Options` of this file. */
  datatype Options = Options(matrixOrder: int, operations: int)

  /**
   * `setOptions`: the order from the first argument (0 when absent), the
   * operation count from the second (1 when absent); a non-positive
   * value of either is the error exit.
   */
  function SetOptions(args: seq<Arg>): (r: Option<Options>)
    ensures r.Some? <==> |args| >= 1 && args[0].asInt > 0 && (|args| >= 2 ==> args[1].asInt > 0)
    ensures r.Some? ==> r.value.matrixOrder == args[0].asInt
    ensures r.Some? ==> r.value.operations == (if |args| >= 2 then args[1].asInt else 1)
  {
    var matrixOrder := if |args| >= 1 then args[0].asInt else 0;
    var operations := if |args| >= 2 then args[1].asInt else 1;
    if matrixOrder <= 0 || operations <= 0 then None
    else Some(Options(matrixOrder, operations))
  }

  /** A matrix of this file's shape: `order` by `order`. */
  ghost predicate Square(m: Matrix, order: int)
    reads m
  {
    m.Valid() && m.rows == order && m.cols == order
  }

  /** Every product buffer is shared with no operand and with no other product. */
  predicate Separate(lhs: seq<Matrix>, rhs: seq<Matrix>, products: seq<Matrix>)
    requires |lhs| == |rhs| == |products|
  {
    forall i, j :: 0 <= i < |products| && 0 <= j < |products| ==>
      products[i].data != lhs[j].data && products[i].data != rhs[j].data &&
      (i != j ==> products[i].data != products[j].data)
  }

  /**
   * `create_matrices`: `operations` triples of fresh `order` by `order`
   * matrices. Every buffer is allocated here, so none is shared.
   */
  method CreateMatrices(order: int, operations: int) returns (lhs: seq<Matrix>, rhs: seq<Matrix>, products: seq<Matrix>)
    requires order > 0
    ensures |lhs| == |rhs| == |products| == (if operations > 0 then operations else 0)
    ensures forall i :: 0 <= i < |products| ==> Square(lhs[i], order) && Square(rhs[i], order) && Square(products[i], order)
    ensures Separate(lhs, rhs, products)
    ensures forall i :: 0 <= i < |products| ==> fresh(lhs[i].data) && fresh(rhs[i].data) && fresh(products[i].data)
  {
    lhs, rhs, products := [], [], [];
    var i := 0;
    while i < operations
      invariant 0 <= i <= (if operations > 0 then operations else 0)
      invariant |lhs| == |rhs| == |products| == i
      invariant forall j :: 0 <= j < |products| ==> Square(lhs[j], order) && Square(rhs[j], order) && Square(products[j], order)
      invariant Separate(lhs, rhs, products)
      invariant forall j :: 0 <= j < |products| ==> fresh(lhs[j].data) && fresh(rhs[j].data) && fresh(products[j].data)
    {
      var a := new Matrix(order, order);
      var b := new Matrix(order, order);
      var p := new Matrix(order, order);
      lhs, rhs, products := lhs + [a], rhs + [b], products + [p];
      i := i + 1;
    }
  }

  /**
   * `main` after the options are read: the matrices are created and each
   * triple is multiplied in index order. Every matrix is `order` by
   * `order`, so every dimension check passes and every product is right
   * despite the row-count stride.
   */
  method Execute(opts: Options) returns (lhs: seq<Matrix>, rhs: seq<Matrix>, products: seq<Matrix>)
    requires opts.matrixOrder > 0 && opts.operations > 0
    ensures |lhs| == |rhs| == |products| == opts.operations
    ensures forall i :: 0 <= i < |products| ==> IsProduct(lhs[i].Value(), rhs[i].Value(), products[i].Value())
  {
    lhs, rhs, products := CreateMatrices(opts.matrixOrder, opts.operations);
    var i := 0;
    while i < |products|
      invariant 0 <= i <= |products|
      invariant forall j :: 0 <= j < |products| ==> Square(lhs[j], opts.matrixOrder) && Square(rhs[j], opts.matrixOrder) && Square(products[j], opts.matrixOrder)
      invariant forall j :: 0 <= j < i ==> IsProduct(lhs[j].Value(), rhs[j].Value(), products[j].Value())
      modifies set j | 0 <= j < |products| :: products[j].data
    {
      var ok := Multiply(lhs[i], rhs[i], products[i]);
      i := i + 1;
    }
  }

  /**
   * This file's `multiply`, indexing with the row-count stride. On square
   * matrices, the only shape this program makes, it fails exactly on a
   * dimension mismatch and otherwise overwrites every product cell with
   * its row-by-column sum, leaving the operands alone.
   */
  method Multiply(a: Matrix, b: Matrix, p: Matrix) returns (ok: bool)
    requires a.Valid() && b.Valid() && p.Valid()
    requires a.rows == a.cols && b.rows == b.cols && p.rows == p.cols
    requires p.data != a.data && p.data != b.data
    modifies p.data
    ensures ok <==> Conformable(a, b, p)
    ensures !ok ==> unchanged(p.data)
    ensures ok ==> IsProduct(a.Value(), b.Value(), p.Value())
    ensures a.data[..] == old(a.data[..]) && b.data[..] == old(b.data[..])
  {
    if a.cols != b.rows || a.rows != p.rows || b.cols != p.cols {
      return false;
    }
    var row := 0;
    while row < p.rows
      invariant 0 <= row <= p.rows
      invariant forall r, c :: 0 <= r < row && 0 <= c < p.cols ==>
                  p.Value().At(r, c) == Dot(a.Value(), b.Value(), r, c, a.cols)
    {
      var col := 0;
      while col < p.cols
        invariant 0 <= col <= p.cols
        invariant forall r, c :: 0 <= r < p.rows && 0 <= c < p.cols && (r < row || (r == row && c < col)) ==>
                    p.Value().At(r, c) == Dot(a.Value(), b.Value(), r, c, a.cols)
      {
        ghost var before := p.Value();
        FillCell(a, b, p, row, col);
        forall r, c | 0 <= r < p.rows && 0 <= c < p.cols && (r, c) != (row, col)
          ensures p.Value().At(r, c) == before.At(r, c)
        {
          IdxInjective(r, c, row, col, p.cols);
          IdxInRange(r, c, p.rows, p.cols);
        }
        col := col + 1;
      }
      row := row + 1;
    }
    return true;
  }

  /** The `k` loop of this file's `multiply` for one cell, through the row-count stride. */
  method FillCell(a: Matrix, b: Matrix, p: Matrix, row: int, col: int)
    requires a.Valid() && b.Valid() && p.Valid() && Conformable(a, b, p)
    requires a.rows == a.cols && b.rows == b.cols && p.rows == p.cols
    requires p.data != a.data && p.data != b.data
    requires 0 <= row < p.rows && 0 <= col < p.cols
    modifies p.data
    ensures p.Value().At(row, col) == Dot(a.Value(), b.Value(), row, col, a.cols)
    ensures forall j :: 0 <= j < p.data.Length && j != Idx(row, col, p.cols) ==> p.data[j] == old(p.data[j])
  {
    IdxInRange(row, col, p.rows, p.cols);
    var i := IdxAsWritten(row, col, p.rows);
    p.data[i] := 0;
    var k := 0;
    while k < a.cols
      invariant 0 <= k <= a.cols
      invariant p.data[i] == Dot(a.Value(), b.Value(), row, col, k)
      invariant forall j :: 0 <= j < p.data.Length && j != i ==> p.data[j] == old(p.data[j])
    {
      IdxInRange(row, k, a.rows, a.cols);
      IdxInRange(k, col, b.rows, b.cols);
      p.data[i] := p.data[i] + a.data[IdxAsWritten(row, k, a.rows)] * b.data[IdxAsWritten(k, col, b.rows)];
      k := k + 1;
    }
  }
}
