/**
 * The sequential driver of task2/matrix_mul (sequential.c): `multiply`
 * and the loop in `main` that applies it to each operation in turn.
 */
module Sequential {
  import opened Matrices

  /** The dimension check of `multiply`: `a` is m by n, `b` is n by k and the product is m by k. */
  predicate Conformable(a: Matrix, b: Matrix, p: Matrix)
    reads a, b, p
  {
    a.cols == b.rows && a.rows == p.rows && b.cols == p.cols
  }

  /**
   * The multiplication loop of `main`: operation `i` multiplies `lhs[i]` by
   * `rhs[i]` into `products[i]`, in index order, and the first operation
   * whose dimensions do not agree ends the run. Each product has a buffer
   * of its own, shared with no operand.
   */
  method MultiplyAll(lhs: seq<Matrix>, rhs: seq<Matrix>, products: seq<Matrix>) returns (ok: bool)
    requires |lhs| == |rhs| == |products|
    requires forall i :: 0 <= i < |products| ==> lhs[i].Valid() && rhs[i].Valid() && products[i].Valid()
    requires forall i, j :: 0 <= i < |products| && 0 <= j < |products| ==>
               products[i].data != lhs[j].data && products[i].data != rhs[j].data &&
               (i != j ==> products[i].data != products[j].data)
    modifies set i | 0 <= i < |products| :: products[i].data
    ensures ok <==> forall i :: 0 <= i < |products| ==> Conformable(lhs[i], rhs[i], products[i])
    ensures forall i :: 0 <= i < |products| && (forall j :: 0 <= j <= i ==> Conformable(lhs[j], rhs[j], products[j])) ==>
              IsProduct(lhs[i].Value(), rhs[i].Value(), products[i].Value())
  {
    var i := 0;
    while i < |products|
      invariant 0 <= i <= |products|
      invariant forall j :: 0 <= j < i ==> Conformable(lhs[j], rhs[j], products[j])
      invariant forall j :: 0 <= j < i ==> IsProduct(lhs[j].Value(), rhs[j].Value(), products[j].Value())
    {
      ok := Multiply(lhs[i], rhs[i], products[i]);
      if !ok {
        return false;
      }
      i := i + 1;
    }
    return true;
  }

  /**
   * `multiply`: checks the dimensions, failing as the error exit does when
   * they do not agree, then overwrites every cell of the product with its
   * row-by-column sum. Only the product's buffer is written.
   */
  method Multiply(a: Matrix, b: Matrix, p: Matrix) returns (ok: bool)
    requires a.Valid() && b.Valid() && p.Valid()
    requires p.data != a.data && p.data != b.data
    modifies p.data
    ensures ok <==> Conformable(a, b, p)
    ensures !ok ==> unchanged(p.data)
    ensures ok ==> IsProduct(a.Value(), b.Value(), p.Value())
    ensures a.data[..] == old(a.data[..]) && b.data[..] == old(b.data[..])
  {
    if a.cols != b.rows || a.rows != p.rows || b.cols != p.cols {
      return false;
    }
    var row := 0;
    while row < p.rows
      invariant 0 <= row <= p.rows
      invariant forall r, c :: 0 <= r < row && 0 <= c < p.cols ==>
                  p.Value().At(r, c) == Dot(a.Value(), b.Value(), r, c, a.cols)
    {
      FillRow(a, b, p, row);
      row := row + 1;
    }
    return true;
  }

  /** The `col` loop of `multiply` for one row: that row's cells are filled, every other cell kept. */
  method FillRow(a: Matrix, b: Matrix, p: Matrix, row: int)
    requires a.Valid() && b.Valid() && p.Valid() && Conformable(a, b, p)
    requires p.data != a.data && p.data != b.data && 0 <= row < p.rows
    modifies p.data
    ensures forall c :: 0 <= c < p.cols ==> p.Value().At(row, c) == Dot(a.Value(), b.Value(), row, c, a.cols)
    ensures forall r, c :: 0 <= r < p.rows && r != row && 0 <= c < p.cols ==>
              p.Value().At(r, c) == old(p.Value()).At(r, c)
  {
    var col := 0;
    while col < p.cols
      invariant 0 <= col <= p.cols
      invariant forall c :: 0 <= c < col ==> p.Value().At(row, c) == Dot(a.Value(), b.Value(), row, c, a.cols)
      invariant forall r, c :: 0 <= r < p.rows && 0 <= c < p.cols && (r != row || c >= col) ==>
                  p.Value().At(r, c) == old(p.Value()).At(r, c)
    {
      ghost var before := p.Value();
      FillCell(a, b, p, row, col);
      forall r, c | 0 <= r < p.rows && 0 <= c < p.cols && (r, c) != (row, col)
        ensures p.Value().At(r, c) == before.At(r, c)
      {
        IdxInjective(r, c, row, col, p.cols);
        IdxInRange(r, c, p.rows, p.cols);
      }
      col := col + 1;
    }
  }

  /** The `k` loop of `multiply` for one cell: it is zeroed, then accumulates the row-by-column terms. */
  method FillCell(a: Matrix, b: Matrix, p: Matrix, row: int, col: int)
    requires a.Valid() && b.Valid() && p.Valid() && Conformable(a, b, p)
    requires p.data != a.data && p.data != b.data
    requires 0 <= row < p.rows && 0 <= col < p.cols
    modifies p.data
    ensures p.Value().At(row, col) == Dot(a.Value(), b.Value(), row, col, a.cols)
    ensures forall j :: 0 <= j < p.data.Length && j != Idx(row, col, p.cols) ==> p.data[j] == old(p.data[j])
  {
    IdxInRange(row, col, p.rows, p.cols);
    var i := Idx(row, col, p.cols);
    p.data[i] := 0;
    var k := 0;
    while k < a.cols
      invariant 0 <= k <= a.cols
      invariant p.data[i] == Dot(a.Value(), b.Value(), row, col, k)
      invariant forall j :: 0 <= j < p.data.Length && j != i ==> p.data[j] == old(p.data[j])
    {
      IdxInRange(row, k, a.rows, a.cols);
      IdxInRange(k, col, b.rows, b.cols);
      p.data[i] := p.data[i] + a.data[Idx(row, k, a.cols)] * b.data[Idx(k, col, b.cols)];
      k := k + 1;
    }
  }
}
