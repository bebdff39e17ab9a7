/**
 * The matrices of task2/matrix_mul (matrix.h, matrix.c): a row count, a
 * column count and a row-major buffer of `rows * cols` integers.
 */
module Matrices {
  import opened Wrappers
  import opened Text

  /** The contents of a matrix as a value: its dimensions and its cells in row-major order. */
  datatype Mat = Mat(rows: int, cols: int, data: seq<int>)
  {
    /** The dimensions are positive and the buffer holds one cell for each pair. */
    predicate WellFormed()
    {
      rows > 0 && cols > 0 && |data| == rows * cols
    }

    /** The cell at `row`, `col`. */
    function At(row: int, col: int): int
      requires WellFormed() && 0 <= row < rows && 0 <= col < cols
    {
      IdxInRange(row, col, rows, cols);
      data[Idx(row, col, cols)]
    }

    /** The cells of row `row`, by ascending column. */
    function Row(row: int): (xs: seq<int>)
      requires WellFormed() && 0 <= row < rows
      ensures |xs| == cols && forall col :: 0 <= col < cols ==> xs[col] == At(row, col)
    {
      IdxInRange(row, cols - 1, rows, cols);
      data[row * cols..row * cols + cols]
    }

    /** The matrix as a list of rows, each a list of cells. */
    function Rows(): (xss: seq<seq<int>>)
      requires WellFormed()
      ensures |xss| == rows && forall row :: 0 <= row < rows ==> xss[row] == Row(row)
    {
      seq(rows, row requires 0 <= row < rows => Row(row))
    }
  }

  /** The first line `MATRIX_print` writes: `Matrix<rows, cols>`. */
  function Header(rows: int, cols: int): string
  {
    "Matrix<" + FormatInt(rows) + ", " + FormatInt(cols) + ">"
  }

  /**
   * `MATRIX_print`, as the lines it writes: the header, then one line per
   * row listing that row's cells by ascending column, each in `%ld` form
   * followed by one blank.
   */
  function Print(m: Mat): (lines: seq<string>)
    requires m.WellFormed()
    ensures |lines| == m.rows + 1 && lines[0] == Header(m.rows, m.cols)
    ensures forall row :: 0 <= row < m.rows ==> lines[row + 1] == RowText(m.Row(row))
  {
    [Header(m.rows, m.cols)] + seq(m.rows, row requires 0 <= row < m.rows => RowText(m.Row(row)))
  }

  /** `MATRIX_idx`: where cell (`row`, `col`) sits in a row-major buffer with `cols` columns. */
  function Idx(row: int, col: int, cols: int): int
  {
    row * cols + col
  }

  /** Every cell of a `rows` by `cols` matrix has an index inside its buffer. */
  lemma IdxInRange(row: int, col: int, rows: int, cols: int)
    requires 0 <= row < rows && 0 <= col < cols
    ensures 0 <= Idx(row, col, cols) < rows * cols
  {
    assert row * cols <= (rows - 1) * cols;
  }

  /** Distinct cells have distinct indices, and the index determines the cell. */
  lemma IdxInjective(row: int, col: int, row': int, col': int, cols: int)
    requires 0 <= col < cols && 0 <= col' < cols && 0 <= row && 0 <= row'
    ensures Idx(row, col, cols) == Idx(row', col', cols) <==> row == row' && col == col'
  {
    if row < row' {
      RowsApart(row, row', cols);
    } else if row' < row {
      RowsApart(row', row, cols);
    }
  }

  /** A later row starts at least a full row further on. */
  lemma RowsApart(row: int, row': int, cols: int)
    requires 0 <= row < row' && 0 < cols
    ensures row * cols + cols <= row' * cols
  {
    var d := row' - row - 1;
    assert row' * cols == row * cols + cols + d * cols;
    assert d * cols >= 0;
  }

  /** The first `n` terms of the row-`row`-by-column-`col` sum of `a * b`. */
  function Dot(a: Mat, b: Mat, row: int, col: int, n: int): int
    requires a.WellFormed() && b.WellFormed() && a.cols == b.rows
    requires 0 <= row < a.rows && 0 <= col < b.cols && 0 <= n <= a.cols
  {
    if n == 0 then 0 else Dot(a, b, row, col, n - 1) + a.At(row, n - 1) * b.At(n - 1, col)
  }

  /** `p` is the product of `a` and `b`: the dimensions agree and every cell is its row-by-column sum. */
  predicate IsProduct(a: Mat, b: Mat, p: Mat)
  {
    && a.WellFormed() && b.WellFormed() && p.WellFormed()
    && a.cols == b.rows && p.rows == a.rows && p.cols == b.cols
    && forall row, col :: 0 <= row < p.rows && 0 <= col < p.cols ==>
         p.At(row, col) == Dot(a, b, row, col, a.cols)
  }

  /**
   * `struct Matrix`. The dimensions and the buffer are set once by
   * `MATRIX_create`; only the cells change afterwards.
   */
  class Matrix {
    const rows: int
    const cols: int
    const data: array<int>

    /** The dimensions are positive and the buffer has `rows * cols` cells. */
    ghost predicate Valid()
      reads this
    {
      rows > 0 && cols > 0 && data.Length == rows * cols
    }

    /** The matrix as a value. */
    ghost function Value(): (m: Mat)
      reads this, data
      ensures m.rows == rows && m.cols == cols && m.data == data[..]
      ensures Valid() ==> m.WellFormed()
    {
      Mat(rows, cols, data[..])
    }

    /** The allocation and field stores of `MATRIX_create` once its check has passed. */
    constructor (rows: int, cols: int)
      requires rows > 0 && cols > 0
      ensures Valid() && this.rows == rows && this.cols == cols && fresh(data)
    {
      this.rows := rows;
      this.cols := cols;
      data := new int[rows * cols];
    }
  }

  /**
   * `MATRIX_create`: a fresh matrix of the given dimensions, or the error
   * exit when either is not positive. The cells are left as allocated.
   */
  method Create(rows: int, cols: int) returns (r: Option<Matrix>)
    ensures r.None? <==> rows <= 0 || cols <= 0
    ensures r.Some? ==> r.value.Valid() && fresh(r.value) && fresh(r.value.data)
    ensures r.Some? ==> r.value.rows == rows && r.value.cols == cols
  {
    if rows <= 0 || cols <= 0 {
      return None;
    }
    var m := new Matrix(rows, cols);
    return Some(m);
  }
}
