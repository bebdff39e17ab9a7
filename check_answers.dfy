/**
 * task2/matrix_mul/check_answers.py: reads the log the drivers write
 * (each operation's index line, then its two operands and its product as
 * `MATRIX_print` writes them) and checks every product.
 */
module CheckAnswers {
  import opened Wrappers
  import opened Text
  import opened Matrices

  /**
   * The uncaught exceptions that end the script without a return code.
   * `BackwardCursor` stands for a negative row count in a header, after
   * which Python would move the cursor backwards.
   */
  datatype Failure = IndexError | ValueError | BackwardCursor

  /**
   * The header parse of `read_matrix`: the text between the first `<` and
   * the following `>`, split at commas into exactly two integers.
   */
  function ParseHeader(line: string): (r: Result<(int, int), Failure>)
    ensures r == Err(IndexError) <==> '<' !in line
  {
    var pieces := Split(line, '<');
    if |pieces| < 2 then Err(IndexError)
    else ParseDimensions(Split(Split(pieces[1], '>')[0], ','))
  }

  /** `rows, cols = (int(j) for j in fields)`: exactly two fields, both integers. */
  function ParseDimensions(fields: seq<string>): (r: Result<(int, int), Failure>)
    ensures r.Err? ==> r.error == ValueError
  {
    if |fields| == 2 && ParseInt(fields[0]).Some? && ParseInt(fields[1]).Some? then
      Ok((ParseInt(fields[0]).value, ParseInt(fields[1]).value))
    else
      Err(ValueError)
  }

  /** `%ld` never writes any of the punctuation a header uses. */
  lemma FormatIntPlain(n: int)
    ensures '<' !in FormatInt(n) && '>' !in FormatInt(n) && ',' !in FormatInt(n)
  {
    var s := FormatInt(n);
    forall i | 0 <= i < |s|
      ensures s[i] != '<' && s[i] != '>' && s[i] != ','
    {
    }
  }

  /** The header parse reads back the dimensions `MATRIX_print` wrote. */
  lemma ParseHeaderPrinted(rows: int, cols: int)
    ensures ParseHeader(Header(rows, cols)) == Ok((rows, cols))
  {
    var x, y := FormatInt(rows), FormatInt(cols);
    var inner := x + [','] + (" " + y);
    var body := inner + ['>'] + "";
    HeaderPieces(rows, cols);
    var pieces := Split(Header(rows, cols), '<');
    assert pieces == ["Matrix", body];
    assert Split(pieces[1], '>')[0] == inner;
    var fields := Split(Split(pieces[1], '>')[0], ',');
    assert fields == [x, " " + y];
    ParseFormatInt(rows);
    ParseFormatInt(cols);
    assert ParseDimensions(fields) == Ok((rows, cols));
  }

  /** How the header splits: at `<` into the name and the rest, at `>` before the end, at `,` between the numbers. */
  lemma HeaderPieces(rows: int, cols: int)
    ensures var x, y := FormatInt(rows), FormatInt(cols);
            var inner := x + [','] + (" " + y);
            var body := inner + ['>'] + "";
            && Split(Header(rows, cols), '<') == ["Matrix", body]
            && Split(body, '>')[0] == inner
            && Split(inner, ',') == [x, " " + y]
  {
    var x, y := FormatInt(rows), FormatInt(cols);
    FormatIntPlain(rows);
    FormatIntPlain(cols);
    var inner := x + [','] + (" " + y);
    var body := inner + ['>'] + "";
    assert Header(rows, cols) == "Matrix" + ['<'] + body;
    assert '<' !in body;
    SplitOpen(body);
    SplitClose(x, y);
    SplitComma(x, y);
  }

  /** Splitting a header at `<`: the name, then everything after it. */
  lemma SplitOpen(body: string)
    requires '<' !in body
    ensures Split("Matrix" + ['<'] + body, '<') == ["Matrix", body]
  {
    assert '<' !in "Matrix";
    SplitFirst("Matrix", '<', body);
    SplitNone(body, '<');
  }

  /** Splitting the rest of a header at `>`: the dimensions come first. */
  lemma SplitClose(x: string, y: string)
    requires '>' !in x && '>' !in y
    ensures Split(x + [','] + (" " + y) + ['>'] + "", '>')[0] == x + [','] + (" " + y)
  {
    var inner := x + [','] + (" " + y);
    assert '>' !in inner;
    SplitFirst(inner, '>', "");
  }

  /** Splitting the dimensions at `,`: the two numbers, the second after a blank. */
  lemma SplitComma(x: string, y: string)
    requires ',' !in x && ',' !in y
    ensures Split(x + [','] + (" " + y), ',') == [x, " " + y]
  {
    assert ',' !in " " + y;
    SplitFirst(x, ',', " " + y);
    SplitNone(" " + y, ',');
  }

  /** The row parse of `read_matrix`: each line split into words, each word an integer. */
  function ParseBlock(lines: seq<string>): (r: Option<seq<seq<int>>>)
    ensures r.Some? ==> |r.value| == |lines|
  {
    if |lines| == 0 then Some([])
    else match (ParseInts(Words(lines[0])), ParseBlock(lines[1..]))
      case (Some(xs), Some(xss)) => Some([xs] + xss)
      case _ => None
  }

  /** Printed rows parse back to the rows they were printed from. */
  lemma {:induction false} ParseBlockRows(lines: seq<string>, xss: seq<seq<int>>)
    requires |lines| == |xss| && forall k :: 0 <= k < |lines| ==> lines[k] == RowText(xss[k])
    ensures ParseBlock(lines) == Some(xss)
  {
    if |lines| > 0 {
      ParseRowText(xss[0]);
      ParseBlockRows(lines[1..], xss[1..]);
      assert [xss[0]] + xss[1..] == xss;
    }
  }

  /**
   * `read_matrix` with the cursor at `i`: the matrix it returns and where
   * it leaves the cursor, or the exception it raises. The rows are the
   * (at most `rows`) lines after the header, and the cursor always moves
   * past the header and `rows` further lines.
   */
  function ReadAt(text: seq<string>, i: int): (r: Result<(seq<seq<int>>, int), Failure>)
    requires 0 <= i
    ensures i >= |text| ==> r == Err(IndexError)
    ensures r.Ok? ==> i < |text| && ParseHeader(text[i]).Ok?
    ensures r.Ok? ==> var rows := ParseHeader(text[i]).value.0;
              r.value.1 == i + 1 + rows && |r.value.0| <= rows && r.value.1 > i
  {
    if i >= |text| then Err(IndexError)
    else
      var header := ParseHeader(text[i]);
      if header.Err? then Err(header.error)
      else ReadRows(text, i + 1, header.value.0)
  }

  /** The `rows` lines from `from` on, as far as the text goes, parsed; the cursor moves `rows` lines on. */
  function ReadRows(text: seq<string>, from: int, rows: int): (r: Result<(seq<seq<int>>, int), Failure>)
    requires 0 <= from <= |text|
    ensures r.Ok? ==> r.value.1 == from + rows && 0 <= |r.value.0| <= rows
  {
    if rows < 0 then Err(BackwardCursor)
    else
      var end := if from + rows <= |text| then from + rows else |text|;
      var block := ParseBlock(text[from..end]);
      if block.None? then Err(ValueError) else Ok((block.value, from + rows))
  }

  /** Reading where `MATRIX_print`'s lines start gives back the matrix's rows and moves the cursor to `next`, just past them. */
  lemma ReadAtPrinted(text: seq<string>, i: int, m: Mat, rest: seq<string>, next: int)
    requires m.WellFormed() && 0 <= i <= |text| && text[i..] == Print(m) + rest && next == i + 1 + m.rows
    ensures ReadAt(text, i) == Ok((m.Rows(), next))
    ensures text[next..] == rest
  {
    PrintedAnnounces(m);
    ReadAtLines(text, i, Print(m), rest, m.rows, m.cols, m.Rows(), next);
  }

  /** A header line announcing `rows` rows of `cols`, followed by rows that parse to `xss`. */
  predicate Announces(lines: seq<string>, rows: int, cols: int, xss: seq<seq<int>>)
  {
    0 <= rows && |lines| == rows + 1
    && ParseHeader(lines[0]) == Ok((rows, cols)) && ParseBlock(lines[1..]) == Some(xss)
  }

  /** `MATRIX_print`'s lines announce the matrix's dimensions and parse back to its rows. */
  lemma PrintedAnnounces(m: Mat)
    requires m.WellFormed()
    ensures Announces(Print(m), m.rows, m.cols, m.Rows())
  {
    ParseHeaderPrinted(m.rows, m.cols);
    PrintedBlock(m);
  }

  /** Reading a header line followed by the `rows` lines it announces: the cursor lands on `next`. */
  lemma ReadAtLines(text: seq<string>, i: int, lines: seq<string>, rest: seq<string>, rows: int, cols: int, xss: seq<seq<int>>, next: int)
    requires 0 <= i <= |text| && text[i..] == lines + rest && |lines| == rows + 1 && 0 <= rows
    requires ParseHeader(lines[0]) == Ok((rows, cols)) && ParseBlock(lines[1..]) == Some(xss)
    requires next == i + 1 + rows
    ensures ReadAt(text, i) == Ok((xss, next))
    ensures text[next..] == rest
  {
    SuffixSlices(text, i, lines, rows, rest);
    ReadRowsWhole(text, i + 1, rows, lines[1..], xss, next);
    ReadAtHeader(text, i, lines[0], rows, cols, xss, next);
  }

  /** A header that parses, followed by rows that read, is a matrix read. */
  lemma ReadAtHeader(text: seq<string>, i: int, line: string, rows: int, cols: int, xss: seq<seq<int>>, next: int)
    requires 0 <= i < |text| && text[i] == line && ParseHeader(line) == Ok((rows, cols))
    requires ReadRows(text, i + 1, rows) == Ok((xss, next))
    ensures ReadAt(text, i) == Ok((xss, next))
  {
  }

  /** When all `rows` lines are there and parse, they are the matrix read. */
  lemma ReadRowsWhole(text: seq<string>, from: int, rows: int, block: seq<string>, xss: seq<seq<int>>, next: int)
    requires 0 <= from && 0 <= rows && from + rows <= |text| && text[from..from + rows] == block
    requires ParseBlock(block) == Some(xss) && next == from + rows
    ensures ReadRows(text, from, rows) == Ok((xss, next))
  {
  }

  /** The row lines `MATRIX_print` writes parse back to the matrix's rows. */
  lemma PrintedBlock(m: Mat)
    requires m.WellFormed()
    ensures ParseBlock(Print(m)[1..]) == Some(m.Rows())
  {
    var lines := Print(m)[1..];
    assert forall k :: 0 <= k < |lines| ==> lines[k] == Print(m)[k + 1];
    ParseBlockRows(lines, m.Rows());
  }

  /** The width numpy gives a list of rows: the length of the first. */
  function Width(x: seq<seq<int>>): int
  {
    if |x| == 0 then 0 else |x[0]|
  }

  /** Every row has the same length. */
  predicate Rectangular(x: seq<seq<int>>)
  {
    forall r :: 0 <= r < |x| ==> |x[r]| == Width(x)
  }

  /** The first `n` terms of the row-`row`-by-column-`col` sum of two lists of rows. */
  function ListDot(a: seq<seq<int>>, b: seq<seq<int>>, row: int, col: int, n: int): int
    requires Rectangular(a) && Rectangular(b) && Width(a) == |b|
    requires 0 <= row < |a| && 0 <= col < Width(b) && 0 <= n <= Width(a)
  {
    if n == 0 then 0 else ListDot(a, b, row, col, n - 1) + a[row][n - 1] * b[n - 1][col]
  }

  /**
   * The shape numpy gives `matrix(x)` for a list of rows: an empty list
   * becomes one row of no columns.
   */
  function Shape(x: seq<seq<int>>): (r: (int, int))
    ensures r.0 >= 1 && r.1 == Width(x)
    ensures |x| > 0 ==> r.0 == |x|
  {
    if |x| == 0 then (1, 0) else (|x|, Width(x))
  }

  /**
   * `(matrix(a) * matrix(b) == p).all()` with the integer row-by-column
   * sum in place of numpy's product: ragged operands or operands whose
   * inner dimensions differ raise `ValueError`; otherwise the answer is
   * whether `p` has the product's shape and every cell of it.
   */
  function Compare(a: seq<seq<int>>, b: seq<seq<int>>, p: seq<seq<int>>): (r: Result<bool, Failure>)
    ensures r.Err? <==> !Rectangular(a) || !Rectangular(b) || Shape(a).1 != Shape(b).0
    ensures r.Ok? ==> |a| > 0
  {
    if !Rectangular(a) || !Rectangular(b) || Shape(a).1 != Shape(b).0 then Err(ValueError)
    else Ok(
      && Rectangular(p) && Shape(p) == (Shape(a).0, Shape(b).1)
      && forall row, col :: 0 <= row < |a| && 0 <= col < Width(b) ==>
           p[row][col] == ListDot(a, b, row, col, Width(a)))
  }

  /** An empty operand is a 1-by-0 matrix: it cannot stand on the left, and on the right it makes an empty product. */
  lemma EmptyOperands()
    ensures Compare([], [], []) == Err(ValueError)
    ensures Compare([[1]], [], []) == Ok(true)
  {
  }

  /** On the rows of matrices, the list sum is the matrix sum. */
  lemma {:induction false} ListDotRows(a: Mat, b: Mat, row: int, col: int, n: int)
    requires a.WellFormed() && b.WellFormed() && a.cols == b.rows
    requires 0 <= row < a.rows && 0 <= col < b.cols && 0 <= n <= a.cols
    ensures Rectangular(a.Rows()) && Rectangular(b.Rows()) && Width(a.Rows()) == |b.Rows()| && Width(b.Rows()) == b.cols
    ensures ListDot(a.Rows(), b.Rows(), row, col, n) == Dot(a, b, row, col, n)
  {
    if n > 0 {
      ListDotRows(a, b, row, col, n - 1);
    }
  }

  /** The comparison accepts the rows of `a`, `b` and `p` exactly when `p` is the product of `a` and `b`. */
  lemma CompareRows(a: Mat, b: Mat, p: Mat)
    requires a.WellFormed() && b.WellFormed() && p.WellFormed() && a.cols == b.rows
    ensures Compare(a.Rows(), b.Rows(), p.Rows()) == Ok(IsProduct(a, b, p))
  {
    ListDotRows(a, b, 0, 0, 0);
    var same := Compare(a.Rows(), b.Rows(), p.Rows()).value;
    if IsProduct(a, b, p) {
      forall row, col | 0 <= row < a.rows && 0 <= col < b.cols
        ensures p.Rows()[row][col] == ListDot(a.Rows(), b.Rows(), row, col, Width(a.Rows()))
      {
        ListDotRows(a, b, row, col, a.cols);
      }
    } else if same {
      assert p.rows == a.rows && p.cols == b.cols;
      forall row, col | 0 <= row < p.rows && 0 <= col < p.cols
        ensures p.At(row, col) == Dot(a, b, row, col, a.cols)
      {
        ListDotRows(a, b, row, col, a.cols);
        assert p.Rows()[row][col] == ListDot(a.Rows(), b.Rows(), row, col, Width(a.Rows()));
      }
    }
  }

  /** One multiplication the drivers log. */
  datatype Operation = Operation(a: Mat, b: Mat, p: Mat)

  /** Operations as the drivers make them: well-formed matrices with matching inner dimensions. */
  predicate Logged(ops: seq<Operation>)
  {
    forall k :: 0 <= k < |ops| ==> ops[k].a.WellFormed() && ops[k].b.WellFormed() && ops[k].p.WellFormed() && ops[k].a.cols == ops[k].b.rows
  }

  /** The lines the drivers write for operation `k`: `Operation k:`, then the two operands and the product. */
  function OperationLines(k: int, op: Operation): seq<string>
    requires op.a.WellFormed() && op.b.WellFormed() && op.p.WellFormed()
  {
    ["Operation " + FormatInt(k) + ":"] + Print(op.a) + Print(op.b) + Print(op.p)
  }

  /** The log from operation `k` on. */
  function LogFrom(ops: seq<Operation>, k: nat): seq<string>
    requires Logged(ops)
    decreases |ops| - k
  {
    if k >= |ops| then [] else OperationLines(k, ops[k]) + LogFrom(ops, k + 1)
  }

  /** Every product in the log is right. */
  ghost predicate AllProducts(ops: seq<Operation>)
  {
    RightUpTo(ops, |ops|)
  }

  /** The products of the first `k` operations are right. */
  ghost predicate RightUpTo(ops: seq<Operation>, k: int)
    requires k <= |ops|
  {
    forall j :: 0 <= j < k ==> IsProduct(ops[j].a, ops[j].b, ops[j].p)
  }

  /** One more right product extends the prefix; a wrong one spoils the whole log. */
  lemma RightUpToNext(ops: seq<Operation>, k: int)
    requires 0 <= k < |ops| && RightUpTo(ops, k)
    ensures RightUpTo(ops, k + 1) <==> IsProduct(ops[k].a, ops[k].b, ops[k].p)
    ensures !IsProduct(ops[k].a, ops[k].b, ops[k].p) ==> !AllProducts(ops)
  {
  }

  /** The script's state: the log's lines with the empty sentinel line appended, and the `nonlocal` cursor. */
  class Log {
    const text: seq<string>
    var i: int

    /** Reading the file: `splitlines`, the sentinel, the cursor at 0. */
    constructor (lines: seq<string>)
      ensures text == lines + [""] && i == 0
    {
      text := lines + [""];
      i := 0;
    }

    /** `read_matrix`: parses the matrix at the cursor and moves the cursor past it. */
    method ReadMatrix() returns (r: Result<seq<seq<int>>, Failure>)
      requires 0 <= i
      modifies this`i
      ensures r.Ok? ==> ReadAt(text, old(i)) == Ok((r.value, i)) && i > old(i)
      ensures r.Err? ==> ReadAt(text, old(i)) == Err(r.error)
    {
      if i >= |text| {
        return Err(IndexError);
      }
      var line := text[i];
      i := i + 1;
      var header := ParseHeader(line);
      if header.Err? {
        return Err(header.error);
      }
      var rows := header.value.0;
      if rows < 0 {
        return Err(BackwardCursor);
      }
      var end := if i + rows <= |text| then i + rows else |text|;
      var block := ParseBlock(text[i..end]);
      if block.None? {
        ReadAtBlock(text, old(i), header.value, end, block, i + rows);
        return Err(ValueError);
      }
      i := i + rows;
      ReadAtBlock(text, old(i), header.value, end, block, i);
      return Ok(block.value);
    }

    /**
     * One pass of `main`'s loop past the `Operation` line: read the operands
     * and the product, compare. In a log the drivers wrote, this is operation
     * `k`'s check, and the cursor ends on the next group.
     */
    method CheckOperation(ghost ops: seq<Operation>, ghost k: nat, ghost expected: bool) returns (r: Result<bool, Failure>)
      requires 0 <= i
      requires expected ==> Logged(ops) && k < |ops| && 1 <= i <= |text| && text[i - 1..] == LogFrom(ops, k) + [""]
      modifies this`i
      ensures r.Ok? ==> i > old(i)
      ensures expected ==> r == Ok(IsProduct(ops[k].a, ops[k].b, ops[k].p))
      ensures expected ==> i <= |text| && text[i..] == LogFrom(ops, k + 1) + [""]
    {
      ghost var i2, i3, i4 := 0, 0, 0;
      if expected {
        i2 := i + 1 + ops[k].a.rows;
        i3 := i2 + 1 + ops[k].b.rows;
        i4 := i3 + 1 + ops[k].p.rows;
        LogStep(text, ops, k, i - 1, i, i2, i3, i4);
        CompareRows(ops[k].a, ops[k].b, ops[k].p);
      }
      var a := ReadMatrix();
      if a.Err? {
        return Err(a.error);
      }
      var b := ReadMatrix();
      if b.Err? {
        return Err(b.error);
      }
      var p := ReadMatrix();
      if p.Err? {
        return Err(p.error);
      }
      r := Compare(a.value, b.value, p.value);
    }
  }

  /** `read_matrix` past a header announcing `rows >= 0` rows: the rows as far as the text goes, parsed. */
  lemma ReadAtBlock(text: seq<string>, i: int, header: (int, int), end: int, block: Option<seq<seq<int>>>, next: int)
    requires 0 <= i < |text| && ParseHeader(text[i]) == Ok(header) && 0 <= header.0 && next == i + 1 + header.0
    requires end == if next <= |text| then next else |text|
    requires block == ParseBlock(text[i + 1..end])
    ensures ReadAt(text, i) == if block.None? then Err(ValueError) else Ok((block.value, next))
  {
    ReadAtRows(text, i, header);
    ReadRowsBlock(text, i + 1, header.0, end, block, next);
  }

  /** Past a header that parses, `read_matrix` reads the rows it announces. */
  lemma ReadAtRows(text: seq<string>, i: int, header: (int, int))
    requires 0 <= i < |text| && ParseHeader(text[i]) == Ok(header)
    ensures ReadAt(text, i) == ReadRows(text, i + 1, header.0)
  {
  }

  /** The rows as far as the text goes, parsed, with the cursor `rows` lines on. */
  lemma ReadRowsBlock(text: seq<string>, from: int, rows: int, end: int, block: Option<seq<seq<int>>>, next: int)
    requires 0 <= from <= |text| && 0 <= rows && next == from + rows
    requires end == if next <= |text| then next else |text|
    requires block == ParseBlock(text[from..end])
    ensures ReadRows(text, from, rows) == if block.None? then Err(ValueError) else Ok((block.value, next))
  {
  }

  /**
   * Operation `k`'s group at `i`: its first line starts with `Operation`,
   * its three matrices read back at `i1`, `i2` and `i3`, and the next
   * group (or only the sentinel, after the last) follows at `i4`.
   */
  lemma LogStep(text: seq<string>, ops: seq<Operation>, k: nat, i: int, i1: int, i2: int, i3: int, i4: int)
    requires Logged(ops) && k < |ops| && 0 <= i <= |text| && text[i..] == LogFrom(ops, k) + [""]
    requires i1 == i + 1 && i2 == i1 + 1 + ops[k].a.rows && i3 == i2 + 1 + ops[k].b.rows && i4 == i3 + 1 + ops[k].p.rows
    ensures i < |text| && StartsWith(text[i], "Operation")
    ensures ReadAt(text, i1) == Ok((ops[k].a.Rows(), i2))
    ensures ReadAt(text, i2) == Ok((ops[k].b.Rows(), i3))
    ensures ReadAt(text, i3) == Ok((ops[k].p.Rows(), i4))
    ensures text[i4..] == LogFrom(ops, k + 1) + [""]
  {
    var op := ops[k];
    var tail := LogFrom(ops, k + 1) + [""];
    LogFromNext(ops, k);
    OperationHead(text, i, k, op, tail);
    ReadOperation(text, op, tail, i1, i2, i3, i4);
  }

  /** The log from operation `k` on, with the sentinel: operation `k`'s lines, then the rest. */
  lemma LogFromNext(ops: seq<Operation>, k: nat)
    requires Logged(ops) && k < |ops|
    ensures LogFrom(ops, k) + [""] == OperationLines(k, ops[k]) + (LogFrom(ops, k + 1) + [""])
  {
  }

  /** Operation `k`'s group opens with a line that starts with `Operation`. */
  lemma LogOpens(text: seq<string>, ops: seq<Operation>, k: nat, i: int)
    requires Logged(ops) && k < |ops| && 0 <= i <= |text| && text[i..] == LogFrom(ops, k) + [""]
    ensures i < |text| && StartsWith(text[i], "Operation")
  {
    LogFromNext(ops, k);
    OperationHead(text, i, k, ops[k], LogFrom(ops, k + 1) + [""]);
  }

  /** An operation's first line starts with `Operation`; its matrices follow. */
  lemma OperationHead(text: seq<string>, i: int, k: int, op: Operation, tail: seq<string>)
    requires op.a.WellFormed() && op.b.WellFormed() && op.p.WellFormed()
    requires 0 <= i <= |text| && text[i..] == OperationLines(k, op) + tail
    ensures i < |text| && StartsWith(text[i], "Operation")
    ensures text[i + 1..] == Print(op.a) + (Print(op.b) + (Print(op.p) + tail))
  {
    var line := "Operation " + FormatInt(k) + ":";
    var more := Print(op.a) + (Print(op.b) + (Print(op.p) + tail));
    OperationLinesRegroup(line, Print(op.a), Print(op.b), Print(op.p), tail);
    SuffixHead(text, i, line, more);
    OperationLine(FormatInt(k));
  }

  /** Regrouping an operation's lines: its first line, then everything after it. */
  lemma OperationLinesRegroup(line: string, la: seq<string>, lb: seq<string>, lp: seq<string>, tail: seq<string>)
    ensures [line] + la + lb + lp + tail == [line] + (la + (lb + (lp + tail)))
  {
  }

  /** The index line of an operation starts with `Operation`. */
  lemma OperationLine(index: string)
    ensures StartsWith("Operation " + index + ":", "Operation")
  {
    var line := "Operation " + index + ":";
    assert line[..9] == "Operation";
  }

  /** The three matrices of an operation read back one after the other. */
  lemma ReadOperation(text: seq<string>, op: Operation, tail: seq<string>, i1: int, i2: int, i3: int, i4: int)
    requires op.a.WellFormed() && op.b.WellFormed() && op.p.WellFormed()
    requires 0 <= i1 <= |text| && text[i1..] == Print(op.a) + (Print(op.b) + (Print(op.p) + tail))
    requires i2 == i1 + 1 + op.a.rows && i3 == i2 + 1 + op.b.rows && i4 == i3 + 1 + op.p.rows
    ensures ReadAt(text, i1) == Ok((op.a.Rows(), i2))
    ensures ReadAt(text, i2) == Ok((op.b.Rows(), i3))
    ensures ReadAt(text, i3) == Ok((op.p.Rows(), i4))
    ensures text[i4..] == tail
  {
    PrintedAnnounces(op.a);
    PrintedAnnounces(op.b);
    PrintedAnnounces(op.p);
    ReadThree(text, Print(op.a), Print(op.b), Print(op.p), tail,
      (op.a.rows, op.a.cols), (op.b.rows, op.b.cols), (op.p.rows, op.p.cols),
      op.a.Rows(), op.b.Rows(), op.p.Rows(), i1, i2, i3, i4);
  }

  /** Three announced blocks in a row read back one after the other. */
  lemma ReadThree(text: seq<string>, la: seq<string>, lb: seq<string>, lp: seq<string>, tail: seq<string>,
                  da: (int, int), db: (int, int), dp: (int, int), xa: seq<seq<int>>, xb: seq<seq<int>>, xp: seq<seq<int>>,
                  i1: int, i2: int, i3: int, i4: int)
    requires Announces(la, da.0, da.1, xa) && Announces(lb, db.0, db.1, xb) && Announces(lp, dp.0, dp.1, xp)
    requires 0 <= i1 <= |text| && text[i1..] == la + (lb + (lp + tail))
    requires i2 == i1 + 1 + da.0 && i3 == i2 + 1 + db.0 && i4 == i3 + 1 + dp.0
    ensures ReadAt(text, i1) == Ok((xa, i2))
    ensures ReadAt(text, i2) == Ok((xb, i3))
    ensures ReadAt(text, i3) == Ok((xp, i4))
    ensures text[i4..] == tail
  {
    ReadAtLines(text, i1, la, lb + (lp + tail), da.0, da.1, xa, i2);
    ReadAtLines(text, i2, lb, lp + tail, db.0, db.1, xb, i3);
    ReadAtLines(text, i3, lp, tail, dp.0, dp.1, xp, i4);
  }

  /** After the last operation the cursor sits on the sentinel, which ends the loop. */
  lemma LogEnd(text: seq<string>, i: int, ops: seq<Operation>)
    requires Logged(ops) && 0 <= i <= |text| && text[i..] == LogFrom(ops, |ops|) + [""]
    ensures i < |text| && !StartsWith(text[i], "Operation")
  {
    assert text[i..] == [""];
    assert text[i] == "";
  }

  /**
   * `main` once the file's existence is known: a missing file returns 1;
   * otherwise each `Operation` group's three matrices are read and the
   * product is checked, the first wrong one returning 1 and the end of
   * the groups returning 0. On a log the drivers wrote, the answer is 0
   * exactly when every logged product is right.
   */
  method Check(found: bool, lines: seq<string>, ghost ops: seq<Operation>) returns (r: Result<int, Failure>)
    ensures !found ==> r == Ok(1)
    ensures r.Ok? ==> r.value == 0 || r.value == 1
    ensures found && Logged(ops) && lines == LogFrom(ops, 0) ==> r == Ok(if AllProducts(ops) then 0 else 1)
  {
    if !found {
      return Ok(1);
    }
    var log := new Log(lines);
    ghost var tracking := Logged(ops) && lines == LogFrom(ops, 0);
    ghost var k: nat := 0;
    while true
      invariant 0 <= log.i
      invariant tracking ==> k <= |ops| && log.i <= |log.text| && log.text[log.i..] == LogFrom(ops, k) + [""]
      invariant tracking ==> RightUpTo(ops, k)
      decreases |log.text| - log.i
    {
      if log.i >= |log.text| {
        return Err(IndexError);
      }
      if tracking && k < |ops| {
        LogOpens(log.text, ops, k, log.i);
      } else if tracking {
        LogEnd(log.text, log.i, ops);
      }
      if !StartsWith(log.text[log.i], "Operation") {
        break;
      }
      log.i := log.i + 1;
      var same := log.CheckOperation(ops, k, tracking);
      if tracking {
        RightUpToNext(ops, k);
      }
      if same.Err? {
        return Err(same.error);
      }
      if !same.value {
        return Ok(1);
      }
      k := k + 1;
    }
    return Ok(0);
  }
}
