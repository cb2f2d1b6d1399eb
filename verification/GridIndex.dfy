/** Points in the terminal grid, and their arithmetic with the three kinds of boundary. */
module GridIndex {
  import opened Arithmetic

  datatype Direction = Left | Right

  type Side = Direction

  /** `Unbounded` is the boundary called `None` in the program. */
  datatype Boundary = Cursor | Grid | Unbounded

  datatype Point = Point(line: int, column: nat) {
    /** Points are ordered by line, then by column. */
    predicate Less(other: Point) {
      line < other.line || (line == other.line && column < other.column)
    }
  }

  datatype Dimensions = Dimensions(totalLines: nat, screenLines: nat, columns: nat) {
    predicate Valid() {
      1 <= screenLines <= totalLines && 1 <= columns
    }

    function Topmost(): int { -(totalLines - screenLines) }

    function Bottommost(): int { screenLines - 1 }

    function LastColumn(): nat
      requires Valid()
    {
      columns - 1
    }

    predicate InGrid(p: Point) {
      Topmost() <= p.line <= Bottommost() && p.column < columns
    }

    function Cells(): int { totalLines * columns }

    /** Reading order: the first cell of the history has index 0. */
    function Index(p: Point): int {
      (p.line - Topmost()) * columns + p.column
    }
  }

  /** Rust's remainder takes the sign of the dividend. */
  function Remainder(a: int, b: int): int
    requires b > 0
  {
    if a >= 0 then a % b else -((-a) % b)
  }

  function ClampLine(line: int, dims: Dimensions, boundary: Boundary): int
    requires dims.Valid()
  {
    match boundary
    case Cursor => Max(0, Min(dims.Bottommost(), line))
    case Grid => Max(dims.Topmost(), Min(dims.Bottommost(), line))
    case Unbounded =>
      if line >= dims.screenLines then
        dims.Topmost() + Remainder(line - dims.screenLines, dims.totalLines)
      else
        dims.Bottommost() + Remainder(line - dims.screenLines + 1, dims.totalLines)
  }

  function GridClamp(point: Point, dims: Dimensions, boundary: Boundary): Point
    requires dims.Valid()
  {
    var p := Point(point.line, Min(point.column, dims.LastColumn()));
    if boundary == Cursor && p.line < 0 then Point(0, 0)
    else if boundary == Grid && p.line < dims.Topmost() then Point(dims.Topmost(), 0)
    else if boundary != Unbounded && p.line > dims.Bottommost() then
      Point(dims.Bottommost(), dims.LastColumn())
    else if boundary == Unbounded then Point(ClampLine(p.line, dims, boundary), p.column)
    else p
  }

  function Add(p: Point, dims: Dimensions, boundary: Boundary, rhs: nat): Point
    requires dims.Valid()
  {
    var moved :=
      Point(p.line + (rhs + p.column) / dims.columns, (p.column + rhs) % dims.columns);
    GridClamp(moved, dims, boundary)
  }

  function Sub(p: Point, dims: Dimensions, boundary: Boundary, rhs: nat): Point
    requires dims.Valid()
  {
    var cols := dims.columns;
    var lineChanges := Max(0, rhs + cols - 1 - p.column) / cols;
    var moved := Point(p.line - lineChanges, (cols + p.column - rhs % cols) % cols);
    GridClamp(moved, dims, boundary)
  }

  // ----- Indices and lines -----

  /** Reducing the line modulo the number of lines reduces the index modulo the number of cells. */
  lemma IndexMod(line: int, column: int, total: int, columns: int)
    requires total > 0 && columns > 0 && 0 <= column < columns
    ensures total * columns > 0
    ensures (line * columns + column) % (total * columns) == line % total * columns + column
  {
    var q, r := line / total, line % total;
    assert line == q * total + r;
    MulMonotonic(1, total, columns);
    MulMonotonic(r + 1, total, columns);
    MulMonotonic(0, r, columns);
    assert (r + 1) * columns == r * columns + columns;
    calc {
      line * columns + column;
      (q * total + r) * columns + column;
      { Distribute(q * total, r, columns); }
      (q * total) * columns + r * columns + column;
      { MulAssociative(q, total, columns); }
      q * (total * columns) + (r * columns + column);
    }
    DivModUnique(line * columns + column, total * columns, q, r * columns + column);
  }

  // ----- Clamping -----

  lemma WrapLine(line: int, dims: Dimensions)
    requires dims.Valid()
    ensures ClampLine(line, dims, Unbounded) - dims.Topmost()
         == (line - dims.Topmost()) % dims.totalLines
  {
    var total, top := dims.totalLines, dims.Topmost();
    if line >= dims.screenLines {
      var m := line - dims.screenLines;
      assert line - top == m + total;
      DivModUnique(m + total, total, m / total + 1, m % total);
    } else {
      var m := dims.screenLines - line - 1;
      assert line - top == total - 1 - m;
      assert Remainder(-m, total) == -(m % total);
      DivModUnique(total - 1 - m, total, -(m / total), total - 1 - m % total);
    }
  }

  /** Clamped to the screen or the grid, a line inside stays and any other goes to the nearer edge. */
  lemma ClampLineToEdges(line: int, dims: Dimensions)
    requires dims.Valid()
    ensures var (screen, grid) := (ClampLine(line, dims, Cursor), ClampLine(line, dims, Grid));
            && (line < 0 ==> screen == 0) && (0 <= line < dims.screenLines ==> screen == line)
            && (line < dims.screenLines - dims.totalLines ==> grid == dims.screenLines - dims.totalLines)
            && (dims.screenLines - dims.totalLines <= line < dims.screenLines ==> grid == line)
            && (line >= dims.screenLines ==> screen == grid == dims.screenLines - 1)
  {
  }

  /** Columns beyond the last one are clamped first. */
  lemma ClampColumn(p: Point, dims: Dimensions, boundary: Boundary)
    requires dims.Valid() && p.column >= dims.columns
    ensures GridClamp(p, dims, boundary) == GridClamp(Point(p.line, dims.columns - 1), dims, boundary)
  {
  }

  /** Clamping a point that may be on any line, in terms of its index. */
  lemma ClampIndex(p: Point, dims: Dimensions, boundary: Boundary)
    requires dims.Valid() && p.column < dims.columns
    ensures dims.Cells() > 0
    ensures var q := GridClamp(p, dims, boundary);
            && dims.InGrid(q)
            && dims.Index(q) == match boundary
                 case Cursor =>
                   Max(dims.Index(Point(0, 0)), Min(dims.Cells() - 1, dims.Index(p)))
                 case Grid => Max(0, Min(dims.Cells() - 1, dims.Index(p)))
                 case Unbounded => dims.Index(p) % dims.Cells()
  {
    if boundary == Unbounded {
      IndexMod(p.line - dims.Topmost(), p.column, dims.totalLines, dims.columns);
      WrapLine(p.line, dims);
    } else {
      CornerIndex(dims);
      var low := if boundary == Cursor then Point(0, 0) else Point(dims.Topmost(), 0);
      assert dims.Index(Point(dims.Topmost(), 0)) == 0;
      ClampBetween(p, dims, boundary, low);
    }
  }

  lemma ClampBetween(p: Point, dims: Dimensions, boundary: Boundary, low: Point)
    requires dims.Valid() && p.column < dims.columns && boundary != Unbounded
    requires low == if boundary == Cursor then Point(0, 0) else Point(dims.Topmost(), 0)
    ensures var q, high := GridClamp(p, dims, boundary), Point(dims.Bottommost(), dims.LastColumn());
            dims.InGrid(q) && dims.Index(q) == Max(dims.Index(low), Min(dims.Index(high), dims.Index(p)))
  {
    var high := Point(dims.Bottommost(), dims.LastColumn());
    LineOrder(p, low, dims);
    LineOrder(high, p, dims);
    LineOrder(high, low, dims);
  }

  lemma CornerIndex(dims: Dimensions)
    requires dims.Valid()
    ensures dims.Cells() > 0
    ensures dims.Index(Point(dims.Bottommost(), dims.LastColumn())) == dims.Cells() - 1
  {
    assert dims.Bottommost() - dims.Topmost() == dims.totalLines - 1;
    Distribute(dims.totalLines, -1, dims.columns);
    MulMonotonic(1, dims.totalLines, dims.columns);
  }

  /** The index agrees with the order on points, whatever their lines. */
  lemma LineOrder(p: Point, q: Point, dims: Dimensions)
    requires dims.Valid() && p.column < dims.columns && q.column < dims.columns
    ensures p.Less(q) <==> dims.Index(p) < dims.Index(q)
    ensures p == q <==> dims.Index(p) == dims.Index(q)
    ensures p.line < q.line ==> dims.Index(p) - p.column + dims.columns <= dims.Index(q) - q.column
    ensures q.line < p.line ==> dims.Index(q) - q.column + dims.columns <= dims.Index(p) - p.column
  {
    var a, b := p.line - dims.Topmost(), q.line - dims.Topmost();
    if a < b {
      MulMonotonic(a + 1, b, dims.columns);
      Distribute(a, 1, dims.columns);
    } else if b < a {
      MulMonotonic(b + 1, a, dims.columns);
      Distribute(b, 1, dims.columns);
    }
  }

  // ----- Addition and subtraction -----

  lemma RawAdd(p: Point, dims: Dimensions, rhs: nat)
    requires dims.Valid() && p.column < dims.columns
    ensures dims.Index(Point(p.line + (rhs + p.column) / dims.columns,
                             (p.column + rhs) % dims.columns))
         == dims.Index(p) + rhs
  {
    var q := (rhs + p.column) / dims.columns;
    Distribute(p.line - dims.Topmost(), q, dims.columns);
    assert p.line + q - dims.Topmost() == (p.line - dims.Topmost()) + q;
  }

  lemma RawSub(p: Point, dims: Dimensions, rhs: nat)
    requires dims.Valid() && p.column < dims.columns
    ensures dims.Index(Point(p.line - Max(0, rhs + dims.columns - 1 - p.column) / dims.columns,
                             (dims.columns + p.column - rhs % dims.columns) % dims.columns))
         == dims.Index(p) - rhs
  {
    var cols := dims.columns;
    var changes := Max(0, rhs + cols - 1 - p.column) / cols;
    BorrowLines(p.column, cols, rhs);
    Distribute(p.line - dims.Topmost(), -changes, cols);
    assert p.line - changes - dims.Topmost() == (p.line - dims.Topmost()) + -changes;
  }

  lemma BorrowLines(c: int, cols: int, rhs: int)
    requires 0 <= c < cols && rhs >= 0
    ensures -(Max(0, rhs + cols - 1 - c) / cols) * cols + (cols + c - rhs % cols) % cols == c - rhs
  {
    var q, r := rhs / cols, rhs % cols;
    if r <= c {
      Borrow(rhs, cols, c, q, r + cols - 1 - c, c - r, 1);
    } else {
      Distribute(q, 1, cols);
      Borrow(rhs, cols, c, q + 1, r - 1 - c, cols + c - r, 0);
    }
  }

  lemma Borrow(rhs: int, cols: int, c: int, lines: int, rest: int, column: int, wrapped: int)
    requires 0 <= c < cols && rhs >= 0 && 0 <= rest < cols && 0 <= column < cols
    requires rhs + cols - 1 - c == lines * cols + rest
    requires cols + c - rhs % cols == wrapped * cols + column
    ensures (rhs + cols - 1 - c) / cols == lines && (cols + c - rhs % cols) % cols == column
  {
    DivModUnique(rhs + cols - 1 - c, cols, lines, rest);
    DivModUnique(cols + c - rhs % cols, cols, wrapped, column);
  }

  /**
   Addition and subtraction of columns are arithmetic on indices: modulo the number of cells
   without a boundary, and saturating at the first and last cell with one.
   */
  lemma AddIsIndexAddition(p: Point, dims: Dimensions, rhs: nat)
    requires dims.Valid() && p.column < dims.columns
    ensures dims.Cells() > 0
    ensures forall boundary :: dims.InGrid(Add(p, dims, boundary, rhs))
    ensures dims.Index(Add(p, dims, Unbounded, rhs)) == (dims.Index(p) + rhs) % dims.Cells()
    ensures dims.Index(Add(p, dims, Grid, rhs))
         == Max(0, Min(dims.Cells() - 1, dims.Index(p) + rhs))
    ensures dims.Index(Add(p, dims, Cursor, rhs))
         == Max(dims.Index(Point(0, 0)), Min(dims.Cells() - 1, dims.Index(p) + rhs))
  {
    RawAdd(p, dims, rhs);
    var moved :=
      Point(p.line + (rhs + p.column) / dims.columns, (p.column + rhs) % dims.columns);
    forall boundary ensures dims.InGrid(Add(p, dims, boundary, rhs)) {
      ClampIndex(moved, dims, boundary);
    }
    ClampIndex(moved, dims, Unbounded);
    ClampIndex(moved, dims, Grid);
    ClampIndex(moved, dims, Cursor);
  }

  lemma SubIsIndexSubtraction(p: Point, dims: Dimensions, rhs: nat)
    requires dims.Valid() && p.column < dims.columns
    ensures dims.Cells() > 0
    ensures forall boundary :: dims.InGrid(Sub(p, dims, boundary, rhs))
    ensures dims.Index(Sub(p, dims, Unbounded, rhs)) == (dims.Index(p) - rhs) % dims.Cells()
    ensures dims.Index(Sub(p, dims, Grid, rhs))
         == Max(0, Min(dims.Cells() - 1, dims.Index(p) - rhs))
    ensures dims.Index(Sub(p, dims, Cursor, rhs))
         == Max(dims.Index(Point(0, 0)), Min(dims.Cells() - 1, dims.Index(p) - rhs))
  {
    RawSub(p, dims, rhs);
    var cols := dims.columns;
    var moved := Point(p.line - Max(0, rhs + cols - 1 - p.column) / cols,
                       (cols + p.column - rhs % cols) % cols);
    forall boundary ensures dims.InGrid(Sub(p, dims, boundary, rhs)) {
      ClampIndex(moved, dims, boundary);
    }
    ClampIndex(moved, dims, Unbounded);
    ClampIndex(moved, dims, Grid);
    ClampIndex(moved, dims, Cursor);
  }

  lemma InGridIndex(p: Point, dims: Dimensions)
    requires dims.Valid() && dims.InGrid(p)
    ensures 0 <= dims.Index(p) < dims.Cells()
  {
    CornerIndex(dims);
    LineOrder(p, Point(dims.Topmost(), 0), dims);
    LineOrder(Point(dims.Bottommost(), dims.LastColumn()), p, dims);
  }

  lemma ModShift(a: int, n: int, m: int)
    requires m > 0 && 0 <= a < m
    ensures ((a + n) % m - n) % m == a
  {
    var q := (a + n) / m;
    assert (a + n) % m - n == -q * m + a by {
      Distribute(q, -q, m);
    }
    DivModUnique((a + n) % m - n, m, -q, a);
  }

  lemma ModShiftBack(a: int, n: int, m: int)
    requires m > 0 && 0 <= a < m
    ensures ((a - n) % m + n) % m == a
  {
    ModShift(a, -n, m);
  }

  /** Without a boundary, addition and subtraction undo each other for any offset. */
  lemma SubUndoesAdd(p: Point, dims: Dimensions, n: nat)
    requires dims.Valid() && dims.InGrid(p)
    ensures Sub(Add(p, dims, Unbounded, n), dims, Unbounded, n) == p
  {
    InGridIndex(p, dims);
    AddIsIndexAddition(p, dims, n);
    var up := Add(p, dims, Unbounded, n);
    SubIsIndexSubtraction(up, dims, n);
    ModShift(dims.Index(p), n, dims.Cells());
    LineOrder(Sub(up, dims, Unbounded, n), p, dims);
  }

  lemma AddUndoesSub(p: Point, dims: Dimensions, n: nat)
    requires dims.Valid() && dims.InGrid(p)
    ensures Add(Sub(p, dims, Unbounded, n), dims, Unbounded, n) == p
  {
    InGridIndex(p, dims);
    SubIsIndexSubtraction(p, dims, n);
    var down := Sub(p, dims, Unbounded, n);
    AddIsIndexAddition(down, dims, n);
    ModShiftBack(dims.Index(p), n, dims.Cells());
    LineOrder(Add(down, dims, Unbounded, n), p, dims);
  }
}
