/** Selections: half-cell anchors, the cells they cover, scrolling, and conversion to a cell range. */
module Selection {
  import opened Content
  import opened Arithmetic
  import opened GridIndex

  datatype Anchor = Anchor(point: Point, side: Side) {
    /** The column of the cell edge the anchor is on. */
    function ColumnEdge(): nat {
      point.column + if side == Right then 1 else 0
    }

    /** The cell at p comes after the anchor's edge, in reading order. */
    predicate Before(p: Point) {
      point.line < p.line || (point.line == p.line && ColumnEdge() <= p.column)
    }

    /** The edge in reading order; the end of a line is the start of the next one. */
    function Edge(dims: Dimensions): int {
      dims.Index(point) + if side == Right then 1 else 0
    }
  }

  datatype SelectionType = Simple | Block | Semantic | Lines

  /** A selection's type and its two anchors, in the order in which they were set. */
  datatype Region = Region(ty: SelectionType, start: Anchor, end: Anchor) {

    predicate Valid(dims: Dimensions) {
      dims.Valid() && start.point.column < dims.columns && end.point.column < dims.columns
    }

    predicate InGrid(dims: Dimensions) {
      dims.Valid() && dims.InGrid(start.point) && dims.InGrid(end.point)
    }

    predicate Swapped() { end.point.Less(start.point) }

    function First(): Anchor { if Swapped() then end else start }

    function Last(): Anchor { if Swapped() then start else end }

    /**
     The cells completely between the anchors: those that come after exactly one of the two edges,
     or, in a block, those in a line between the anchors' lines and after exactly one column edge.
     */
    predicate Covers(p: Point) {
      if ty == Block then
        && First().point.line <= p.line <= Last().point.line
        && (start.ColumnEdge() <= p.column) != (end.ColumnEdge() <= p.column)
      else
        start.Before(p) != end.Before(p)
    }

    predicate IsEmpty() {
      match ty
      case Simple =>
        var (first, last) := (First(), Last());
        || first == last
        || (first.side == Right && last.side == Left && first.point.line == last.point.line
            && first.point.column + 1 == last.point.column)
      case Block =>
        || (start.point.column == end.point.column && start.side == end.side)
        || (start.point.column + 1 == end.point.column && start.side == Right && end.side == Left)
        || (end.point.column + 1 == start.point.column && start.side == Left && end.side == Right)
      case _ => false
    }
  }

  /** Outside blocks, the covered cells are those whose index lies between the two edges. */
  lemma CoversIsInterval(r: Region, dims: Dimensions, p: Point)
    requires r.Valid(dims) && r.ty != Block && p.column < dims.columns
    ensures r.Covers(p)
       <==> Min(r.start.Edge(dims), r.end.Edge(dims)) <= dims.Index(p)
            < Max(r.start.Edge(dims), r.end.Edge(dims))
  {
    LineOrder(r.start.point, p, dims);
    LineOrder(r.end.point, p, dims);
  }

  // ----- Conversion to a range of cells -----

  datatype SelectionRange = SelectionRange(start: Point, end: Point, isBlock: bool) {
    predicate Contains(p: Point) {
      && start.line <= p.line
      && end.line >= p.line
      && (start.column <= p.column || (start.line != p.line && !isBlock))
      && (end.column >= p.column || (end.line != p.line && !isBlock))
    }
  }

  /** `range_simple` on ordered and clamped anchors. */
  function RangeSimple(start: Anchor, end: Anchor, columns: nat): SelectionRange
    requires columns >= 1
  {
    var to :=
      if end.side == Left && start.point != end.point then
        if end.point.column == 0 then Point(end.point.line - 1, columns - 1)
        else Point(end.point.line, end.point.column - 1)
      else end.point;
    var from :=
      if start.side == Right && start.point != to then
        if start.point.column + 1 == columns then Point(start.point.line + 1, 0)
        else Point(start.point.line, start.point.column + 1)
      else start.point;
    SelectionRange(from, to, false)
  }

  /** `range_block` on ordered and clamped anchors. */
  function RangeBlock(start: Anchor, end: Anchor): SelectionRange {
    var swap := start.point.column > end.point.column;
    var left := Anchor(Point(start.point.line, if swap then end.point.column else start.point.column),
                       if swap then end.side else start.side);
    var right := Anchor(Point(end.point.line, if swap then start.point.column else end.point.column),
                        if swap then start.side else end.side);
    var to :=
      if right.side == Left && left.point != right.point && right.point.column > 0 then
        Point(right.point.line, right.point.column - 1)
      else right.point;
    var from :=
      if left.side == Right && left.point != to then
        Point(left.point.line, left.point.column + 1)
      else left.point;
    SelectionRange(from, to, true)
  }

  /** `to_range` for the two selection types that are not expanded to words or lines. */
  function ToRange(r: Region, dims: Dimensions): Option<SelectionRange>
    requires dims.Valid() && (r.ty == Simple || r.ty == Block)
  {
    if r.Last().point.line < dims.Topmost() then None
    else
      var first := r.First().(point := GridClamp(r.First().point, dims, Grid));
      var last := r.Last().(point := GridClamp(r.Last().point, dims, Grid));
      if r.IsEmpty() then None
      else if r.ty == Simple then Some(RangeSimple(first, last, dims.columns))
      else Some(RangeBlock(first, last))
  }

  /** The range contains exactly the covered cells of the grid. */
  ghost predicate Exact(r: Region, dims: Dimensions, range: Option<SelectionRange>) {
    forall p: Point :: dims.InGrid(p) ==> (r.Covers(p) <==> range.Some? && range.value.Contains(p))
  }

  /** From the right of the last column to the left of the first column of the next line. */
  predicate IsLineBreak(r: Region, dims: Dimensions) {
    && r.First().side == Right && r.First().point.column + 1 == dims.columns
    && r.Last().side == Left && r.Last().point.column == 0
    && r.First().point.line + 1 == r.Last().point.line
  }

  /** A block of one column that is entered at its right edge and left at its left edge. */
  predicate IsReversedColumn(r: Region) {
    && r.First().point.column == r.Last().point.column
    && r.First().point.line < r.Last().point.line
    && r.First().side == Right && r.Last().side == Left
  }

  /** A Simple selection is exact unless it covers just a line break, which counts as one cell. */
  lemma SimpleRangeExact(r: Region, dims: Dimensions)
    requires r.InGrid(dims) && r.ty == Simple
    ensures Exact(r, dims, ToRange(r, dims)) <==> !IsLineBreak(r, dims)
  {
    if IsLineBreak(r, dims) {
      var p := r.First().point;
      assert dims.InGrid(p) && !r.Covers(p) && ToRange(r, dims).value.Contains(p);
    }
  }

  /** From the end of line 0 to the start of line 1, with three columns: (0, 2) counts as selected. */
  lemma LineBreakSelectsCell()
    ensures var r := Region(Simple, Anchor(Point(0, 2), Right), Anchor(Point(1, 0), Left));
            var dims := Dimensions(2, 2, 3);
            && IsLineBreak(r, dims) && !r.Covers(Point(0, 2))
            && ToRange(r, dims) == Some(SelectionRange(Point(0, 2), Point(0, 2), false))
  {
  }

  /** A Block selection is exact unless it is a reversed column, which it drops. */
  lemma BlockRangeExact(r: Region, dims: Dimensions)
    requires r.InGrid(dims) && r.ty == Block
    ensures Exact(r, dims, ToRange(r, dims)) <==> !IsReversedColumn(r)
  {
    if IsReversedColumn(r) {
      var p := r.First().point;
      assert dims.InGrid(p) && r.Covers(p) && !ToRange(r, dims).value.Contains(p);
    }
  }

  /** From the right of (0, 1) to the left of (1, 1): column 1 is covered, but the range has no cell. */
  lemma ReversedColumnIsDropped(p: Point)
    ensures var r := Region(Block, Anchor(Point(0, 1), Right), Anchor(Point(1, 1), Left));
            && IsReversedColumn(r) && r.Covers(Point(0, 1)) && r.Covers(Point(1, 1))
            && !ToRange(r, Dimensions(2, 2, 3)).value.Contains(p)
  {
  }

  /**
   When the first anchor has scrolled out of the history, it is clamped to the first cell but keeps
   its side. From a right side this loses the first cell, unless the selection ends there.
   */
  lemma ScrolledOutSimpleRange(r: Region, dims: Dimensions)
    requires r.Valid(dims) && r.ty == Simple
    requires r.First().point.line < dims.Topmost() && dims.InGrid(r.Last().point)
    ensures Exact(r, dims, ToRange(r, dims))
       <==> if r.First().side == Left then r.Last().Edge(dims) != 0 else r.Last().Edge(dims) == 1
  {
    var origin, next := Point(dims.Topmost(), 0), Point(dims.Topmost() + 1, 0);
    LineOrder(origin, r.Last().point, dims);
    LineOrder(next, r.Last().point, dims);
    assert dims.Index(origin) == 0;
    assert dims.InGrid(origin);
    if r.Last().Edge(dims) == 0 {
      assert !r.Covers(origin) && ToRange(r, dims).value.Contains(origin);
    } else if r.First().side == Right && r.Last().Edge(dims) > 1 {
      assert r.Covers(origin) && !ToRange(r, dims).value.Contains(origin);
    }
  }

  /** From the right of a cell above the history to (1, 1): the first cell of the grid is lost. */
  lemma ScrolledOutLosesCell()
    ensures var r := Region(Simple, Anchor(Point(-1, 1), Right), Anchor(Point(1, 1), Right));
            var dims := Dimensions(2, 2, 3);
            && r.First().point.line < dims.Topmost() && r.Covers(Point(0, 0))
            && ToRange(r, dims) == Some(SelectionRange(Point(0, 1), Point(1, 1), false))
  {
  }

  /**
   A block whose first anchor has scrolled out loses that anchor's column as well. The range is still
   right if there was nothing to lose: the block is empty, or starts in the first column, or is that
   column and ends to the left of it.
   */
  lemma ScrolledOutBlockRange(r: Region, dims: Dimensions)
    requires r.Valid(dims) && r.ty == Block
    requires r.First().point.line < dims.Topmost() && dims.InGrid(r.Last().point)
    ensures Exact(r, dims, ToRange(r, dims)) <==> KeepsColumns(r, dims)
  {
    if !KeepsColumns(r, dims) {
      var (a, b) := (r.First().ColumnEdge(), r.Last().ColumnEdge());
      var p := Point(r.Last().point.line,
                     if a > b then a - 1 else if r.First().side == Left then 0 else 1);
      assert dims.InGrid(p);
      assert r.Covers(p) <==> a > b;
      assert ToRange(r, dims).value.Contains(p) <==> a < b;
    }
  }

  /** Columns 2 and 3 from above the history to line 1: columns 0 and 1 are selected as well. */
  lemma ScrolledOutWidensBlock()
    ensures var r := Region(Block, Anchor(Point(-1, 2), Left), Anchor(Point(1, 3), Right));
            var dims := Dimensions(2, 2, 5);
            && r.First().point.line < dims.Topmost() && !r.Covers(Point(1, 0))
            && ToRange(r, dims) == Some(SelectionRange(Point(0, 0), Point(1, 3), true))
  {
  }

  predicate KeepsColumns(r: Region, dims: Dimensions) {
    var (first, last) := (r.First(), r.Last());
    || first.ColumnEdge() == last.ColumnEdge()
    || (first.point.column == 0 && first.ColumnEdge() < last.ColumnEdge())
    || (first.ColumnEdge() == 1 && last.ColumnEdge() == 0
        && (first.side == Left || last.point.line == dims.Topmost()))
  }

  // ----- Expanding to whole cells -----

  function Expanded(r: Region): Region {
    var (start, end) := (r.start.point, r.end.point);
    var backwards :=
      if r.ty == Block then
        start.column > end.column || (start.column == end.column && start.line > end.line)
      else end.Less(start);
    r.(start := Anchor(start, if backwards then Right else Left),
       end := Anchor(end, if backwards then Left else Right))
  }

  predicate AtOrBefore(p: Point, q: Point) { p == q || p.Less(q) }

  /** The cells from one anchor cell to the other, both included: a run, or a rectangle. */
  predicate Spans(r: Region, p: Point) {
    var (a, b) := (r.start.point, r.end.point);
    if r.ty == Block then
      && Min(a.line, b.line) <= p.line <= Max(a.line, b.line)
      && Min(a.column, b.column) <= p.column <= Max(a.column, b.column)
    else
      (AtOrBefore(a, p) && AtOrBefore(p, b)) || (AtOrBefore(b, p) && AtOrBefore(p, a))
  }

  /** After `include_all` the selection is exact and covers exactly the span of the anchor cells. */
  lemma IncludeAllSpans(r: Region, dims: Dimensions)
    requires r.InGrid(dims) && (r.ty == Simple || r.ty == Block)
    ensures var all := Expanded(r);
            && !all.IsEmpty()
            && all.start.point == r.start.point && all.end.point == r.end.point
            && (forall p: Point :: all.Covers(p) <==> Spans(r, p))
            && Exact(all, dims, ToRange(all, dims))
  {
    var all := Expanded(r);
    if r.ty == Simple {
      SimpleRangeExact(all, dims);
    } else {
      BlockRangeExact(all, dims);
    }
  }

  // ----- Scrolling -----

  /** A scroll: lines `top` up to `bottom` of the screen move up by `delta`, or down if negative. */
  datatype Scroll = Scroll(top: int, bottom: int, delta: int) {
    /** A line of the region; a region from line 0 includes the history above it. */
    predicate Within(line: int) {
      (line >= top || top == 0) && line < bottom
    }
  }

  /** `rotate` on ordered anchors. */
  function RotateAnchors(ty: SelectionType, first: Anchor, last: Anchor, dims: Dimensions, s: Scroll)
    : Option<(Anchor, Anchor)>
    requires dims.Valid()
  {
    var from := Min(first.point.line - s.delta, dims.Bottommost());
    if s.Within(first.point.line) && from >= s.bottom && last.point.line < s.bottom then None
    else
      var start :=
        if !s.Within(first.point.line) then first
        else if from < s.top && s.top != 0 then
          if ty == Block then Anchor(Point(s.top, first.point.column), first.side)
          else Anchor(Point(s.top, 0), Left)
        else Anchor(Point(from, first.point.column), first.side);
      var to := Min(last.point.line - s.delta, dims.Bottommost());
      if !s.Within(last.point.line) then Some((start, last))
      else if to < start.point.line then None
      else if to >= s.bottom then
        if ty == Block then Some((start, Anchor(Point(s.bottom - 1, last.point.column), last.side)))
        else Some((start, Anchor(Point(s.bottom - 1, dims.LastColumn()), Right)))
      else Some((start, Anchor(Point(to, last.point.column), last.side)))
  }

  function Rotated(r: Region, dims: Dimensions, s: Scroll): Option<Region>
    requires dims.Valid()
  {
    match RotateAnchors(r.ty, r.First(), r.Last(), dims, s)
    case None => None
    case Some((first, last)) =>
      if r.Swapped() then Some(r.(start := last, end := first))
      else Some(r.(start := first, end := last))
  }

  /** A cell of the grid is covered after the scroll iff it shows content that was covered before. */
  ghost predicate TracksContent(r: Region, dims: Dimensions, s: Scroll) {
    dims.Valid() &&
    forall p: Point :: p.line <= dims.Bottommost() && p.column < dims.columns ==>
      (CoversAfter(r, dims, s, p) <==> s.Within(p.line) && r.Covers(Point(p.line + s.delta, p.column)))
  }

  predicate CoversAfter(r: Region, dims: Dimensions, s: Scroll, p: Point)
    requires dims.Valid()
  {
    Rotated(r, dims, s).Some? && Rotated(r, dims, s).value.Covers(p)
  }

  /** Content scrolled below the screen by a region that ends there is held at the bottom line. */
  predicate StuckAtBottom(r: Region, dims: Dimensions, s: Scroll) {
    && r.Last().point.line - s.delta > dims.Bottommost() && s.bottom > dims.Bottommost()
    && if r.First().point.line - s.delta > dims.Bottommost() then
         r.First().ColumnEdge() != r.Last().ColumnEdge()
       else
         r.ty != Block && r.Last().ColumnEdge() != dims.columns
  }

  /**
   Rotation tracks content: with both anchors in the scrolled region the covered cells move by delta
   and are cut to the region, where None means that nothing is left, exactly unless part of the
   selection is held at the bottom line of the screen.
   */
  lemma RotateTracksContent(r: Region, dims: Dimensions, s: Scroll)
    requires r.Valid(dims) && 0 <= s.top < s.bottom && s.top <= dims.Bottommost()
    requires s.Within(r.start.point.line) && s.Within(r.end.point.line)
    ensures TracksContent(r, dims, s) <==> !StuckAtBottom(r, dims, s)
  {
    if StuckAtBottom(r, dims, s) {
      RotateStuck(r, dims, s);
    } else {
      forall p: Point | p.line <= dims.Bottommost() && p.column < dims.columns
        ensures CoversAfter(r, dims, s, p)
           <==> s.Within(p.line) && r.Covers(Point(p.line + s.delta, p.column))
      {
        RotateCell(r, dims, s, p);
      }
    }
  }

  lemma RotateCell(r: Region, dims: Dimensions, s: Scroll, p: Point)
    requires r.Valid(dims) && 0 <= s.top < s.bottom && s.top <= dims.Bottommost()
    requires s.Within(r.start.point.line) && s.Within(r.end.point.line)
    requires !StuckAtBottom(r, dims, s)
    requires p.line <= dims.Bottommost() && p.column < dims.columns
    ensures CoversAfter(r, dims, s, p)
       <==> s.Within(p.line) && r.Covers(Point(p.line + s.delta, p.column))
  {
    if r.Swapped() {
      Unswapped(r, dims, s, p, Point(p.line + s.delta, p.column));
      RotateOrdered(r.(start := r.end, end := r.start), dims, s, p);
    } else {
      RotateOrdered(r, dims, s, p);
    }
  }

  /** Which anchor is called the start does not matter for covering and rotating. */
  lemma Unswapped(r: Region, dims: Dimensions, s: Scroll, p: Point, q: Point)
    requires r.Valid(dims) && r.Swapped()
    ensures var u := r.(start := r.end, end := r.start);
            && u.Valid(dims) && !u.Swapped()
            && (StuckAtBottom(u, dims, s) <==> StuckAtBottom(r, dims, s))
            && (CoversAfter(u, dims, s, p) <==> CoversAfter(r, dims, s, p))
            && (u.Covers(q) <==> r.Covers(q))
  {
  }

  lemma RotateOrdered(r: Region, dims: Dimensions, s: Scroll, p: Point)
    requires r.Valid(dims) && 0 <= s.top < s.bottom && s.top <= dims.Bottommost()
    requires s.Within(r.start.point.line) && s.Within(r.end.point.line)
    requires !r.Swapped() && !StuckAtBottom(r, dims, s)
    requires p.line <= dims.Bottommost() && p.column < dims.columns
    ensures CoversAfter(r, dims, s, p)
       <==> s.Within(p.line) && r.Covers(Point(p.line + s.delta, p.column))
  {
    if r.ty == Block {
      RotateBlock(r, dims, s, p);
    } else {
      RotateRun(r, dims, s, p);
    }
  }

  lemma RotateBlock(r: Region, dims: Dimensions, s: Scroll, p: Point)
    requires r.Valid(dims) && 0 <= s.top < s.bottom && s.top <= dims.Bottommost() && r.ty == Block
    requires s.Within(r.start.point.line) && s.Within(r.end.point.line)
    requires !r.Swapped() && !StuckAtBottom(r, dims, s)
    requires p.line <= dims.Bottommost() && p.column < dims.columns
    ensures CoversAfter(r, dims, s, p)
       <==> s.Within(p.line) && r.Covers(Point(p.line + s.delta, p.column))
  {
    var moved := RotateAnchors(Block, r.start, r.end, dims, s);
    if moved.Some? {
      var q := r.(start := moved.value.0, end := moved.value.1);
      BlockCovers(q, p);
      assert q.start.ColumnEdge() == r.start.ColumnEdge() && q.end.ColumnEdge() == r.end.ColumnEdge();
    }
    BlockCovers(r, Point(p.line + s.delta, p.column));
  }

  /** A block covers the columns between its edges, on the lines from one anchor to the other. */
  lemma BlockCovers(r: Region, p: Point)
    requires r.ty == Block && r.start.point.line <= r.end.point.line
    ensures r.Covers(p)
       <==> r.start.point.line <= p.line <= r.end.point.line
            && (r.start.ColumnEdge() <= p.column) != (r.end.ColumnEdge() <= p.column)
  {
  }

  lemma RotateRun(r: Region, dims: Dimensions, s: Scroll, p: Point)
    requires r.Valid(dims) && 0 <= s.top < s.bottom && s.top <= dims.Bottommost() && r.ty != Block
    requires s.Within(r.start.point.line) && s.Within(r.end.point.line)
    requires !r.Swapped() && !StuckAtBottom(r, dims, s)
    requires p.line <= dims.Bottommost() && p.column < dims.columns
    ensures CoversAfter(r, dims, s, p)
       <==> s.Within(p.line) && r.Covers(Point(p.line + s.delta, p.column))
  {
  }

  lemma RotateStuck(r: Region, dims: Dimensions, s: Scroll)
    requires r.Valid(dims) && 0 <= s.top < s.bottom && s.top <= dims.Bottommost()
    requires s.Within(r.start.point.line) && s.Within(r.end.point.line)
    requires StuckAtBottom(r, dims, s)
    ensures !TracksContent(r, dims, s)
  {
    if r.Swapped() {
      var u := r.(start := r.end, end := r.start);
      Unswapped(r, dims, s, r.start.point, r.start.point);
      var p := StuckCell(u, dims, s);
      Unswapped(r, dims, s, p, Point(p.line + s.delta, p.column));
    } else {
      var p := StuckCell(r, dims, s);
    }
  }

  /** Cells of line 1 scrolled two lines down on a screen of three lines stay selected on line 2. */
  lemma ScrolledAwayStaysSelected()
    ensures var r := Region(Simple, Anchor(Point(1, 0), Left), Anchor(Point(1, 4), Right));
            var dims, s := Dimensions(3, 3, 10), Scroll(0, 3, -2);
            && StuckAtBottom(r, dims, s) && CoversAfter(r, dims, s, Point(2, 0))
            && !r.Covers(Point(2 + s.delta, 0))
  {
  }

  /** A cell of the bottom line that is covered and should not be. */
  lemma StuckCell(r: Region, dims: Dimensions, s: Scroll) returns (p: Point)
    requires r.Valid(dims) && !r.Swapped() && 0 <= s.top < s.bottom && s.top <= dims.Bottommost()
    requires s.Within(r.start.point.line) && s.Within(r.end.point.line)
    requires StuckAtBottom(r, dims, s)
    ensures p.line <= dims.Bottommost() && p.column < dims.columns
    ensures CoversAfter(r, dims, s, p)
         != (s.Within(p.line) && r.Covers(Point(p.line + s.delta, p.column)))
  {
    if r.First().point.line - s.delta > dims.Bottommost() {
      p := Point(dims.Bottommost(), Min(r.First().ColumnEdge(), r.Last().ColumnEdge()));
    } else {
      p := Point(dims.Bottommost(), dims.LastColumn());
    }
  }

  // ----- Each anchor on its own -----

  function Exchanged(r: Region): Region { r.(start := r.end, end := r.start) }

  /** Rotating does not depend on which anchor was set first, and keeps them apart. */
  lemma RotateExchanged(r: Region, dims: Dimensions, s: Scroll)
    requires dims.Valid() && r.start.point != r.end.point
    ensures Rotated(Exchanged(r), dims, s)
         == match Rotated(r, dims, s)
            case None => None
            case Some(q) => Some(Exchanged(q))
  {
  }

  /** An anchor of the region that stays in it moves up by delta, and one outside stays where it is. */
  predicate IsAnchorMoved(a: Anchor, a': Anchor, s: Scroll) {
    && (!s.Within(a.point.line) ==> a' == a)
    && (s.Within(a.point.line) && s.Within(a.point.line - s.delta) ==>
          a' == Anchor(Point(a.point.line - s.delta, a.point.column), a.side))
  }

  /**
   The start and the end of a selection that is kept are the old start and end, each moved as it would
   be on its own; a block's anchors keep their columns and sides even when they are cut.
   */
  lemma RotateMovesAnchors(r: Region, dims: Dimensions, s: Scroll)
    requires dims.Valid() && 0 <= s.top < s.bottom <= dims.screenLines
    requires Rotated(r, dims, s).Some?
    ensures var q := Rotated(r, dims, s).value;
            && q.ty == r.ty && IsAnchorMoved(r.start, q.start, s) && IsAnchorMoved(r.end, q.end, s)
            && (r.ty == Block ==>
                  && q.start.ColumnEdge() == r.start.ColumnEdge() && q.start.side == r.start.side
                  && q.end.ColumnEdge() == r.end.ColumnEdge() && q.end.side == r.end.side)
  {
  }

  // ----- Scrolling a part of a selection -----

  /** After the scroll the cell shows what was on screen before; other lines of the region are blank. */
  predicate ShowsOld(s: Scroll, p: Point) {
    s.Within(p.line) ==> s.Within(p.line + s.delta)
  }

  /** Where the content of such a cell was. */
  function Origin(s: Scroll, p: Point): Point {
    if s.Within(p.line) then Point(p.line + s.delta, p.column) else p
  }

  /** What was covered and is still there stays covered, and nothing else that was there becomes so. */
  ghost predicate KeepsContent(r: Region, dims: Dimensions, s: Scroll) {
    dims.Valid() &&
    forall p: Point :: p.line <= dims.Bottommost() && p.column < dims.columns && ShowsOld(s, p) ==>
      (CoversAfter(r, dims, s, p) <==> r.Covers(Origin(s, p)))
  }

  /**
   A selection that is not all in the region is kept together if the anchor that moves stays on its
   side of the region's border, or comes to lie exactly on it; nothing is lost either where there is
   nothing to select on the other side. The bottom line of the screen holds on to content as before.
   */
  predicate StaysTogether(r: Region, dims: Dimensions, s: Scroll) {
    var (first, last) := (r.First(), r.Last());
    var to := last.point.line - s.delta;
    var from := Min(first.point.line - s.delta, dims.Bottommost());
    if s.Within(last.point.line) then
      if r.ty == Block then first.ColumnEdge() == last.ColumnEdge() || to >= s.top - 1
      else if to > dims.Bottommost() && s.bottom > dims.Bottommost() then
        last.ColumnEdge() == dims.columns || dims.Bottommost() + s.delta < s.top
      else
        || to >= s.top
        || (to == s.top - 1 && last.ColumnEdge() == dims.columns)
        || (to < s.top - 1 && first.point.line == s.top - 1 && first.ColumnEdge() == dims.columns)
    else if s.Within(first.point.line) then
      if r.ty == Block then first.ColumnEdge() == last.ColumnEdge() || from <= s.bottom
      else from < s.bottom || (from == s.bottom && first.ColumnEdge() == 0)
    else true
  }

  predicate OnScreen(r: Region, dims: Dimensions, s: Scroll) {
    && r.Valid(dims) && 0 <= s.top < s.bottom <= dims.screenLines
    && r.start.point.line <= dims.Bottommost() && r.end.point.line <= dims.Bottommost()
  }

  /**
   A selection that reaches out of the scrolled region keeps its content if and only if it stays
   together; one that is all outside always does.
   */
  lemma RotateAcrossRegion(r: Region, dims: Dimensions, s: Scroll)
    requires OnScreen(r, dims, s)
    requires !s.Within(r.start.point.line) || !s.Within(r.end.point.line)
    ensures KeepsContent(r, dims, s) <==> StaysTogether(r, dims, s)
  {
    if r.Swapped() {
      var u := r.(start := r.end, end := r.start);
      forall p: Point ensures CoversAfter(u, dims, s, p) <==> CoversAfter(r, dims, s, p)
                      ensures u.Covers(p) <==> r.Covers(p)
      {
        Unswapped(r, dims, s, p, p);
      }
      Unswapped(r, dims, s, r.start.point, r.start.point);
      RotateOrderedAcross(u, dims, s);
    } else {
      RotateOrderedAcross(r, dims, s);
    }
  }

  lemma RotateOrderedAcross(r: Region, dims: Dimensions, s: Scroll)
    requires OnScreen(r, dims, s) && !r.Swapped()
    requires !s.Within(r.start.point.line) || !s.Within(r.end.point.line)
    ensures KeepsContent(r, dims, s) <==> StaysTogether(r, dims, s)
  {
    if StaysTogether(r, dims, s) {
      forall p: Point | p.line <= dims.Bottommost() && p.column < dims.columns && ShowsOld(s, p)
        ensures CoversAfter(r, dims, s, p) <==> r.Covers(Origin(s, p))
      {
        TogetherCell(r, dims, s, p);
      }
    } else {
      var p := TornCell(r, dims, s);
    }
  }

  lemma TogetherCell(r: Region, dims: Dimensions, s: Scroll, p: Point)
    requires OnScreen(r, dims, s) && !r.Swapped() && StaysTogether(r, dims, s)
    requires !s.Within(r.start.point.line) || !s.Within(r.end.point.line)
    requires p.line <= dims.Bottommost() && p.column < dims.columns && ShowsOld(s, p)
    ensures CoversAfter(r, dims, s, p) <==> r.Covers(Origin(s, p))
  {
    if !s.Within(r.start.point.line) && !s.Within(r.end.point.line) {
      assert Rotated(r, dims, s) == Some(r);
    } else if r.ty == Block {
      TogetherBlock(r, dims, s, p);
    } else if s.Within(r.end.point.line) {
      TogetherFromAbove(r, dims, s, p);
    } else {
      TogetherFromBelow(r, dims, s, p);
    }
  }

  lemma TogetherBlock(r: Region, dims: Dimensions, s: Scroll, p: Point)
    requires OnScreen(r, dims, s) && !r.Swapped() && StaysTogether(r, dims, s) && r.ty == Block
    requires s.Within(r.start.point.line) != s.Within(r.end.point.line)
    requires p.line <= dims.Bottommost() && p.column < dims.columns && ShowsOld(s, p)
    ensures CoversAfter(r, dims, s, p) <==> r.Covers(Origin(s, p))
  {
  }

  lemma TogetherFromAbove(r: Region, dims: Dimensions, s: Scroll, p: Point)
    requires OnScreen(r, dims, s) && !r.Swapped() && StaysTogether(r, dims, s) && r.ty != Block
    requires !s.Within(r.start.point.line) && s.Within(r.end.point.line)
    requires p.line <= dims.Bottommost() && p.column < dims.columns && ShowsOld(s, p)
    ensures CoversAfter(r, dims, s, p) <==> r.Covers(Origin(s, p))
  {
  }

  lemma TogetherFromBelow(r: Region, dims: Dimensions, s: Scroll, p: Point)
    requires OnScreen(r, dims, s) && !r.Swapped() && StaysTogether(r, dims, s) && r.ty != Block
    requires s.Within(r.start.point.line) && !s.Within(r.end.point.line)
    requires p.line <= dims.Bottommost() && p.column < dims.columns && ShowsOld(s, p)
    ensures CoversAfter(r, dims, s, p) <==> r.Covers(Origin(s, p))
  {
  }

  /** A cell whose content is lost from the selection, or wrongly becomes selected. */
  lemma TornCell(r: Region, dims: Dimensions, s: Scroll) returns (p: Point)
    requires OnScreen(r, dims, s) && !r.Swapped() && !StaysTogether(r, dims, s)
    requires !s.Within(r.start.point.line) || !s.Within(r.end.point.line)
    ensures p.line <= dims.Bottommost() && p.column < dims.columns && ShowsOld(s, p)
    ensures CoversAfter(r, dims, s, p) != r.Covers(Origin(s, p))
  {
    if s.Within(r.end.point.line) {
      p := TornFromAbove(r, dims, s);
    } else {
      p := TornFromBelow(r, dims, s);
    }
  }

  lemma TornFromAbove(r: Region, dims: Dimensions, s: Scroll) returns (p: Point)
    requires OnScreen(r, dims, s) && !r.Swapped() && !StaysTogether(r, dims, s)
    requires !s.Within(r.start.point.line) && s.Within(r.end.point.line)
    ensures p.line <= dims.Bottommost() && p.column < dims.columns && ShowsOld(s, p)
    ensures CoversAfter(r, dims, s, p) != r.Covers(Origin(s, p))
  {
    var first, last := r.start.ColumnEdge(), r.end.ColumnEdge();
    var to := r.end.point.line - s.delta;
    p := if r.ty == Block then Point(s.top - 1, Min(first, last))
         else if to > dims.Bottommost() then Point(dims.Bottommost(), last)
         else if to == s.top - 1 then Point(s.top - 1, last)
         else Point(s.top - 1, if r.start.point.line < s.top - 1 then 0 else first);
  }

  lemma TornFromBelow(r: Region, dims: Dimensions, s: Scroll) returns (p: Point)
    requires OnScreen(r, dims, s) && !r.Swapped() && !StaysTogether(r, dims, s)
    requires s.Within(r.start.point.line) && !s.Within(r.end.point.line)
    ensures p.line <= dims.Bottommost() && p.column < dims.columns && ShowsOld(s, p)
    ensures CoversAfter(r, dims, s, p) != r.Covers(Origin(s, p))
  {
    var column := Min(r.start.ColumnEdge(), r.end.ColumnEdge());
    p := if r.ty != Block then Point(s.bottom, 0)
         else if r.end.point.line > s.bottom then Point(s.bottom, column)
         else Point(Min(r.start.point.line - s.delta, dims.Bottommost()), column);
  }

  /** Two lines above the region and three in it, scrolled up by three: all of the selection is dropped. */
  lemma ScrollingDropsWhatStays()
    ensures var r := Region(Simple, Anchor(Point(0, 0), Left), Anchor(Point(2, 4), Right));
            var dims, s := Dimensions(6, 6, 10), Scroll(2, 5, 3);
            && !StaysTogether(r, dims, s) && Rotated(r, dims, s) == None
            && r.Covers(Point(1, 0)) && Origin(s, Point(1, 0)) == Point(1, 0)
  {
  }

  // ----- The selection object -----

  class Selection {
    var ty: SelectionType
    var start: Anchor
    var end: Anchor

    function View(): Region
      reads this
    {
      Region(ty, start, end)
    }

    constructor (ty: SelectionType, location: Point, side: Side)
      ensures View() == Region(ty, Anchor(location, side), Anchor(location, side))
    {
      this.ty := ty;
      start, end := Anchor(location, side), Anchor(location, side);
    }

    method Update(point: Point, side: Side)
      modifies this
      ensures View() == old(View()).(end := Anchor(point, side))
    {
      end := Anchor(point, side);
    }

    method IncludeAll()
      modifies this
      ensures View() == Expanded(old(View()))
    {
      var startSide, endSide := Left, Right;
      if ty == Block {
        if start.point.column > end.point.column
           || (start.point.column == end.point.column && start.point.line > end.point.line) {
          startSide, endSide := Right, Left;
        }
      } else if end.point.Less(start.point) {
        startSide, endSide := Right, Left;
      }
      start, end := start.(side := startSide), end.(side := endSide);
    }

    /** `rotate`; the selection is dropped when it is not kept. */
    method Rotate(dims: Dimensions, s: Scroll) returns (kept: bool)
      requires dims.Valid()
      modifies this
      ensures kept == Rotated(old(View()), dims, s).Some?
      ensures kept ==> View() == Rotated(old(View()), dims, s).value
    {
      var swapped := end.point.Less(start.point);
      var first, last := start, end;
      if swapped {
        first, last := end, start;
      }

      var moved := MoveAnchors(ty, first, last, dims, s);
      if moved.None? {
        return false;
      }

      first, last := moved.value.0, moved.value.1;
      start, end := first, last;
      if swapped {
        start, end := last, first;
      }
      return true;
    }
  }

  /** The part of `rotate` between ordering the anchors and restoring their order. */
  method MoveAnchors(ty: SelectionType, start: Anchor, end: Anchor, dims: Dimensions, s: Scroll)
    returns (moved: Option<(Anchor, Anchor)>)
    requires dims.Valid()
    ensures moved == RotateAnchors(ty, start, end, dims, s)
  {
    var first, last := start, end;

    if (first.point.line >= s.top || s.top == 0) && first.point.line < s.bottom {
      first := first.(point := first.point.(line := Min(first.point.line - s.delta, dims.Bottommost())));
      if first.point.line >= s.bottom && last.point.line < s.bottom {
        return None;
      }
      if first.point.line < s.top && s.top != 0 {
        if ty != Block {
          first := Anchor(Point(first.point.line, 0), Left);
        }
        first := first.(point := first.point.(line := s.top));
      }
    }

    if (last.point.line >= s.top || s.top == 0) && last.point.line < s.bottom {
      last := last.(point := last.point.(line := Min(last.point.line - s.delta, dims.Bottommost())));
      if last.point.line < first.point.line {
        return None;
      }
      if last.point.line >= s.bottom {
        if ty != Block {
          last := Anchor(Point(last.point.line, dims.LastColumn()), Right);
        }
        last := last.(point := last.point.(line := s.bottom - 1));
      }
    }

    return Some((first, last));
  }
}
