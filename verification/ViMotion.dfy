/** Moving by whitespace separated words, like W, B, E and gE in vi. */
module ViMotion {
  import opened Arithmetic
  import opened GridIndex

  /** A wide character is followed by a spacer, and preceded by another one if it did not fit. */
  datatype CellWidth = Narrow | Wide | Spacer | LeadingSpacer

  datatype Cell = Cell(c: char, width: CellWidth)

  predicate IsBlank(cell: Cell) {
    !cell.width.Spacer? && !cell.width.LeadingSpacer? && (cell.c == ' ' || cell.c == '\t')
  }

  /** A terminal grid, with its cells in reading order. */
  datatype Term = Term(dims: Dimensions, cells: seq<Cell>) {
    predicate Valid() {
      dims.Valid() && |cells| == dims.Cells()
    }

    predicate InGrid(p: Point) {
      dims.InGrid(p)
    }

    function At(p: Point): Cell
      requires Valid() && InGrid(p)
    {
      InGridIndex(p, dims);
      cells[dims.Index(p)]
    }

    predicate IsSpace(p: Point)
      requires Valid() && InGrid(p)
    {
      IsBlank(At(p))
    }

    function Advance(p: Point, direction: Direction): Point
      requires Valid()
    {
      if direction == Left then Sub(p, dims, Grid, 1) else Add(p, dims, Grid, 1)
    }

    predicate IsBoundary(p: Point, direction: Direction) {
      || (p.line <= dims.Topmost() && p.column == 0 && direction == Left)
      || (p.line == dims.Bottommost() && p.column + 1 >= dims.columns && direction == Right)
    }

    /** The cells in the order in which a motion in this direction meets them. */
    function Track(direction: Direction): seq<Cell> {
      if direction == Right then cells else Reverse(cells)
    }

    /** Where a point is on the track. */
    function Position(p: Point, direction: Direction): nat
      requires Valid() && InGrid(p)
    {
      InGridIndex(p, dims);
      if direction == Right then dims.Index(p) else dims.Cells() - 1 - dims.Index(p)
    }

    /** A step moves one cell along the track and stops at its end, and so do the tests. */
    lemma Step(p: Point, direction: Direction)
      requires Valid() && InGrid(p)
      ensures Position(p, direction) < |cells|
      ensures InGrid(Advance(p, direction))
      ensures Position(Advance(p, direction), direction)
           == Min(|cells| - 1, Position(p, direction) + 1)
      ensures IsBoundary(p, direction) <==> Position(p, direction) == |cells| - 1
      ensures IsSpace(p) <==> IsBlank(Track(direction)[Position(p, direction)])
    {
      InGridIndex(p, dims);
      var q := Advance(p, direction);
      if direction == Left {
        SubIsIndexSubtraction(p, dims, 1);
        assert dims.Index(q) == Max(0, dims.Index(p) - 1);
        FirstCell(p);
      } else {
        AddIsIndexAddition(p, dims, 1);
        assert dims.Index(q) == Min(dims.Cells() - 1, dims.Index(p) + 1);
        LastCell(p);
      }
    }

    lemma FirstCell(p: Point)
      requires Valid() && InGrid(p)
      ensures p.line <= dims.Topmost() && p.column == 0 <==> dims.Index(p) == 0
    {
      LineOrder(p, Point(dims.Topmost(), 0), dims);
      assert dims.Index(Point(dims.Topmost(), 0)) == 0;
    }

    lemma LastCell(p: Point)
      requires Valid() && InGrid(p)
      ensures p.line == dims.Bottommost() && p.column + 1 >= dims.columns
         <==> dims.Index(p) == dims.Cells() - 1
    {
      CornerIndex(dims);
      LineOrder(p, Point(dims.Bottommost(), dims.LastColumn()), dims);
    }
  }

  // ----- Wide characters -----

  /** Where looking for the end of a wide character stays in the grid. */
  predicate IsExpandable(term: Term, p: Point, direction: Direction)
    requires term.Valid() && term.InGrid(p)
  {
    if direction == Right then
      term.At(p).width.LeadingSpacer? ==> p.line < term.dims.Bottommost() && term.dims.columns >= 2
    else term.At(p).width.Spacer? ==> p.column > 0
  }

  function ExpandWide(term: Term, p: Point, direction: Direction): (q: Point)
    requires term.Valid() && term.InGrid(p) && IsExpandable(term, p, direction)
    ensures term.InGrid(q)
  {
    var width := term.At(p).width;
    if direction == Right then
      if width.LeadingSpacer? then Point(p.line + 1, 1)
      else if width.Wide? then Point(p.line, Min(p.column + 1, term.dims.LastColumn()))
      else p
    else if width.Wide? || width.Spacer? then
      var first := if width.Spacer? then Point(p.line, p.column - 1) else p;
      SubIsIndexSubtraction(first, term.dims, 1);
      var before := Sub(first, term.dims, Grid, 1);
      if term.At(before).width.LeadingSpacer? then before else first
    else p
  }

  /** The wide character that the cell belongs to has all its cells. */
  predicate IsWholeAt(term: Term, p: Point)
    requires term.Valid() && term.InGrid(p)
  {
    match term.At(p).width
    case Narrow => true
    case Wide =>
      && p.column < term.dims.LastColumn()
      && term.At(Point(p.line, p.column + 1)).width.Spacer?
    case Spacer => p.column > 0 && term.At(Point(p.line, p.column - 1)).width.Wide?
    case LeadingSpacer =>
      && p.column == term.dims.LastColumn() && p.line < term.dims.Bottommost()
      && term.At(Point(p.line + 1, 0)).width.Wide?
  }

  ghost predicate IsWhole(term: Term)
    requires term.Valid()
  {
    forall p: Point :: term.InGrid(p) ==> IsWholeAt(term, p)
  }

  /** The cell and the one after it belong to one wide character. */
  predicate IsJoined(cells: seq<Cell>, i: int) {
    0 <= i < |cells| - 1 &&
    match cells[i].width
    case LeadingSpacer => cells[i + 1].width.Wide?
    case Wide => cells[i + 1].width.Spacer?
    case _ => false
  }

  predicate AllJoined(cells: seq<Cell>, from: int, to: int) {
    forall i :: from <= i < to ==> IsJoined(cells, i)
  }

  /** Expanding leads to the last or the first cell of the character that the point is in. */
  lemma ExpandWideEndsCharacter(term: Term, p: Point, direction: Direction)
    requires term.Valid() && term.InGrid(p) && IsWhole(term)
    ensures IsExpandable(term, p, direction)
    ensures var from, to := term.dims.Index(p), term.dims.Index(ExpandWide(term, p, direction));
            if direction == Right then
              from <= to && AllJoined(term.cells, from, to) && !IsJoined(term.cells, to)
            else
              to <= from && AllJoined(term.cells, to, from) && !IsJoined(term.cells, to - 1)
  {
    InGridIndex(p, term.dims);
    if direction == Right {
      ExpandRight(term, p);
    } else {
      ExpandLeft(term, p);
    }
  }

  lemma NextLine(p: Point, dims: Dimensions)
    requires dims.Valid() && p.column == dims.LastColumn()
    ensures dims.Index(Point(p.line + 1, 0)) == dims.Index(p) + 1
  {
    Distribute(p.line - dims.Topmost(), 1, dims.columns);
  }

  lemma ExpandRight(term: Term, p: Point)
    requires term.Valid() && term.InGrid(p) && IsWhole(term)
    ensures IsExpandable(term, p, Right)
    ensures var from, to := term.dims.Index(p), term.dims.Index(ExpandWide(term, p, Right));
            from <= to && AllJoined(term.cells, from, to) && !IsJoined(term.cells, to)
  {
    InGridIndex(p, term.dims);
    assert IsWholeAt(term, p);
    if term.At(p).width.LeadingSpacer? {
      var wide, spacer := Point(p.line + 1, 0), Point(p.line + 1, 1);
      NextLine(p, term.dims);
      assert IsWholeAt(term, wide);
      InGridIndex(wide, term.dims);
      InGridIndex(spacer, term.dims);
      assert term.dims.Index(spacer) == term.dims.Index(p) + 2;
    } else if term.At(p).width.Wide? {
      InGridIndex(Point(p.line, p.column + 1), term.dims);
    }
  }

  lemma ExpandLeft(term: Term, p: Point)
    requires term.Valid() && term.InGrid(p) && IsWhole(term)
    ensures IsExpandable(term, p, Left)
    ensures var from, to := term.dims.Index(p), term.dims.Index(ExpandWide(term, p, Left));
            to <= from && AllJoined(term.cells, to, from) && !IsJoined(term.cells, to - 1)
  {
    InGridIndex(p, term.dims);
    assert IsWholeAt(term, p);
    if term.At(p).width.Spacer? {
      var wide := Point(p.line, p.column - 1);
      InGridIndex(wide, term.dims);
      ExpandFromWide(term, wide);
    } else if term.At(p).width.Wide? {
      ExpandFromWide(term, p);
    }
  }

  lemma ExpandFromWide(term: Term, p: Point)
    requires term.Valid() && term.InGrid(p) && IsWhole(term) && term.At(p).width.Wide?
    ensures var from, to := term.dims.Index(p), term.dims.Index(ExpandWide(term, p, Left));
            to <= from && AllJoined(term.cells, to, from) && !IsJoined(term.cells, to - 1)
  {
    InGridIndex(p, term.dims);
    SubIsIndexSubtraction(p, term.dims, 1);
    var before := Sub(p, term.dims, Grid, 1);
    InGridIndex(before, term.dims);
    assert term.dims.Index(before) == Max(0, term.dims.Index(p) - 1);
  }

  // ----- What the motions look for -----

  /** First or last cell of a word, in reading order. */
  predicate IsWordEdge(cells: seq<Cell>, i: int, side: Side)
    requires 0 <= i < |cells|
  {
    && !IsBlank(cells[i])
    && if side == Left then i == 0 || IsBlank(cells[i - 1])
       else i == |cells| - 1 || IsBlank(cells[i + 1])
  }

  predicate NoWordEdge(cells: seq<Cell>, from: int, to: int, side: Side)
    requires 0 <= from && to <= |cells|
  {
    forall i :: from <= i < to ==> !IsWordEdge(cells, i, side)
  }

  /**
   The cell that a motion from `start` goes to: the nearest word start (side Left) or word end
   (side Right) strictly after or before it, or else the last or the first cell of the grid.
   */
  predicate IsTarget(cells: seq<Cell>, start: int, direction: Direction, side: Side, target: int)
    requires 0 <= start < |cells|
  {
    && 0 <= target < |cells|
    && if direction == Right then
         || (start < target && IsWordEdge(cells, target, side)
             && NoWordEdge(cells, start + 1, target, side))
         || (target == |cells| - 1 && NoWordEdge(cells, start + 1, |cells|, side))
       else
         || (target < start && IsWordEdge(cells, target, side)
             && NoWordEdge(cells, target + 1, start, side))
         || (target == 0 && NoWordEdge(cells, 0, start, side))
  }

  lemma TargetUnique(cells: seq<Cell>, start: int, direction: Direction, side: Side, a: int, b: int)
    requires 0 <= start < |cells|
    requires IsTarget(cells, start, direction, side, a) && IsTarget(cells, start, direction, side, b)
    ensures a == b
  {
  }

  /** Moving to the next word edge and back returns to the word edge one came from. */
  lemma BackUndoesForward(cells: seq<Cell>, start: int, side: Side, target: int)
    requires 0 <= start < |cells| && IsWordEdge(cells, start, side)
    requires IsTarget(cells, start, Right, side, target)
    requires start < target && IsWordEdge(cells, target, side)
    ensures IsTarget(cells, target, Left, side, start)
  {
  }

  // ----- The same on the track of a motion -----

  /** A motion meets the near edge of a word first and its far edge last. */
  predicate IsTrackEdge(track: seq<Cell>, i: int, far: bool)
    requires 0 <= i < |track|
  {
    IsWordEdge(track, i, if far then Right else Left)
  }

  predicate IsTrackTarget(track: seq<Cell>, start: int, far: bool, target: int)
    requires 0 <= start < |track|
  {
    IsTarget(track, start, Right, if far then Right else Left, target)
  }

  function Opposite(side: Side): Side { if side == Left then Right else Left }

  function Reverse(cells: seq<Cell>): seq<Cell> {
    seq(|cells|, i requires 0 <= i < |cells| => cells[|cells| - 1 - i])
  }

  lemma MirrorEdge(cells: seq<Cell>, i: int, side: Side)
    requires 0 <= i < |cells|
    ensures IsWordEdge(cells, i, side)
       <==> IsWordEdge(Reverse(cells), |cells| - 1 - i, Opposite(side))
  {
  }

  lemma MirrorNoEdge(cells: seq<Cell>, from: int, to: int, side: Side)
    requires 0 <= from <= to <= |cells|
    requires NoWordEdge(Reverse(cells), |cells| - to, |cells| - from, Opposite(side))
    ensures NoWordEdge(cells, from, to, side)
  {
    forall i | from <= i < to ensures !IsWordEdge(cells, i, side) {
      MirrorEdge(cells, i, side);
      assert |cells| - to <= |cells| - 1 - i < |cells| - from;
    }
  }

  /** A motion to the left is a motion to the right on the reversed cells. */
  lemma MirrorTarget(cells: seq<Cell>, start: int, side: Side, target: int)
    requires 0 <= start < |cells| && 0 <= target < |cells|
    requires IsTarget(Reverse(cells), |cells| - 1 - start, Right, Opposite(side), |cells| - 1 - target)
    ensures IsTarget(cells, start, Left, side, target)
  {
    if target == 0 && NoWordEdge(Reverse(cells), |cells| - start, |cells|, Opposite(side)) {
      MirrorNoEdge(cells, 0, start, side);
    } else {
      MirrorEdge(cells, target, side);
      MirrorNoEdge(cells, target + 1, start, side);
    }
  }

  lemma TrackIsMirror(term: Term, start: Point, direction: Direction, side: Side, target: Point)
    requires term.Valid() && term.InGrid(start) && term.InGrid(target)
    requires term.Position(start, direction) < |term.cells|
    requires 0 <= term.dims.Index(start) < |term.cells|
    requires IsTrackTarget(term.Track(direction), term.Position(start, direction),
                           direction == side, term.Position(target, direction))
    ensures IsTarget(term.cells, term.dims.Index(start), direction, side, term.dims.Index(target))
  {
    InGridIndex(target, term.dims);
    if direction == Left {
      MirrorTarget(term.cells, term.dims.Index(start), side, term.dims.Index(target));
    }
  }

  /** Blank cells, or cells of words, on a stretch of the track. */
  predicate All(track: seq<Cell>, from: int, to: int, blank: bool)
    requires 0 <= from && to <= |track|
  {
    forall i :: from <= i < to ==> IsBlank(track[i]) == blank
  }

  lemma FarTarget(track: seq<Cell>, start: int, mid: int, end: int)
    requires 0 <= start <= mid <= end < |track|
    requires All(track, start + 1, mid + 1, true) && All(track, mid + 1, end + 1, false)
    requires mid == |track| - 1 || !IsBlank(track[mid + 1])
    requires end == |track| - 1 || IsBlank(track[end + 1])
    ensures IsTrackTarget(track, start, true, end)
  {
    forall i | start < i < end ensures !IsTrackEdge(track, i, true) {
      assert IsBlank(track[i]) || !IsBlank(track[i + 1]);
    }
  }

  lemma NearTarget(track: seq<Cell>, start: int, mid: int, end: int)
    requires 0 <= start <= mid <= end < |track|
    requires All(track, start, mid, false) && All(track, mid, end, true)
    requires mid == |track| - 1 || IsBlank(track[mid])
    requires end == |track| - 1 || !IsBlank(track[end])
    ensures IsTrackTarget(track, start, false, end)
  {
    forall i | start < i < end ensures !IsTrackEdge(track, i, false) {
      assert IsBlank(track[i]) || !IsBlank(track[i - 1]);
    }
  }

  // ----- Motions between wide characters -----

  /** What a motion promises: the target beyond the far end of the character it starts in. */
  predicate IsWordMotion(term: Term, start: Point, direction: Direction, side: Side, point: Point)
    requires term.Valid() && term.InGrid(start) && IsExpandable(term, start, direction)
  {
    term.InGrid(point) &&
    var from := term.dims.Index(ExpandWide(term, start, direction));
    InGridIndex(ExpandWide(term, start, direction), term.dims);
    IsTarget(term.cells, from, direction, side, term.dims.Index(point))
  }

  /** Wide characters are no whitespace. */
  predicate WideIsSolid(cells: seq<Cell>) {
    forall i :: 0 <= i < |cells| && cells[i].width.Wide? ==> !IsBlank(cells[i])
  }

  predicate IsEdgeAt(term: Term, p: Point, side: Side)
    requires term.Valid() && term.InGrid(p)
  {
    InGridIndex(p, term.dims);
    IsWordEdge(term.cells, term.dims.Index(p), side)
  }

  /** Inside a character there is no word edge, except for its outer edge on that side. */
  lemma NoEdgeInCharacter(cells: seq<Cell>, from: int, to: int)
    requires 0 <= from <= to < |cells| && AllJoined(cells, from, to) && WideIsSolid(cells)
    ensures NoWordEdge(cells, from + 1, to + 1, Left) && NoWordEdge(cells, from, to, Right)
  {
    forall i | from < i <= to ensures !IsWordEdge(cells, i, Left) {
      assert IsJoined(cells, i - 1);
    }
    forall i | from <= i < to ensures !IsWordEdge(cells, i, Right) {
      assert IsJoined(cells, i);
    }
  }

  /** From a word edge, the motion to the right behaves as if its character were one cell. */
  lemma ForwardTarget(cells: seq<Cell>, start: int, end: int, side: Side, target: int)
    requires 0 <= start <= end < |cells| && AllJoined(cells, start, end) && WideIsSolid(cells)
    requires IsWordEdge(cells, start, side) && IsTarget(cells, end, Right, side, target)
    requires start < target && IsWordEdge(cells, target, side)
    ensures IsTarget(cells, start, Right, side, target)
  {
    NoEdgeInCharacter(cells, start, end);
  }

  /** And so does the motion to the left. */
  lemma BackwardTarget(cells: seq<Cell>, first: int, start: int, side: Side, target: int)
    requires 0 <= first <= start < |cells| && AllJoined(cells, first, start) && WideIsSolid(cells)
    requires IsWordEdge(cells, start, side) && IsTarget(cells, first, Left, side, target)
    ensures IsTarget(cells, start, Left, side, target)
  {
    NoEdgeInCharacter(cells, first, start);
  }

  /**
   A motion to the next word edge and one back lead to the word edge they started from, on every grid
   whose wide characters are whole and no whitespace.
   */
  lemma MotionBackUndoesForward(term: Term, start: Point, side: Side, target: Point, back: Point)
    requires term.Valid() && IsWhole(term) && WideIsSolid(term.cells)
    requires term.InGrid(start) && term.InGrid(target) && IsEdgeAt(term, start, side)
    requires IsExpandable(term, start, Right) && IsExpandable(term, target, Left)
    requires IsWordMotion(term, start, Right, side, target)
    requires start.Less(target) && IsEdgeAt(term, target, side)
    requires IsWordMotion(term, target, Left, side, back)
    ensures back == start
  {
    var dims, cells := term.dims, term.cells;
    var from, to := dims.Index(start), dims.Index(target);
    InGridIndex(start, dims);
    InGridIndex(target, dims);
    LineOrder(start, target, dims);
    ExpandWideEndsCharacter(term, start, Right);
    ExpandWideEndsCharacter(term, target, Left);
    InGridIndex(ExpandWide(term, start, Right), dims);
    InGridIndex(ExpandWide(term, target, Left), dims);
    ForwardTarget(cells, from, dims.Index(ExpandWide(term, start, Right)), side, to);
    BackwardTarget(cells, dims.Index(ExpandWide(term, target, Left)), to, side, dims.Index(back));
    BackUndoesForward(cells, from, side, to);
    TargetUnique(cells, to, Left, side, from, dims.Index(back));
    LineOrder(start, back, dims);
  }

  // ----- The motion -----

  /**
   All four motions, on every grid: WordRight, WordLeft, WordRightEnd and WordLeftEnd. From a wide
   character they start at its far end.
   */
  method Word(term: Term, start: Point, direction: Direction, side: Side) returns (point: Point)
    requires term.Valid() && term.InGrid(start) && IsExpandable(term, start, direction)
    ensures IsWordMotion(term, start, direction, side, point)
  {
    var from := ExpandWide(term, start, direction);
    InGridIndex(from, term.dims);
    if direction == side {
      point := SkipToFarEdge(term, from, direction);
    } else {
      point := SkipToNearEdge(term, from, direction);
    }
    InGridIndex(point, term.dims);
    TrackIsMirror(term, from, direction, side, point);
  }

  /** The branch for `direction == side`. */
  method SkipToFarEdge(term: Term, start: Point, direction: Direction) returns (point: Point)
    requires term.Valid() && term.InGrid(start)
    ensures term.InGrid(point)
    ensures term.Position(start, direction) < |term.Track(direction)|
    ensures IsTrackTarget(term.Track(direction), term.Position(start, direction),
                          true, term.Position(point, direction))
  {
    ghost var track, from := term.Track(direction), term.Position(start, direction);
    var before := SkipAhead(term, start, direction, true);
    point := SkipAhead(term, before, direction, false);
    FarTarget(track, from, term.Position(before, direction), term.Position(point, direction));
  }

  /** Move on as long as the next cell is, or is not, whitespace. */
  method SkipAhead(term: Term, start: Point, direction: Direction, blank: bool) returns (point: Point)
    requires term.Valid() && term.InGrid(start)
    ensures term.InGrid(point)
    ensures var (track, from, to) := (term.Track(direction), term.Position(start, direction),
                                      term.Position(point, direction));
            && from <= to < |track| && All(track, from + 1, to + 1, blank)
            && (to == |track| - 1 || IsBlank(track[to + 1]) != blank)
  {
    ghost var track, from := term.Track(direction), term.Position(start, direction);
    point := start;
    var next := term.Advance(point, direction);
    term.Step(point, direction);
    term.Step(next, direction);
    while !term.IsBoundary(point, direction) && term.IsSpace(next) == blank
      invariant term.InGrid(point) && term.InGrid(next)
      invariant next == term.Advance(point, direction)
      invariant from <= term.Position(point, direction) < |track|
      invariant All(track, from + 1, term.Position(point, direction) + 1, blank)
      decreases |track| - term.Position(point, direction)
    {
      term.Step(point, direction);
      term.Step(next, direction);
      point := next;
      next := term.Advance(point, direction);
      term.Step(point, direction);
    }
    term.Step(point, direction);
    term.Step(next, direction);
  }

  /** The branch for `direction != side`. */
  method SkipToNearEdge(term: Term, start: Point, direction: Direction) returns (point: Point)
    requires term.Valid() && term.InGrid(start)
    ensures term.InGrid(point)
    ensures term.Position(start, direction) < |term.Track(direction)|
    ensures IsTrackTarget(term.Track(direction), term.Position(start, direction),
                          false, term.Position(point, direction))
  {
    ghost var track, from := term.Track(direction), term.Position(start, direction);
    point := start;
    term.Step(point, direction);

    while !term.IsBoundary(point, direction) && !term.IsSpace(point)
      invariant term.InGrid(point)
      invariant from <= term.Position(point, direction) < |track|
      invariant All(track, from, term.Position(point, direction), false)
      decreases |track| - term.Position(point, direction)
    {
      term.Step(point, direction);
      point := term.Advance(point, direction);
    }
    ghost var mid := term.Position(point, direction);
    term.Step(point, direction);

    while !term.IsBoundary(point, direction) && term.IsSpace(point)
      invariant term.InGrid(point)
      invariant mid <= term.Position(point, direction) < |track|
      invariant All(track, mid, term.Position(point, direction), true)
      decreases |track| - term.Position(point, direction)
    {
      term.Step(point, direction);
      point := term.Advance(point, direction);
    }
    term.Step(point, direction);
    NearTarget(track, from, mid, term.Position(point, direction));
  }
}
