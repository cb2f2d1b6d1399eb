/** Collecting the underlines and strikeouts of a frame: one line for each run of cells. */
module Underlines {
  import opened Content

  datatype CellPoint = CellPoint(line: nat, column: nat)

  /** From the first to the last column of a run, both included. */
  datatype RenderLine = RenderLine(start: CellPoint, end: CellPoint, color: Rgb)

  /** A line in one grid column, as it is seen. */
  datatype Mark = Mark(line: nat, column: nat, color: Rgb)

  function Marks(line: nat, from: nat, end: nat, color: Rgb): seq<Mark>
    requires from <= end + 1
  {
    seq(end + 1 - from, i requires 0 <= i < end + 1 - from => Mark(line, from + i, color))
  }

  /** Two columns that follow one another, marked together or one after the other. */
  lemma MarksJoin(line: nat, from: nat, mid: nat, end: nat, color: Rgb)
    requires from <= mid + 1 <= end + 1
    ensures Marks(line, from, mid, color) + Marks(line, mid + 1, end, color)
         == Marks(line, from, end, color)
  {
  }

  // ----- What the cells ask for -----

  function LastColumn(cell: RenderableCell): nat {
    cell.column + if cell.flags.wideChar then 1 else 0
  }

  function LineColor(cell: RenderableCell, flag: LineFlag): Rgb {
    if flag == Strikeout then cell.fg else cell.underline
  }

  /** The columns that the first n cells mark with a flag, cell by cell. */
  function CellMarks(cells: seq<RenderableCell>, flag: LineFlag, n: nat): seq<Mark>
    requires n <= |cells|
  {
    if n == 0 then [] else
      var cell := cells[n - 1];
      CellMarks(cells, flag, n - 1)
      + if flag in cell.flags.lines then
          Marks(cell.line, cell.column, LastColumn(cell), LineColor(cell, flag))
        else []
  }

  /** A cell with the flag marks this column: its own, or the second one of a wide character. */
  predicate IsMarkOf(mark: Mark, cell: RenderableCell, flag: LineFlag) {
    && flag in cell.flags.lines && mark.line == cell.line
    && (mark.column == cell.column || (cell.flags.wideChar && mark.column == cell.column + 1))
    && mark.color == match flag
         case Strikeout => cell.fg
         case _ => cell.underline
  }

  lemma MarksOfCell(mark: Mark, cell: RenderableCell, flag: LineFlag)
    requires flag in cell.flags.lines
    ensures mark in Marks(cell.line, cell.column, LastColumn(cell), LineColor(cell, flag))
       <==> IsMarkOf(mark, cell, flag)
  {
    var marks := Marks(cell.line, cell.column, LastColumn(cell), LineColor(cell, flag));
    assert marks[0] == Mark(cell.line, cell.column, LineColor(cell, flag));
    assert cell.flags.wideChar ==> marks[1] == Mark(cell.line, cell.column + 1, LineColor(cell, flag));
  }

  /** What is marked are the columns of the cells with the flag, in their colours. */
  lemma {:induction false} CellMarksExactly(cells: seq<RenderableCell>, flag: LineFlag, n: nat, mark: Mark)
    requires n <= |cells|
    ensures mark in CellMarks(cells, flag, n) <==> exists i :: 0 <= i < n && IsMarkOf(mark, cells[i], flag)
  {
    if n > 0 {
      CellMarksExactly(cells, flag, n - 1, mark);
      if flag in cells[n - 1].flags.lines {
        MarksOfCell(mark, cells[n - 1], flag);
      }
    }
  }

  /** The last of the first n cells with the flag. */
  function LastFlagged(cells: seq<RenderableCell>, flag: LineFlag, n: nat): (last: Option<RenderableCell>)
    requires n <= |cells|
  {
    if n == 0 then None
    else if flag in cells[n - 1].flags.lines then Some(cells[n - 1])
    else LastFlagged(cells, flag, n - 1)
  }

  /** The second cell goes on where the first one ends, in the same colour. */
  predicate Continues(first: RenderableCell, second: RenderableCell, flag: LineFlag) {
    && LineColor(first, flag) == LineColor(second, flag)
    && first.line == second.line && second.column == LastColumn(first) + 1
  }

  /** How many of the first n cells have the flag and do not continue the flagged cell before them. */
  function RunCount(cells: seq<RenderableCell>, flag: LineFlag, n: nat): nat
    requires n <= |cells|
  {
    if n == 0 then 0 else
      var last := LastFlagged(cells, flag, n - 1);
      RunCount(cells, flag, n - 1)
      + if flag in cells[n - 1].flags.lines
           && (last.None? || !Continues(last.value, cells[n - 1], flag)) then 1 else 0
  }

  predicate NoneFlagged(cells: seq<RenderableCell>, flag: LineFlag, from: nat, end: nat)
    requires end <= |cells|
  {
    forall i :: from <= i < end ==> flag !in cells[i].flags.lines
  }

  /** Cells without the flag change nothing. */
  lemma {:induction false} UnflaggedAddNone(cells: seq<RenderableCell>, flag: LineFlag, from: nat, end: nat)
    requires from <= end <= |cells| && NoneFlagged(cells, flag, from, end)
    ensures LastFlagged(cells, flag, end) == LastFlagged(cells, flag, from)
    ensures RunCount(cells, flag, end) == RunCount(cells, flag, from)
    decreases end
  {
    if from < end {
      UnflaggedAddNone(cells, flag, from, end - 1);
    }
  }

  /** The second cell is right behind the first one, which may be wide, in the same row and colour. */
  predicate IsNext(first: RenderableCell, second: RenderableCell, flag: LineFlag) {
    && second.line == first.line
    && second.column == first.column + (if first.flags.wideChar then 2 else 1)
    && if flag == Strikeout then second.fg == first.fg else second.underline == first.underline
  }

  /**
   The first cell with the flag starts a line. A later one goes on with the line of the flagged cell
   before it exactly if it comes right behind that cell, in the same row and colour.
   */
  lemma LinesOfNeighbours(cells: seq<RenderableCell>, flag: LineFlag, i: nat, n: nat)
    requires i < n < |cells| && NoneFlagged(cells, flag, i + 1, n)
    requires flag in cells[i].flags.lines && flag in cells[n].flags.lines
    ensures NoneFlagged(cells, flag, 0, i) ==> RunCount(cells, flag, i + 1) == 1
    ensures RunCount(cells, flag, n + 1) == RunCount(cells, flag, i + 1) <==> IsNext(cells[i], cells[n], flag)
    ensures RunCount(cells, flag, i + 1) <= RunCount(cells, flag, n + 1) <= RunCount(cells, flag, i + 1) + 1
  {
    UnflaggedAddNone(cells, flag, i + 1, n);
    if NoneFlagged(cells, flag, 0, i) {
      UnflaggedAddNone(cells, flag, 0, i);
    }
  }

  // ----- What the lines show -----

  /** No recorded line goes over the end of a row. */
  predicate OneRow(line: RenderLine) {
    line.start.line == line.end.line && line.start.column <= line.end.column
  }

  predicate AllOneRow(lines: seq<RenderLine>) {
    forall i :: 0 <= i < |lines| ==> OneRow(lines[i])
  }

  function LineMarks(lines: seq<RenderLine>): seq<Mark>
    requires AllOneRow(lines)
  {
    if lines == [] then [] else
      var last := lines[|lines| - 1];
      assert OneRow(last);
      LineMarks(lines[..|lines| - 1])
      + Marks(last.start.line, last.start.column, last.end.column, last.color)
  }

  /**
   The lines show exactly the columns that the first n cells mark, in order and in their colours,
   with one line for each run of cells that continue one another.
   */
  ghost predicate Records(lines: seq<RenderLine>, cells: seq<RenderableCell>, flag: LineFlag, n: nat)
    requires n <= |cells|
  {
    && AllOneRow(lines)
    && LineMarks(lines) == CellMarks(cells, flag, n)
    && |lines| == RunCount(cells, flag, n)
    && match LastFlagged(cells, flag, n)
       case None => lines == []
       case Some(cell) =>
         lines != [] && EndsWith(lines[|lines| - 1], cell, flag)
  }

  predicate EndsWith(line: RenderLine, cell: RenderableCell, flag: LineFlag) {
    line.end == CellPoint(cell.line, LastColumn(cell)) && line.color == LineColor(cell, flag)
  }

  lemma LineMarksSnoc(lines: seq<RenderLine>, line: RenderLine)
    requires AllOneRow(lines) && OneRow(line)
    ensures LineMarks(lines + [line])
         == LineMarks(lines) + Marks(line.start.line, line.start.column, line.end.column, line.color)
  {
    assert (lines + [line])[..|lines|] == lines;
  }

  /** A new line for a cell that continues nothing. */
  lemma PushRecords(lines: seq<RenderLine>, cells: seq<RenderableCell>, flag: LineFlag, n: nat)
    requires n < |cells| && Records(lines, cells, flag, n) && flag in cells[n].flags.lines
    requires var last := LastFlagged(cells, flag, n); last.None? || !Continues(last.value, cells[n], flag)
    ensures var cell := cells[n];
            Records(lines + [RenderLine(CellPoint(cell.line, cell.column),
                                        CellPoint(cell.line, LastColumn(cell)), LineColor(cell, flag))],
                    cells, flag, n + 1)
  {
    var cell := cells[n];
    LineMarksSnoc(lines, RenderLine(CellPoint(cell.line, cell.column),
                                    CellPoint(cell.line, LastColumn(cell)), LineColor(cell, flag)));
  }

  /** The last line grows by a cell that continues it. */
  lemma ExtendRecords(lines: seq<RenderLine>, cells: seq<RenderableCell>, flag: LineFlag, n: nat)
    requires n < |cells| && Records(lines, cells, flag, n) && flag in cells[n].flags.lines
    requires LastFlagged(cells, flag, n).Some?
    requires Continues(LastFlagged(cells, flag, n).value, cells[n], flag)
    ensures var cell, last := cells[n], lines[|lines| - 1];
            Records(lines[|lines| - 1 := last.(end := CellPoint(cell.line, LastColumn(cell)))],
                    cells, flag, n + 1)
  {
    var cell, init, last := cells[n], lines[..|lines| - 1], lines[|lines| - 1];
    var longer := last.(end := CellPoint(cell.line, LastColumn(cell)));
    assert lines == init + [last] && lines[|lines| - 1 := longer] == init + [longer];
    LineMarksSnoc(init, last);
    LineMarksSnoc(init, longer);
    MarksJoin(last.start.line, last.start.column, last.end.column, LastColumn(cell), last.color);
    assert (LineMarks(init) + Marks(last.start.line, last.start.column, last.end.column, last.color))
           + Marks(cell.line, cell.column, LastColumn(cell), last.color)
        == LineMarks(init) + (Marks(last.start.line, last.start.column, last.end.column, last.color)
                              + Marks(cell.line, cell.column, LastColumn(cell), last.color));
  }

  /** The lines of a flag after `update_flag` for a cell. */
  function Updated(lines: seq<RenderLine>, cell: RenderableCell, flag: LineFlag): seq<RenderLine> {
    var end := CellPoint(cell.line, LastColumn(cell));
    if flag !in cell.flags.lines then lines
    else if lines != [] && LineColor(cell, flag) == lines[|lines| - 1].color
            && cell.column == lines[|lines| - 1].end.column + 1
            && cell.line == lines[|lines| - 1].end.line then
      lines[|lines| - 1 := lines[|lines| - 1].(end := end)]
    else lines + [RenderLine(CellPoint(cell.line, cell.column), end, LineColor(cell, flag))]
  }

  /** Updating with the next cell keeps the record. */
  lemma UpdatedRecords(lines: seq<RenderLine>, cells: seq<RenderableCell>, flag: LineFlag, n: nat)
    requires n < |cells| && Records(lines, cells, flag, n)
    ensures Records(Updated(lines, cells[n], flag), cells, flag, n + 1)
  {
    if flag !in cells[n].flags.lines {
      assert CellMarks(cells, flag, n) + [] == CellMarks(cells, flag, n);
    } else if LastFlagged(cells, flag, n).Some?
              && Continues(LastFlagged(cells, flag, n).value, cells[n], flag) {
      ExtendRecords(lines, cells, flag, n);
    } else {
      PushRecords(lines, cells, flag, n);
    }
  }

  function LineFlagIndex(flag: LineFlag): nat {
    match flag
    case Underline => 0
    case DoubleUnderline => 1
    case Strikeout => 2
    case Undercurl => 3
    case DottedUnderline => 4
    case DashedUnderline => 5
  }

  class RenderLines {
    var inner: seq<seq<RenderLine>>

    predicate Valid()
      reads this
    {
      |inner| == 6
    }

    /** The lines of a flag. */
    function Of(flag: LineFlag): seq<RenderLine>
      reads this
      requires Valid()
    {
      inner[LineFlagIndex(flag)]
    }

    constructor ()
      ensures Valid() && forall flag :: Of(flag) == []
    {
      inner := [[], [], [], [], [], []];
    }

    method UpdateFlag(cell: RenderableCell, flag: LineFlag)
      requires Valid()
      modifies this
      ensures inner == old(inner)[LineFlagIndex(flag) := Updated(old(Of(flag)), cell, flag)]
    {
      if flag !in cell.flags.lines {
        return;
      }

      var color := if flag == Strikeout then cell.fg else cell.underline;
      var end := CellPoint(cell.line, cell.column);
      if cell.flags.wideChar {
        end := end.(column := end.column + 1);
      }

      var index := LineFlagIndex(flag);
      var lines := inner[index];
      if lines != [] && color == lines[|lines| - 1].color
         && cell.column == lines[|lines| - 1].end.column + 1
         && cell.line == lines[|lines| - 1].end.line {
        lines := lines[|lines| - 1 := lines[|lines| - 1].(end := end)];
      } else {
        lines := lines + [RenderLine(CellPoint(cell.line, cell.column), end, color)];
      }
      inner := inner[index := lines];
    }

    method Update(cell: RenderableCell)
      requires Valid()
      modifies this
      ensures Valid() && forall flag :: Of(flag) == Updated(old(Of(flag)), cell, flag)
    {
      UpdateFlag(cell, Underline);
      UpdateFlag(cell, DoubleUnderline);
      UpdateFlag(cell, Strikeout);
      UpdateFlag(cell, Undercurl);
      UpdateFlag(cell, DottedUnderline);
      UpdateFlag(cell, DashedUnderline);
    }
  }

  /** The lines of a whole frame, for every flag. */
  method CollectLines(cells: seq<RenderableCell>) returns (lines: RenderLines)
    ensures fresh(lines) && lines.Valid()
    ensures forall flag :: Records(lines.Of(flag), cells, flag, |cells|)
  {
    lines := new RenderLines();
    for n := 0 to |cells|
      invariant fresh(lines) && lines.Valid()
      invariant forall flag :: Records(lines.Of(flag), cells, flag, n)
    {
      forall flag ensures Records(Updated(lines.Of(flag), cells[n], flag), cells, flag, n + 1) {
        UpdatedRecords(lines.Of(flag), cells, flag, n);
      }
      lines.Update(cells[n]);
    }
  }
}
