/** Painting cell backgrounds: coalesced runs against one rectangle per visible cell. */
module Backgrounds {
  import opened Content

  // ----- Snapping -----

  /** `f32::round` for the non-negative products that occur here, over the reals. */
  function Round(x: real): int {
    (x + 0.5).Floor
  }

  function SnapCellEdge(index: int, cellSize: real): int {
    Round(index as real * cellSize)
  }

  function Ceil(x: real): int {
    -((-x).Floor)
  }

  /**
   The edge to the right of cell `index` is the edge to the left of the next cell, so neighbouring
   cells meet; what matters is that their spans are never off by a whole pixel.
   */
  lemma SnappedSpan(index: int, cellSize: real)
    ensures cellSize.Floor
         <= SnapCellEdge(index + 1, cellSize) - SnapCellEdge(index, cellSize)
         <= Ceil(cellSize)
  {
    var a := index as real * cellSize + 0.5;
    assert (index + 1) as real * cellSize == index as real * cellSize + cellSize;
    assert SnapCellEdge(index + 1, cellSize) == (a + cellSize).Floor;
    FloorSum(a, cellSize);
    FloorSum(a + cellSize, -cellSize);
    assert (a + cellSize) + -cellSize == a;
  }

  lemma FloorSum(a: real, b: real)
    ensures a.Floor + b.Floor <= (a + b).Floor
  {
  }

  /** A snapped edge is the nearest whole pixel, and the later one in the middle. */
  lemma RoundIsNearest(x: real)
    ensures Round(x) as real - 0.5 <= x < Round(x) as real + 0.5
  {
  }

  // ----- Rectangles on a canvas -----

  datatype RenderRect = RenderRect(x: int, y: int, width: int, height: int, color: Rgb, alpha: real)

  datatype Pixel = Pixel(r: real, g: real, b: real, a: real)

  /** How a colour with an alpha is put over a pixel; nothing is assumed about it. */
  type Blend = (Rgb, real, Pixel) -> Pixel

  predicate Covers(rect: RenderRect, x: int, y: int) {
    rect.x <= x < rect.x + rect.width && rect.y <= y < rect.y + rect.height
  }

  /** The pixel at (x, y) after filling the rectangles in order, if it was `pixel` before. */
  function Shade(blend: Blend, fills: seq<RenderRect>, x: int, y: int, pixel: Pixel): Pixel {
    if fills == [] then pixel else
      var last := fills[|fills| - 1];
      var under := Shade(blend, fills[..|fills| - 1], x, y, pixel);
      if Covers(last, x, y) then blend(last.color, last.alpha, under) else under
  }

  /** Both lists of fills give the same canvas, for every starting canvas and blend function. */
  ghost predicate SamePicture(a: seq<RenderRect>, b: seq<RenderRect>) {
    forall blend: Blend, x: int, y: int, pixel: Pixel ::
      Shade(blend, a, x, y, pixel) == Shade(blend, b, x, y, pixel)
  }

  lemma ShadeOne(blend: Blend, fills: seq<RenderRect>, rect: RenderRect, x: int, y: int, pixel: Pixel)
    ensures Shade(blend, fills + [rect], x, y, pixel)
         == var under := Shade(blend, fills, x, y, pixel);
            if Covers(rect, x, y) then blend(rect.color, rect.alpha, under) else under
  {
    assert (fills + [rect])[..|fills|] == fills;
  }

  lemma PaintBoth(a: seq<RenderRect>, b: seq<RenderRect>, rect: RenderRect)
    requires SamePicture(a, b)
    ensures SamePicture(a + [rect], b + [rect])
  {
    forall blend: Blend, x: int, y: int, pixel: Pixel
      ensures Shade(blend, a + [rect], x, y, pixel) == Shade(blend, b + [rect], x, y, pixel)
    {
      ShadeOne(blend, a, rect, x, y, pixel);
      ShadeOne(blend, b, rect, x, y, pixel);
    }
  }

  /** The second rectangle continues the first one to the right, in the same paint. */
  predicate Extends(first: RenderRect, second: RenderRect) {
    && first.y == second.y
    && first.height == second.height
    && first.x + first.width == second.x
    && first.color == second.color
    && first.alpha == second.alpha
  }

  /** Filling a widened rectangle is filling its two parts. */
  lemma Widen(a: seq<RenderRect>, b: seq<RenderRect>, first: RenderRect, second: RenderRect)
    requires Extends(first, second) && first.width >= 0 && second.width >= 0
    requires SamePicture(a + [first], b)
    ensures SamePicture(a + [first.(width := first.width + second.width)], b + [second])
  {
    var wide := first.(width := first.width + second.width);
    forall blend: Blend, x: int, y: int, pixel: Pixel
      ensures Shade(blend, a + [wide], x, y, pixel) == Shade(blend, b + [second], x, y, pixel)
    {
      ShadeOne(blend, a, wide, x, y, pixel);
      ShadeOne(blend, a, first, x, y, pixel);
      ShadeOne(blend, b, second, x, y, pixel);
      assert Shade(blend, a + [first], x, y, pixel) == Shade(blend, b, x, y, pixel);
    }
  }

  class Scene {
    var fills: seq<RenderRect>

    constructor ()
      ensures fills == []
    {
      fills := [];
    }

    method PaintRect(rect: RenderRect)
      modifies this
      ensures fills == old(fills) + [rect]
    {
      fills := fills + [rect];
    }
  }

  // ----- Cells -----

  function WidthCells(cell: RenderableCell): int {
    if cell.flags.wideChar then 2 else 1
  }

  /** The rectangle of one cell, with its edges snapped to whole pixels. */
  function CellRect(cell: RenderableCell, size: SizeInfo): RenderRect {
    var x0 := SnapCellEdge(cell.column, size.cellWidth);
    var x1 := SnapCellEdge(cell.column + WidthCells(cell), size.cellWidth);
    var y0 := SnapCellEdge(cell.line, size.cellHeight);
    var y1 := SnapCellEdge(cell.line + 1, size.cellHeight);
    RenderRect(size.paddingX + x0, size.paddingY + y0, x1 - x0, y1 - y0, cell.bg, cell.bgAlpha)
  }

  /** All four edges of a cell are edges of the snapped grid, and its paint is its background. */
  lemma CellRectEdges(cell: RenderableCell, size: SizeInfo)
    ensures var rect := CellRect(cell, size);
            var right := cell.column + if cell.flags.wideChar then 2 else 1;
            && rect.x == size.paddingX + Round(cell.column as real * size.cellWidth)
            && rect.x + rect.width == size.paddingX + Round(right as real * size.cellWidth)
            && rect.y == size.paddingY + Round(cell.line as real * size.cellHeight)
            && rect.y + rect.height == size.paddingY + Round((cell.line + 1) as real * size.cellHeight)
            && rect.color == cell.bg && rect.alpha == cell.bgAlpha
  {
  }

  /** A cell ends where the cell below it begins. */
  lemma LinesMeet(upper: RenderableCell, lower: RenderableCell, size: SizeInfo)
    requires lower.line == upper.line + 1
    ensures CellRect(upper, size).y + CellRect(upper, size).height == CellRect(lower, size).y
  {
  }

  predicate Visible(cell: RenderableCell) {
    cell.bgAlpha > 0.0
  }

  /** `paint_cell_background` on the first n cells: one fill for each visible cell. */
  function SeparateFills(cells: seq<RenderableCell>, size: SizeInfo, n: nat): seq<RenderRect>
    requires n <= |cells|
  {
    if n == 0 then []
    else SeparateFills(cells, size, n - 1)
         + if Visible(cells[n - 1]) then [CellRect(cells[n - 1], size)] else []
  }

  /** Each cell adds its rectangle, unless its background is fully transparent. */
  lemma NextFill(cells: seq<RenderableCell>, size: SizeInfo, n: nat)
    requires n < |cells|
    ensures SeparateFills(cells, size, 0) == []
    ensures SeparateFills(cells, size, n + 1)
         == SeparateFills(cells, size, n) + if cells[n].bgAlpha > 0.0 then [CellRect(cells[n], size)] else []
  {
  }

  /** A visible cell that does not continue the cell before it. */
  predicate StartsRun(cells: seq<RenderableCell>, size: SizeInfo, i: nat)
    requires i < |cells|
  {
    && Visible(cells[i])
    && (i == 0 || !Visible(cells[i - 1])
        || !Extends(CellRect(cells[i - 1], size), CellRect(cells[i], size)))
  }

  function Runs(cells: seq<RenderableCell>, size: SizeInfo, n: nat): (runs: nat)
    requires n <= |cells|
    ensures runs <= |SeparateFills(cells, size, n)|
  {
    if n == 0 then 0
    else Runs(cells, size, n - 1) + if StartsRun(cells, size, n - 1) then 1 else 0
  }

  lemma CellRectWidth(cell: RenderableCell, size: SizeInfo)
    requires size.cellWidth >= 0.0
    ensures CellRect(cell, size).width >= 0
  {
    SnappedSpan(cell.column, size.cellWidth);
    SnappedSpan(cell.column + 1, size.cellWidth);
  }

  /** Cells next to each other on a line, painted alike, always extend one another. */
  lemma NeighboursMeet(left: RenderableCell, right: RenderableCell, size: SizeInfo)
    requires left.line == right.line && right.column == left.column + WidthCells(left)
    requires left.bg == right.bg && left.bgAlpha == right.bgAlpha
    ensures Extends(CellRect(left, size), CellRect(right, size))
  {
  }

  /** What is on the scene, and the rectangle still waiting to be painted. */
  function WithPending(fills: seq<RenderRect>, pending: Option<RenderRect>): seq<RenderRect> {
    match pending
    case None => fills
    case Some(rect) => fills + [rect]
  }

  /** Two rectangles end at the same place in the same paint. */
  predicate SameEnd(a: RenderRect, b: RenderRect) {
    && a.x + a.width == b.x + b.width
    && a.y == b.y && a.height == b.height && a.color == b.color && a.alpha == b.alpha
  }

  /** The loop before cell i: the picture so far, the run that is pending and the number of fills. */
  ghost predicate Progress(start: seq<RenderRect>, fills: seq<RenderRect>, pending: Option<RenderRect>,
                           cells: seq<RenderableCell>, size: SizeInfo, i: nat)
    requires i <= |cells|
  {
    && start <= fills
    && SamePicture(WithPending(fills, pending), start + SeparateFills(cells, size, i))
    && |start| + Runs(cells, size, i) == |WithPending(fills, pending)|
    && (pending.Some? <==> i > 0 && Visible(cells[i - 1]))
    && (pending.Some? ==>
          pending.value.width >= 0 && SameEnd(pending.value, CellRect(cells[i - 1], size)))
  }

  lemma SkipInvisible(start: seq<RenderRect>, fills: seq<RenderRect>, pending: Option<RenderRect>,
                      cells: seq<RenderableCell>, size: SizeInfo, i: nat)
    requires i < |cells| && !Visible(cells[i]) && Progress(start, fills, pending, cells, size, i)
    ensures Progress(start, WithPending(fills, pending), None, cells, size, i + 1)
  {
    assert SeparateFills(cells, size, i) + [] == SeparateFills(cells, size, i);
  }

  lemma ExtendRun(start: seq<RenderRect>, fills: seq<RenderRect>, pending: RenderRect,
                  cells: seq<RenderableCell>, size: SizeInfo, i: nat)
    requires size.cellWidth >= 0.0
    requires i < |cells| && Visible(cells[i]) && Progress(start, fills, Some(pending), cells, size, i)
    requires Extends(pending, CellRect(cells[i], size))
    ensures var wide := pending.(width := pending.width + CellRect(cells[i], size).width);
            Progress(start, fills, Some(wide), cells, size, i + 1)
  {
    var rect, separate := CellRect(cells[i], size), SeparateFills(cells, size, i);
    CellRectWidth(cells[i], size);
    assert (start + separate) + [rect] == start + (separate + [rect]);
    Widen(fills, start + separate, pending, rect);
  }

  lemma StartRun(start: seq<RenderRect>, fills: seq<RenderRect>, pending: Option<RenderRect>,
                 cells: seq<RenderableCell>, size: SizeInfo, i: nat)
    requires size.cellWidth >= 0.0
    requires i < |cells| && Visible(cells[i]) && Progress(start, fills, pending, cells, size, i)
    requires pending.None? || !Extends(pending.value, CellRect(cells[i], size))
    ensures Progress(start, WithPending(fills, pending), Some(CellRect(cells[i], size)),
                     cells, size, i + 1)
  {
    var rect, separate := CellRect(cells[i], size), SeparateFills(cells, size, i);
    CellRectWidth(cells[i], size);
    assert (start + separate) + [rect] == start + (separate + [rect]);
    PaintBoth(WithPending(fills, pending), start + separate, rect);
  }

  /**
   Coalescing is pixel-exact, and makes exactly one fill for each maximal run of visible cells that
   extend one another.
   */
  method PaintCellBackgrounds(scene: Scene, cells: seq<RenderableCell>, size: SizeInfo)
    returns (fills: nat)
    requires size.cellWidth >= 0.0
    modifies scene
    ensures SamePicture(scene.fills, old(scene.fills) + SeparateFills(cells, size, |cells|))
    ensures old(scene.fills) <= scene.fills
    ensures fills == |scene.fills| - |old(scene.fills)| == Runs(cells, size, |cells|)
  {
    var pending: Option<RenderRect> := None;
    fills := 0;
    assert scene.fills + SeparateFills(cells, size, 0) == scene.fills;
    for i := 0 to |cells|
      invariant Progress(old(scene.fills), scene.fills, pending, cells, size, i)
      invariant fills == |scene.fills| - |old(scene.fills)|
    {
      var painted;
      pending, painted := PaintNext(scene, cells[i], size, pending, old(scene.fills), cells, i);
      fills := fills + painted;
    }

    var painted := PaintPending(scene, pending);
    fills := fills + painted;
  }

  /** The loop body: the cell ends, extends or replaces the pending rectangle. */
  method PaintNext(scene: Scene, cell: RenderableCell, size: SizeInfo, pending: Option<RenderRect>,
                   ghost start: seq<RenderRect>, ghost cells: seq<RenderableCell>, ghost i: nat)
    returns (next: Option<RenderRect>, painted: nat)
    requires size.cellWidth >= 0.0 && i < |cells| && cells[i] == cell
    requires Progress(start, scene.fills, pending, cells, size, i)
    modifies scene
    ensures Progress(start, scene.fills, next, cells, size, i + 1)
    ensures painted == |scene.fills| - |old(scene.fills)|
  {
    if cell.bgAlpha <= 0.0 {
      SkipInvisible(start, scene.fills, pending, cells, size, i);
      painted := PaintPending(scene, pending);
      return None, painted;
    }
    var rect := CellRect(cell, size);
    if pending.Some? && Extends(pending.value, rect) {
      ExtendRun(start, scene.fills, pending.value, cells, size, i);
      return Some(pending.value.(width := pending.value.width + rect.width)), 0;
    }
    StartRun(start, scene.fills, pending, cells, size, i);
    painted := PaintPending(scene, pending);
    next := Some(rect);
  }

  /** Paint the pending rectangle, if there is one, and say how many fills that takes. */
  method PaintPending(scene: Scene, pending: Option<RenderRect>) returns (fills: nat)
    modifies scene
    ensures scene.fills == WithPending(old(scene.fills), pending)
    ensures fills == |scene.fills| - |old(scene.fills)|
  {
    fills := 0;
    if pending.Some? {
      scene.PaintRect(pending.value);
      fills := 1;
    }
  }
}
