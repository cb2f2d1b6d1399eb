/**
 Text painting of a frame: the per-cell painter and the glyph batch that replaces it.

 The text system is a parameter. Its state is threaded through every call, so the results below
 also say that batching shapes the same cells in the same order as the per-cell painter.
 */
module Glyphs {
  import opened Content
  import opened Sequences

  // ----- The scene -----

  datatype Font = Font(index: nat, dataId: nat)

  datatype Glyph = Glyph(id: nat, x: real, y: real)

  /** Everything but the position that a draw call fixes for its glyphs. */
  datatype Style = Style(font: Font, sizeBits: nat, coords: seq<int>, color: Rgb)

  /** One `draw_glyphs` call: glyph positions are relative to the translation (dx, dy). */
  datatype DrawCall = DrawCall(style: Style, dx: real, dy: real, glyphs: seq<Glyph>)

  /** A glyph as it appears on screen. */
  datatype PlacedGlyph = PlacedGlyph(style: Style, id: nat, x: real, y: real)

  function Place(style: Style, dx: real, dy: real, glyphs: seq<Glyph>): seq<PlacedGlyph> {
    seq(|glyphs|, i requires 0 <= i < |glyphs| =>
      PlacedGlyph(style, glyphs[i].id, glyphs[i].x + dx, glyphs[i].y + dy))
  }

  function Translate(glyphs: seq<Glyph>, dx: real, dy: real): seq<Glyph> {
    seq(|glyphs|, i requires 0 <= i < |glyphs| =>
      Glyph(glyphs[i].id, glyphs[i].x + dx, glyphs[i].y + dy))
  }

  /** What a list of draw calls puts on screen, glyph by glyph, in drawing order. */
  function Flatten(calls: seq<DrawCall>): seq<PlacedGlyph> {
    if calls == [] then [] else
      var last := calls[|calls| - 1];
      Flatten(calls[..|calls| - 1]) + Place(last.style, last.dx, last.dy, last.glyphs)
  }

  lemma FlattenOne(calls: seq<DrawCall>, call: DrawCall)
    ensures Flatten(calls + [call])
         == Flatten(calls) + Place(call.style, call.dx, call.dy, call.glyphs)
  {
    assert (calls + [call])[..|calls|] == calls;
  }

  lemma {:induction false} FlattenAppend(a: seq<DrawCall>, b: seq<DrawCall>)
    ensures Flatten(a + b) == Flatten(a) + Flatten(b)
  {
    if b == [] {
      assert a + b == a;
    } else {
      var init, last := b[..|b| - 1], b[|b| - 1];
      var placed := Place(last.style, last.dx, last.dy, last.glyphs);
      calc {
        Flatten(a + b);
        { assert a + b == (a + init) + [last]; }
        Flatten((a + init) + [last]);
        { FlattenOne(a + init, last); }
        Flatten(a + init) + placed;
        { FlattenAppend(a, init); }
        (Flatten(a) + Flatten(init)) + placed;
        { Associative(Flatten(a), Flatten(init), placed); }
        Flatten(a) + (Flatten(init) + placed);
        Flatten(a) + Flatten(b);
      }
    }
  }

  /** Moving glyphs and moving the transform are the same thing. */
  lemma PlaceTranslated(style: Style, glyphs: seq<Glyph>, more: seq<Glyph>,
                        dx: real, dy: real, mx: real, my: real)
    ensures Place(style, 0.0, 0.0, Translate(glyphs, dx, dy) + Translate(more, mx, my))
         == Place(style, dx, dy, glyphs) + Place(style, mx, my, more)
  {
    var all := Translate(glyphs, dx, dy) + Translate(more, mx, my);
    forall i | 0 <= i < |all|
      ensures Place(style, 0.0, 0.0, all)[i]
           == (Place(style, dx, dy, glyphs) + Place(style, mx, my, more))[i]
    {
    }
  }

  predicate OneStyle(calls: seq<DrawCall>, style: Style) {
    forall i :: 0 <= i < |calls| ==> calls[i].style == style
  }

  lemma OneStyleAppend(a: seq<DrawCall>, b: seq<DrawCall>, style: Style)
    ensures OneStyle(a + b, style) <==> OneStyle(a, style) && OneStyle(b, style)
  {
    if OneStyle(a + b, style) {
      forall i | 0 <= i < |a| ensures a[i].style == style {
        assert a[i] == (a + b)[i];
      }
      forall i | 0 <= i < |b| ensures b[i].style == style {
        assert b[i] == (a + b)[|a| + i];
      }
    }
  }

  class Scene {
    var calls: seq<DrawCall>

    constructor ()
      ensures calls == []
    {
      calls := [];
    }

    method DrawGlyphs(style: Style, dx: real, dy: real, glyphs: seq<Glyph>)
      modifies this
      ensures calls == old(calls) + [DrawCall(style, dx, dy, glyphs)]
    {
      calls := calls + [DrawCall(style, dx, dy, glyphs)];
    }
  }

  // ----- Layouts and the text system -----

  datatype LayoutGlyph = LayoutGlyph(id: nat, x: real, y: real, advance: real)

  datatype GlyphRun = GlyphRun(
    font: Font, sizeBits: nat, coords: seq<int>,
    offset: real, baseline: real, glyphs: seq<LayoutGlyph>)

  datatype LayoutItem = Run(run: GlyphRun) | InlineBox

  /** A layout is a list of lines, each a list of positioned items. */
  type Layout = seq<seq<LayoutItem>>

  datatype TextMetrics = TextMetrics(glyphOffsetX: real, glyphOffsetY: real)

  /** The text system: a state and the operations the painters use on it. */
  datatype Shaper<!TS> = Shaper(
    shapeChar: (TS, char, FontVariant) -> (TS, Layout),
    shapeText: (TS, seq<char>, FontVariant) -> (TS, Layout),
    metrics: TS -> TextMetrics)

  function VariantOf(flags: Flags): FontVariant {
    match (flags.bold || flags.dim, flags.italic)
    case (true, true) => BoldItalic
    case (true, false) => Bold
    case (false, true) => Italic
    case (false, false) => Normal
  }

  /** `shape_cell`: hidden cells, tabs and plain spaces have no layout and cost no shaping. */
  function ShapeCell<TS>(shaper: Shaper<TS>, ts: TS, cell: RenderableCell): (TS, Option<Layout>) {
    if cell.flags.hidden || cell.character == '\t' then (ts, None)
    else if cell.zerowidth.Some? then
      var (ts', layout) :=
        shaper.shapeText(ts, [cell.character] + cell.zerowidth.value, VariantOf(cell.flags));
      (ts', Some(layout))
    else if cell.character == ' ' then (ts, None)
    else
      var (ts', layout) := shaper.shapeChar(ts, cell.character, VariantOf(cell.flags));
      (ts', Some(layout))
  }

  /** `cell_has_visible_text`, the filter the batching painter applies before shaping. */
  predicate HasVisibleText(cell: RenderableCell) {
    if cell.flags.hidden || cell.character == '\t' then false
    else cell.character != ' ' || cell.zerowidth.Some?
  }

  /** The filter keeps exactly the cells that shaping gives a layout, and the others are free. */
  lemma FilterAgreesWithShaping<TS>(shaper: Shaper<TS>, ts: TS, cell: RenderableCell)
    ensures HasVisibleText(cell) <==> ShapeCell(shaper, ts, cell).1.Some?
    ensures !HasVisibleText(cell) ==> ShapeCell(shaper, ts, cell) == (ts, None)
  {
  }

  /**
   Shaping depends on nothing but a cell's characters and their variant, with bold and dim being one:
   colours and positions split neither the shaper's state nor its layouts, and what makes a cell
   hidden is not looked at otherwise.
   */
  lemma ShapingIgnoresPlaceAndColor<TS>(shaper: Shaper<TS>, ts: TS, a: RenderableCell, b: RenderableCell)
    requires a.flags.hidden == b.flags.hidden
    requires !a.flags.hidden ==>
               && a.character == b.character && a.zerowidth == b.zerowidth
               && (a.flags.bold || a.flags.dim) == (b.flags.bold || b.flags.dim)
               && a.flags.italic == b.flags.italic
    ensures ShapeCell(shaper, ts, a) == ShapeCell(shaper, ts, b)
  {
  }

  predicate IsBoldFace(variant: FontVariant) { variant == Bold || variant == BoldItalic }

  predicate IsItalicFace(variant: FontVariant) { variant == Italic || variant == BoldItalic }

  /**
   What is shaped: nothing of hidden cells, tabs and plain spaces; otherwise the character, followed
   by its zero-width characters if there are any, in the face that the cell's flags ask for.
   */
  lemma ShapedText<TS>(shaper: Shaper<TS>, ts: TS, cell: RenderableCell) returns (variant: FontVariant)
    ensures IsBoldFace(variant) <==> cell.flags.bold || cell.flags.dim
    ensures IsItalicFace(variant) <==> cell.flags.italic
    ensures cell.flags.hidden || cell.character == '\t' ==> ShapeCell(shaper, ts, cell) == (ts, None)
    ensures cell.character == ' ' && cell.zerowidth == None ==> ShapeCell(shaper, ts, cell) == (ts, None)
    ensures !cell.flags.hidden && cell.character != '\t' && cell.zerowidth.Some? ==>
              var (ts', layout) :=
                shaper.shapeText(ts, [cell.character] + cell.zerowidth.value, variant);
              ShapeCell(shaper, ts, cell) == (ts', Some(layout))
    ensures !cell.flags.hidden && cell.character != '\t' && cell.character != ' ' && cell.zerowidth.None? ==>
              var (ts', layout) := shaper.shapeChar(ts, cell.character, variant);
              ShapeCell(shaper, ts, cell) == (ts', Some(layout))
  {
    variant := VariantOf(cell.flags);
  }

  predicate CompatibleTextStyle(first: RenderableCell, second: RenderableCell) {
    && first.fg == second.fg
    && first.flags.bold == second.flags.bold
    && first.flags.dim == second.flags.dim
    && first.flags.italic == second.flags.italic
  }

  // ----- The per-cell painter as a list of draw calls -----

  function PenX(run: GlyphRun, n: nat): real
    requires n <= |run.glyphs|
  {
    if n == 0 then run.offset else PenX(run, n - 1) + run.glyphs[n - 1].advance
  }

  /** Glyphs of a run, positioned by a pen that moves by each advance. */
  function RunGlyphs(run: GlyphRun): seq<Glyph> {
    seq(|run.glyphs|, i requires 0 <= i < |run.glyphs| =>
      Glyph(run.glyphs[i].id, PenX(run, i) + run.glyphs[i].x, run.baseline - run.glyphs[i].y))
  }

  function RunStyle(run: GlyphRun, fg: Rgb): Style {
    Style(run.font, run.sizeBits, run.coords, fg)
  }

  function ItemCalls(item: LayoutItem, x: real, y: real, fg: Rgb): seq<DrawCall> {
    match item
    case InlineBox => []
    case Run(run) => [DrawCall(RunStyle(run, fg), x, y, RunGlyphs(run))]
  }

  /** Calls for the first n items of a line. */
  function LineCalls(items: seq<LayoutItem>, n: nat, x: real, y: real, fg: Rgb): seq<DrawCall>
    requires n <= |items|
  {
    if n == 0 then [] else LineCalls(items, n - 1, x, y, fg) + ItemCalls(items[n - 1], x, y, fg)
  }

  /** Calls for the first n lines of a layout. */
  function LayoutCalls(layout: Layout, n: nat, x: real, y: real, fg: Rgb): seq<DrawCall>
    requires n <= |layout|
  {
    if n == 0 then []
    else LayoutCalls(layout, n - 1, x, y, fg)
         + LineCalls(layout[n - 1], |layout[n - 1]|, x, y, fg)
  }

  function OriginX(size: SizeInfo, metrics: TextMetrics, cell: RenderableCell): real {
    size.paddingX as real + cell.column as real * size.cellWidth + metrics.glyphOffsetX
  }

  function OriginY(size: SizeInfo, metrics: TextMetrics, cell: RenderableCell): real {
    size.paddingY as real + cell.line as real * size.cellHeight + metrics.glyphOffsetY
  }

  /** Text state and draw calls of `paint_cell_text`. */
  function CellCalls<TS>(shaper: Shaper<TS>, size: SizeInfo, ts: TS, cell: RenderableCell)
    : (TS, seq<DrawCall>)
  {
    var (ts', layout) := ShapeCell(shaper, ts, cell);
    if layout.None? then (ts', []) else
      var metrics := shaper.metrics(ts');
      (ts', LayoutCalls(layout.value, |layout.value|,
                        OriginX(size, metrics, cell), OriginY(size, metrics, cell), cell.fg))
  }

  /** Cells whose text styles agree paint the same text at the same place alike. */
  lemma AgreeingCellsPaintAlike<TS>(shaper: Shaper<TS>, size: SizeInfo, ts: TS,
                                    a: RenderableCell, b: RenderableCell)
    requires a.line == b.line && a.column == b.column && a.flags.hidden == b.flags.hidden
    requires a.character == b.character && a.zerowidth == b.zerowidth
    requires CompatibleTextStyle(a, b)
    ensures CellCalls(shaper, size, ts, a) == CellCalls(shaper, size, ts, b)
  {
    ShapingIgnoresPlaceAndColor(shaper, ts, a, b);
    var metrics := shaper.metrics(ShapeCell(shaper, ts, a).0);
    assert OriginX(size, metrics, a) == OriginX(size, metrics, b);
    assert OriginY(size, metrics, a) == OriginY(size, metrics, b);
  }

  /** Text styles disagree in nothing but the colour, the face, or dim against bold. */
  lemma StylesAgree(a: RenderableCell, b: RenderableCell)
    requires a.fg == b.fg && a.flags.dim == b.flags.dim && (a.flags.dim ==> a.flags.bold == b.flags.bold)
    requires VariantOf(a.flags) == VariantOf(b.flags)
    ensures CompatibleTextStyle(a, b)
  {
  }

  /** Painting the first n cells one after the other with `paint_cell_text`. */
  function Reference<TS>(shaper: Shaper<TS>, size: SizeInfo, ts: TS,
                         cells: seq<RenderableCell>, n: nat): (TS, seq<DrawCall>)
    requires n <= |cells|
  {
    if n == 0 then (ts, []) else
      var (before, calls) := Reference(shaper, size, ts, cells, n - 1);
      var (after, more) := CellCalls(shaper, size, before, cells[n - 1]);
      (after, calls + more)
  }

  class TextSystem<!TS> {
    const shaper: Shaper<TS>
    var state: TS

    constructor (shaper: Shaper<TS>, state: TS)
      ensures this.shaper == shaper && this.state == state
    {
      this.shaper := shaper;
      this.state := state;
    }

    method Shape(cell: RenderableCell) returns (layout: Option<Layout>)
      modifies this
      ensures (state, layout) == ShapeCell(shaper, old(state), cell)
    {
      if cell.flags.hidden || cell.character == '\t' {
        return None;
      }
      var variant := VariantOf(cell.flags);
      var shaped: (TS, Layout);
      if cell.zerowidth.Some? {
        shaped := shaper.shapeText(state, [cell.character] + cell.zerowidth.value, variant);
      } else if cell.character == ' ' {
        return None;
      } else {
        shaped := shaper.shapeChar(state, cell.character, variant);
      }
      state := shaped.0;
      layout := Some(shaped.1);
    }
  }

  // ----- The batch -----

  class GlyphBatch {
    var font: Option<Font>
    var sizeBits: nat
    var coords: seq<int>
    var color: Rgb
    var originX: real
    var originY: real
    var absolute: bool
    var glyphs: seq<Glyph>

    ghost predicate Valid()
      reads this
    {
      glyphs != [] ==> font.Some?
    }

    /** Glyphs pushed but not drawn, where they will appear. */
    ghost function Unflushed(): seq<PlacedGlyph>
      reads this
      requires Valid()
    {
      if glyphs == [] then [] else
        Place(Style(font.value, sizeBits, coords, color),
              if absolute then 0.0 else originX, if absolute then 0.0 else originY, glyphs)
    }

    /** Everything drawn so far or waiting in the batch. */
    ghost function Emitted(scene: Scene): seq<PlacedGlyph>
      reads this, scene
      requires Valid()
    {
      Flatten(scene.calls) + Unflushed()
    }

    /** Draw calls that the next flush makes. */
    ghost function Owed(): nat
      reads this
    {
      if glyphs == [] then 0 else 1
    }

    constructor ()
      ensures Valid() && glyphs == []
    {
      font, sizeBits, coords, color := None, 0, [], Rgb(0, 0, 0);
      originX, originY, absolute, glyphs := 0.0, 0.0, false, [];
    }

    method Reset()
      modifies this
      ensures Valid() && glyphs == [] && font == None
    {
      font := None;
      coords := [];
      glyphs := [];
      absolute := false;
    }

    method Flush(scene: Scene)
      requires Valid()
      modifies this`glyphs, scene
      ensures Valid() && glyphs == []
      ensures Emitted(scene) == Flatten(scene.calls) == old(Emitted(scene))
      ensures |scene.calls| == old(|scene.calls| + Owed())
      ensures old(glyphs) == [] ==> scene.calls == old(scene.calls)
    {
      if glyphs == [] {
        return;
      }
      var style := Style(font.value, sizeBits, coords, color);
      var dx, dy := 0.0, 0.0;
      if !absolute {
        dx, dy := originX, originY;
      }
      FlattenOne(scene.calls, DrawCall(style, dx, dy, glyphs));
      scene.DrawGlyphs(style, dx, dy, glyphs);
      glyphs := [];
    }

    method Push(scene: Scene, style: Style, x: real, y: real, more: seq<Glyph>)
      requires Valid()
      modifies this, scene
      ensures Valid()
      ensures Emitted(scene) == old(Emitted(scene)) + Place(style, x, y, more)
      ensures |scene.calls| + Owed()
           == old(|scene.calls| + Owed())
              + if more == [] || (old(glyphs) != [] && style == old(CurrentStyle())) then 0 else 1
      ensures old(Only(style)) ==> Only(style) && scene.calls == old(scene.calls)
    {
      var compatible := font.Some? && font.value.index == style.font.index
        && font.value.dataId == style.font.dataId && sizeBits == style.sizeBits
        && coords == style.coords && color == style.color;

      if !compatible {
        Flush(scene);
        Start(style, x, y, more);
      } else {
        Append(x, y, more);
        Associative(Flatten(scene.calls), old(Unflushed()), Place(style, x, y, more));
      }
    }

    /** Whatever waits in the batch has this style. */
    ghost predicate Only(style: Style)
      reads this
      requires Valid()
    {
      glyphs != [] ==> CurrentStyle() == style
    }

    ghost function CurrentStyle(): Style
      reads this
      requires Valid() && glyphs != []
    {
      Style(font.value, sizeBits, coords, color)
    }

    /** A batch with another style, positioned relative to its first origin. */
    method Start(style: Style, x: real, y: real, more: seq<Glyph>)
      requires glyphs == []
      modifies this
      ensures Valid() && glyphs == more && Unflushed() == Place(style, x, y, more) && Only(style)
    {
      font := Some(style.font);
      sizeBits := style.sizeBits;
      coords := style.coords;
      color := style.color;
      originX := x;
      originY := y;
      absolute := false;
      glyphs := glyphs + more;
      assert glyphs == more;
    }

    /** More glyphs of the same style; from the second origin on, positions are absolute. */
    method Append(x: real, y: real, more: seq<Glyph>)
      requires Valid() && font.Some?
      modifies this`glyphs, this`absolute
      ensures Valid() && |glyphs| == |old(glyphs)| + |more|
      ensures Unflushed() == old(Unflushed())
                             + Place(Style(font.value, sizeBits, coords, color), x, y, more)
    {
      ghost var dx, dy := if absolute then 0.0 else originX, if absolute then 0.0 else originY;
      PlaceTranslated(Style(font.value, sizeBits, coords, color), glyphs, more, dx, dy, x, y);
      ghost var all := Translate(glyphs, dx, dy) + Translate(more, x, y);
      if !absolute {
        glyphs := Translate(glyphs, originX, originY);
        absolute := true;
      }
      glyphs := glyphs + Translate(more, x, y);
      assert glyphs == all;
    }
  }

  // ----- Where glyphs appear -----

  function Shift(placed: seq<PlacedGlyph>, dx: real, dy: real): seq<PlacedGlyph> {
    seq(|placed|, i requires 0 <= i < |placed| =>
      PlacedGlyph(placed[i].style, placed[i].id, placed[i].x + dx, placed[i].y + dy))
  }

  lemma ShiftAppend(a: seq<PlacedGlyph>, b: seq<PlacedGlyph>, dx: real, dy: real)
    ensures Shift(a + b, dx, dy) == Shift(a, dx, dy) + Shift(b, dx, dy)
  {
  }

  /** What the first calls draw, moved, is what the second ones draw. */
  predicate MovedCalls(calls: seq<DrawCall>, moved: seq<DrawCall>, dx: real, dy: real) {
    Flatten(moved) == Shift(Flatten(calls), dx, dy)
  }

  lemma JoinShifts(a: seq<DrawCall>, b: seq<DrawCall>, c: seq<DrawCall>, d: seq<DrawCall>,
                   dx: real, dy: real)
    requires MovedCalls(a, c, dx, dy) && MovedCalls(b, d, dx, dy)
    ensures MovedCalls(a + b, c + d, dx, dy)
  {
    FlattenAppend(a, b);
    FlattenAppend(c, d);
    ShiftAppend(Flatten(a), Flatten(b), dx, dy);
  }

  lemma ItemShift(item: LayoutItem, x: real, y: real, fg: Rgb, dx: real, dy: real)
    ensures MovedCalls(ItemCalls(item, x, y, fg), ItemCalls(item, x + dx, y + dy, fg), dx, dy)
  {
    match item
    case InlineBox =>
    case Run(run) =>
      FlattenSingle(DrawCall(RunStyle(run, fg), x, y, RunGlyphs(run)));
      FlattenSingle(DrawCall(RunStyle(run, fg), x + dx, y + dy, RunGlyphs(run)));
  }

  lemma FlattenSingle(call: DrawCall)
    ensures Flatten([call]) == Place(call.style, call.dx, call.dy, call.glyphs)
  {
    FlattenOne([], call);
    assert [] + [call] == [call];
  }

  lemma {:induction false} LineShift(items: seq<LayoutItem>, n: nat, x: real, y: real, fg: Rgb,
                                     dx: real, dy: real)
    requires n <= |items|
    ensures MovedCalls(LineCalls(items, n, x, y, fg), LineCalls(items, n, x + dx, y + dy, fg), dx, dy)
  {
    if n > 0 {
      LineShift(items, n - 1, x, y, fg, dx, dy);
      LineShiftStep(items, n, x, y, fg, dx, dy);
    }
  }

  lemma LineShiftStep(items: seq<LayoutItem>, n: nat, x: real, y: real, fg: Rgb, dx: real, dy: real)
    requires 0 < n <= |items|
    requires MovedCalls(LineCalls(items, n - 1, x, y, fg), LineCalls(items, n - 1, x + dx, y + dy, fg), dx, dy)
    ensures MovedCalls(LineCalls(items, n, x, y, fg), LineCalls(items, n, x + dx, y + dy, fg), dx, dy)
  {
    var a, c := LineCalls(items, n - 1, x, y, fg), LineCalls(items, n - 1, x + dx, y + dy, fg);
    ItemShift(items[n - 1], x, y, fg, dx, dy);
    JoinShifts(a, ItemCalls(items[n - 1], x, y, fg), c, ItemCalls(items[n - 1], x + dx, y + dy, fg), dx, dy);
  }

  lemma {:induction false} LayoutShift(layout: Layout, n: nat, x: real, y: real, fg: Rgb,
                                       dx: real, dy: real)
    requires n <= |layout|
    ensures MovedCalls(LayoutCalls(layout, n, x, y, fg), LayoutCalls(layout, n, x + dx, y + dy, fg), dx, dy)
  {
    if n > 0 {
      var items := layout[n - 1];
      LayoutShift(layout, n - 1, x, y, fg, dx, dy);
      LineShift(items, |items|, x, y, fg, dx, dy);
      JoinShifts(LayoutCalls(layout, n - 1, x, y, fg), LineCalls(items, |items|, x, y, fg),
                 LayoutCalls(layout, n - 1, x + dx, y + dy, fg),
                 LineCalls(items, |items|, x + dx, y + dy, fg), dx, dy);
    }
  }

  lemma ScaleDifference(a: int, b: int, scale: real)
    ensures b as real * scale == a as real * scale + (b - a) as real * scale
  {
  }

  lemma OriginMoved(size: SizeInfo, metrics: TextMetrics, cell: RenderableCell, moved: RenderableCell)
    ensures OriginX(size, metrics, moved)
         == OriginX(size, metrics, cell) + (moved.column - cell.column) as real * size.cellWidth
    ensures OriginY(size, metrics, moved)
         == OriginY(size, metrics, cell) + (moved.line - cell.line) as real * size.cellHeight
  {
    ScaleDifference(cell.column, moved.column, size.cellWidth);
    ScaleDifference(cell.line, moved.line, size.cellHeight);
  }

  /** The cells have the same text in the same colour. */
  predicate IsMoved(cell: RenderableCell, moved: RenderableCell) {
    && moved.character == cell.character && moved.zerowidth == cell.zerowidth
    && moved.flags == cell.flags && moved.fg == cell.fg
  }

  /**
   A cell that is moved by some lines and columns has the same glyphs, moved by as many cell heights
   and cell widths, and leaves the text system the same.
   */
  lemma CellMoved<TS>(shaper: Shaper<TS>, size: SizeInfo, ts: TS, cell: RenderableCell,
                      moved: RenderableCell)
    requires IsMoved(cell, moved)
    ensures CellCalls(shaper, size, ts, moved).0 == CellCalls(shaper, size, ts, cell).0
    ensures Flatten(CellCalls(shaper, size, ts, moved).1)
         == Shift(Flatten(CellCalls(shaper, size, ts, cell).1),
                  (moved.column - cell.column) as real * size.cellWidth,
                  (moved.line - cell.line) as real * size.cellHeight)
  {
    ShapingIgnoresPlaceAndColor(shaper, ts, moved, cell);
    var (ts', layout) := ShapeCell(shaper, ts, cell);
    if layout.Some? {
      var metrics := shaper.metrics(ts');
      OriginMoved(size, metrics, cell, moved);
      LayoutShift(layout.value, |layout.value|, OriginX(size, metrics, cell), OriginY(size, metrics, cell),
                  cell.fg, (moved.column - cell.column) as real * size.cellWidth,
                  (moved.line - cell.line) as real * size.cellHeight);
    }
  }

  /** The layout of the first cell starts at the padding plus the glyph offset. */
  lemma FirstCellOrigin<TS>(shaper: Shaper<TS>, size: SizeInfo, ts: TS, cell: RenderableCell)
    requires cell.line == cell.column == 0
    ensures var (ts', layout) := ShapeCell(shaper, ts, cell);
            layout.Some? ==>
              var metrics := shaper.metrics(ts');
              CellCalls(shaper, size, ts, cell)
              == (ts', LayoutCalls(layout.value, |layout.value|,
                                   size.paddingX as real + metrics.glyphOffsetX,
                                   size.paddingY as real + metrics.glyphOffsetY, cell.fg))
  {
  }

  /** A layout is painted line by line, and a line item by item; boxes paint nothing. */
  lemma {:induction false} LayoutCallsAppend(a: Layout, b: Layout, n: nat, x: real, y: real, fg: Rgb)
    requires n <= |b|
    ensures LayoutCalls(a + b, |a| + n, x, y, fg)
         == LayoutCalls(a, |a|, x, y, fg) + LayoutCalls(b, n, x, y, fg)
  {
    if n == 0 {
      LayoutCallsPrefix(a, b, |a|, x, y, fg);
    } else {
      LayoutCallsAppend(a, b, n - 1, x, y, fg);
      assert (a + b)[|a| + n - 1] == b[n - 1];
      var (lines, last) := (LayoutCalls(b, n - 1, x, y, fg), b[n - 1]);
      Associative(LayoutCalls(a, |a|, x, y, fg), lines, LineCalls(last, |last|, x, y, fg));
    }
  }

  lemma {:induction false} LayoutCallsPrefix(a: Layout, b: Layout, n: nat, x: real, y: real, fg: Rgb)
    requires n <= |a|
    ensures LayoutCalls(a + b, n, x, y, fg) == LayoutCalls(a, n, x, y, fg)
  {
    if n > 0 {
      LayoutCallsPrefix(a, b, n - 1, x, y, fg);
    }
  }

  lemma {:induction false} LineCallsAppend(a: seq<LayoutItem>, b: seq<LayoutItem>, n: nat,
                                           x: real, y: real, fg: Rgb)
    requires n <= |b|
    ensures LineCalls(a + b, |a| + n, x, y, fg)
         == LineCalls(a, |a|, x, y, fg) + LineCalls(b, n, x, y, fg)
  {
    if n == 0 {
      LineCallsPrefix(a, b, |a|, x, y, fg);
    } else {
      LineCallsAppend(a, b, n - 1, x, y, fg);
      assert (a + b)[|a| + n - 1] == b[n - 1];
      Associative(LineCalls(a, |a|, x, y, fg), LineCalls(b, n - 1, x, y, fg), ItemCalls(b[n - 1], x, y, fg));
    }
  }

  lemma {:induction false} LineCallsPrefix(a: seq<LayoutItem>, b: seq<LayoutItem>, n: nat,
                                           x: real, y: real, fg: Rgb)
    requires n <= |a|
    ensures LineCalls(a + b, n, x, y, fg) == LineCalls(a, n, x, y, fg)
  {
    if n > 0 {
      LineCallsPrefix(a, b, n - 1, x, y, fg);
    }
  }

  /**
   A run on its own: its glyphs in order, in the run's font and the cell's colour. The first one is at
   the run's offset plus its own, each further one is an advance plus its own offset on, and heights
   are measured up from the baseline.
   */
  lemma RunOnScreen(run: GlyphRun, x: real, y: real, fg: Rgb)
    ensures var calls := LayoutCalls([[Run(run)]], 1, x, y, fg);
            |calls| == 1 && |Flatten(calls)| == |run.glyphs|
            && forall k :: 0 <= k < |run.glyphs| ==> IsGlyphOnScreen(run, x, y, fg, Flatten(calls), k)
  {
    var call := DrawCall(RunStyle(run, fg), x, y, RunGlyphs(run));
    assert LineCalls([Run(run)], 1, x, y, fg) == [] + [call] == [call];
    assert LayoutCalls([[Run(run)]], 1, x, y, fg) == [] + [call] == [call];
    FlattenSingle(call);
    forall k | 0 <= k < |run.glyphs| ensures IsGlyphOnScreen(run, x, y, fg, Flatten([call]), k) {
      GlyphOnScreen(run, x, y, fg, k);
    }
  }

  predicate IsGlyphOnScreen(run: GlyphRun, x: real, y: real, fg: Rgb, placed: seq<PlacedGlyph>, k: nat)
    requires k < |run.glyphs| == |placed|
  {
    && placed[k].style == Style(run.font, run.sizeBits, run.coords, fg)
    && placed[k].id == run.glyphs[k].id
    && placed[k].y == y + run.baseline - run.glyphs[k].y
    && if k == 0 then placed[0].x == x + run.offset + run.glyphs[0].x
       else placed[k].x - placed[k - 1].x
            == run.glyphs[k - 1].advance + run.glyphs[k].x - run.glyphs[k - 1].x
  }

  lemma GlyphOnScreen(run: GlyphRun, x: real, y: real, fg: Rgb, k: nat)
    requires k < |run.glyphs|
    ensures IsGlyphOnScreen(run, x, y, fg, Place(RunStyle(run, fg), x, y, RunGlyphs(run)), k)
  {
  }

  lemma BoxOnScreen(x: real, y: real, fg: Rgb)
    ensures LayoutCalls([[InlineBox]], 1, x, y, fg) == []
  {
    assert LineCalls([InlineBox], 1, x, y, fg) == [] + [];
  }

  // ----- The painters -----

  method PaintLayout(scene: Scene, layout: Layout, x: real, y: real, fg: Rgb)
    modifies scene
    ensures scene.calls == old(scene.calls) + LayoutCalls(layout, |layout|, x, y, fg)
  {
    for i := 0 to |layout|
      invariant scene.calls == old(scene.calls) + LayoutCalls(layout, i, x, y, fg)
    {
      PaintLine(scene, layout[i], x, y, fg);
      Associative(old(scene.calls), LayoutCalls(layout, i, x, y, fg),
                  LineCalls(layout[i], |layout[i]|, x, y, fg));
    }
  }

  /** The inner loop of `paint_layout`. */
  method PaintLine(scene: Scene, items: seq<LayoutItem>, x: real, y: real, fg: Rgb)
    modifies scene
    ensures scene.calls == old(scene.calls) + LineCalls(items, |items|, x, y, fg)
  {
    for k := 0 to |items|
      invariant scene.calls == old(scene.calls) + LineCalls(items, k, x, y, fg)
    {
      if items[k].Run? {
        var run := items[k].run;
        scene.DrawGlyphs(RunStyle(run, fg), x, y, RunGlyphs(run));
        Associative(old(scene.calls), LineCalls(items, k, x, y, fg),
                    ItemCalls(items[k], x, y, fg));
      } else {
        assert LineCalls(items, k + 1, x, y, fg) == LineCalls(items, k, x, y, fg);
      }
    }
  }

  method PaintCellText<TS>(scene: Scene, text: TextSystem<TS>, size: SizeInfo, cell: RenderableCell)
    modifies scene, text
    ensures text.state == CellCalls(text.shaper, size, old(text.state), cell).0
    ensures scene.calls
         == old(scene.calls) + CellCalls(text.shaper, size, old(text.state), cell).1
    ensures forall first: RenderableCell :: IsMoved(first, cell) ==>
              Flatten(scene.calls)
              == old(Flatten(scene.calls))
                 + Shift(Flatten(CellCalls(text.shaper, size, old(text.state), first).1),
                         (cell.column - first.column) as real * size.cellWidth,
                         (cell.line - first.line) as real * size.cellHeight)
  {
    ghost var more := CellCalls(text.shaper, size, text.state, cell).1;
    forall first: RenderableCell | IsMoved(first, cell)
      ensures Flatten(more)
           == Shift(Flatten(CellCalls(text.shaper, size, text.state, first).1),
                    (cell.column - first.column) as real * size.cellWidth,
                    (cell.line - first.line) as real * size.cellHeight)
    {
      CellMoved(text.shaper, size, text.state, first, cell);
    }
    FlattenAppend(scene.calls, more);
    PaintShaped(scene, text, size, cell);
    assert scene.calls == old(scene.calls) + more;
  }

  method PaintShaped<TS>(scene: Scene, text: TextSystem<TS>, size: SizeInfo, cell: RenderableCell)
    modifies scene, text
    ensures text.state == CellCalls(text.shaper, size, old(text.state), cell).0
    ensures scene.calls
         == old(scene.calls) + CellCalls(text.shaper, size, old(text.state), cell).1
  {
    var layout := text.Shape(cell);
    if layout.None? {
      return;
    }
    var metrics := text.shaper.metrics(text.state);
    PaintLayout(scene, layout.value, OriginX(size, metrics, cell), OriginY(size, metrics, cell),
                cell.fg);
  }

  method BatchLayout(scene: Scene, batch: GlyphBatch, layout: Layout, x: real, y: real, fg: Rgb,
                     ghost style: Style)
    requires batch.Valid()
    modifies scene, batch
    ensures batch.Valid()
    ensures batch.Emitted(scene)
         == old(batch.Emitted(scene))
            + Flatten(LayoutCalls(layout, |layout|, x, y, fg))
    ensures |scene.calls| + batch.Owed()
         <= old(|scene.calls| + batch.Owed()) + |LayoutCalls(layout, |layout|, x, y, fg)|
    ensures old(batch.Only(style)) && OneStyle(LayoutCalls(layout, |layout|, x, y, fg), style) ==>
              batch.Only(style) && scene.calls == old(scene.calls)
  {
    for i := 0 to |layout|
      invariant batch.Valid()
      invariant old(batch.Only(style)) && OneStyle(LayoutCalls(layout, i, x, y, fg), style) ==>
                  batch.Only(style) && scene.calls == old(scene.calls)
      invariant batch.Emitted(scene)
             == old(batch.Emitted(scene))
                + Flatten(LayoutCalls(layout, i, x, y, fg))
      invariant |scene.calls| + batch.Owed()
             <= old(|scene.calls| + batch.Owed()) + |LayoutCalls(layout, i, x, y, fg)|
    {
      BatchLine(scene, batch, layout[i], x, y, fg, style);
      ghost var done, more :=
        LayoutCalls(layout, i, x, y, fg), LineCalls(layout[i], |layout[i]|, x, y, fg);
      FlattenAppend(done, more);
      OneStyleAppend(done, more, style);
      Associative(old(batch.Emitted(scene)), Flatten(done), Flatten(more));
    }
  }

  /** The inner loop of `batch_layout`. */
  method BatchLine(scene: Scene, batch: GlyphBatch, items: seq<LayoutItem>, x: real, y: real, fg: Rgb,
                   ghost style: Style)
    requires batch.Valid()
    modifies scene, batch
    ensures batch.Valid()
    ensures batch.Emitted(scene)
         == old(batch.Emitted(scene))
            + Flatten(LineCalls(items, |items|, x, y, fg))
    ensures |scene.calls| + batch.Owed()
         <= old(|scene.calls| + batch.Owed()) + |LineCalls(items, |items|, x, y, fg)|
    ensures old(batch.Only(style)) && OneStyle(LineCalls(items, |items|, x, y, fg), style) ==>
              batch.Only(style) && scene.calls == old(scene.calls)
  {
    for k := 0 to |items|
      invariant batch.Valid()
      invariant old(batch.Only(style)) && OneStyle(LineCalls(items, k, x, y, fg), style) ==>
                  batch.Only(style) && scene.calls == old(scene.calls)
      invariant batch.Emitted(scene)
             == old(batch.Emitted(scene))
                + Flatten(LineCalls(items, k, x, y, fg))
      invariant |scene.calls| + batch.Owed()
             <= old(|scene.calls| + batch.Owed()) + |LineCalls(items, k, x, y, fg)|
    {
      if items[k].Run? {
        var run := items[k].run;
        batch.Push(scene, RunStyle(run, fg), x, y, RunGlyphs(run));
      }
      LineStep(items, k, x, y, fg, old(batch.Emitted(scene)));
      OneStyleAppend(LineCalls(items, k, x, y, fg), ItemCalls(items[k], x, y, fg), style);
      assert items[k].Run? && OneStyle(ItemCalls(items[k], x, y, fg), style) ==>
          ItemCalls(items[k], x, y, fg)[0].style == style;
    }
  }

  lemma LineStep(items: seq<LayoutItem>, k: nat, x: real, y: real, fg: Rgb, before: seq<PlacedGlyph>)
    requires k < |items|
    ensures var done, all := LineCalls(items, k, x, y, fg), LineCalls(items, k + 1, x, y, fg);
            match items[k]
            case InlineBox => all == done
            case Run(run) =>
              && |all| == |done| + 1
              && before + Flatten(all)
                 == (before + Flatten(done)) + Place(RunStyle(run, fg), x, y, RunGlyphs(run))
  {
    var done := LineCalls(items, k, x, y, fg);
    match items[k]
    case InlineBox =>
      assert done + [] == done;
    case Run(run) =>
      FlattenOne(done, DrawCall(RunStyle(run, fg), x, y, RunGlyphs(run)));
      Associative(before, Flatten(done), Place(RunStyle(run, fg), x, y, RunGlyphs(run)));
  }

  method BatchCellText<TS>(scene: Scene, batch: GlyphBatch, text: TextSystem<TS>,
                           size: SizeInfo, cell: RenderableCell, ghost style: Style)
    requires batch.Valid()
    modifies scene, batch, text
    ensures batch.Valid()
    ensures text.state == CellCalls(text.shaper, size, old(text.state), cell).0
    ensures batch.Emitted(scene)
         == old(batch.Emitted(scene))
            + Flatten(CellCalls(text.shaper, size, old(text.state), cell).1)
    ensures |scene.calls| + batch.Owed()
         <= old(|scene.calls| + batch.Owed())
            + |CellCalls(text.shaper, size, old(text.state), cell).1|
    ensures old(batch.Only(style))
            && OneStyle(CellCalls(text.shaper, size, old(text.state), cell).1, style) ==>
              batch.Only(style) && scene.calls == old(scene.calls)
  {
    var layout := text.Shape(cell);
    if layout.None? {
      return;
    }
    var metrics := text.shaper.metrics(text.state);
    BatchLayout(scene, batch, layout.value,
                OriginX(size, metrics, cell), OriginY(size, metrics, cell), cell.fg, style);
  }

  /**
   What the per-cell painter has done after each prefix of the cells: its text state, the glyphs on
   screen and the number of draw calls.
   */
  datatype Frame<!TS> = Frame(
    shaper: Shaper<TS>, size: SizeInfo, cells: seq<RenderableCell>,
    states: seq<TS>, glyphs: seq<seq<PlacedGlyph>>, calls: seq<nat>)
  {
    ghost predicate Valid() {
      && |states| == |glyphs| == |calls| == |cells| + 1
      && forall n {:trigger Step(n)} :: 0 <= n < |cells| ==> Step(n)
    }

    ghost predicate Step(n: nat)
      requires |states| == |glyphs| == |calls| == |cells| + 1 && n < |cells|
    {
      var more := CellCalls(shaper, size, states[n], cells[n]);
      && states[n + 1] == more.0
      && glyphs[n + 1] == glyphs[n] + Flatten(more.1)
      && calls[n + 1] == calls[n] + |more.1|
    }

    ghost predicate Agrees(n: nat, ts: TS, emitted: seq<PlacedGlyph>, cost: nat)
      requires Valid() && n <= |cells|
    {
      ts == states[n] && emitted == glyphs[n] && cost <= calls[n]
    }

    ghost predicate Same(m: nat, n: nat)
      requires Valid() && m <= |cells| && n <= |cells|
    {
      states[m] == states[n] && glyphs[m] == glyphs[n] && calls[m] == calls[n]
    }

    /** The text of the first n cells has one style. */
    ghost predicate Styled(style: Style, n: nat)
      requires Valid() && n <= |cells|
    {
      n == 0 || (Styled(style, n - 1) && CellStyle(style, n - 1))
    }

    ghost predicate CellStyle(style: Style, n: nat)
      requires Valid() && n < |cells|
    {
      OneStyle(CellCalls(shaper, size, states[n], cells[n]).1, style)
    }

    lemma {:induction false} StyledAt(style: Style, n: nat, k: nat)
      requires Valid() && k < n <= |cells| && Styled(style, n)
      ensures CellStyle(style, k)
    {
      if k < n - 1 {
        StyledAt(style, n - 1, k);
      }
    }

    /** A cell without visible text changes nothing for the per-cell painter. */
    lemma Skip(n: nat)
      requires Valid() && n < |cells| && !HasVisibleText(cells[n])
      ensures Same(n, n + 1)
    {
      assert Step(n);
      FilterAgreesWithShaping(shaper, states[n], cells[n]);
      assert glyphs[n] + [] == glyphs[n];
    }

    ghost predicate Tabulated(n: nat)
      requires Valid() && n <= |cells|
    {
      && states[n] == Reference(shaper, size, states[0], cells, n).0
      && glyphs[n] == glyphs[0] + Flatten(Reference(shaper, size, states[0], cells, n).1)
      && calls[n] == calls[0] + |Reference(shaper, size, states[0], cells, n).1|
    }

    /** The table is the reference painter. */
    lemma {:induction false} Tabulates(n: nat)
      requires Valid() && n <= |cells|
      ensures Tabulated(n)
    {
      if n == 0 {
        assert glyphs[0] + [] == glyphs[0];
      } else {
        Tabulates(n - 1);
        TabulatesNext(n);
      }
    }

    lemma TabulatesNext(n: nat)
      requires Valid() && 0 < n <= |cells| && Tabulated(n - 1)
      ensures Tabulated(n)
    {
      assert Step(n - 1);
      ReferenceStep(shaper, size, states[0], cells, n, glyphs[0], glyphs[n - 1], glyphs[n],
                    states[n - 1], states[n]);
    }
  }

  lemma ReferenceStep<TS>(shaper: Shaper<TS>, size: SizeInfo, ts: TS, cells: seq<RenderableCell>,
                          n: nat, drawn: seq<PlacedGlyph>, before: seq<PlacedGlyph>,
                          after: seq<PlacedGlyph>, ts1: TS, ts2: TS)
    requires 0 < n <= |cells| && ts1 == Reference(shaper, size, ts, cells, n - 1).0
    requires before == drawn + Flatten(Reference(shaper, size, ts, cells, n - 1).1)
    requires ts2 == CellCalls(shaper, size, ts1, cells[n - 1]).0
    requires after == before + Flatten(CellCalls(shaper, size, ts1, cells[n - 1]).1)
    ensures ts2 == Reference(shaper, size, ts, cells, n).0
    ensures after == drawn + Flatten(Reference(shaper, size, ts, cells, n).1)
    ensures |Reference(shaper, size, ts, cells, n).1|
         == |Reference(shaper, size, ts, cells, n - 1).1|
            + |CellCalls(shaper, size, ts1, cells[n - 1]).1|
  {
    var calls := Reference(shaper, size, ts, cells, n - 1).1;
    var more := CellCalls(shaper, size, ts1, cells[n - 1]).1;
    FlattenAppend(calls, more);
    Associative(drawn, Flatten(calls), Flatten(more));
  }

  lemma {:induction false} BuildFrame<TS>(
    shaper: Shaper<TS>, size: SizeInfo, ts: TS, cells: seq<RenderableCell>,
    drawn: seq<PlacedGlyph>, calls: nat) returns (frame: Frame<TS>)
    ensures frame.shaper == shaper && frame.size == size && frame.cells == cells && frame.Valid()
    ensures frame.Agrees(0, ts, drawn, calls) && frame.calls[0] == calls
  {
    frame := Frame(shaper, size, [], [ts], [drawn], [calls]);
    for n := 0 to |cells|
      invariant frame.shaper == shaper && frame.size == size && frame.cells == cells[..n]
      invariant frame.Valid()
      invariant frame.Agrees(0, ts, drawn, calls) && frame.calls[0] == calls
    {
      var more := CellCalls(shaper, size, frame.states[n], cells[n]);
      var longer := Frame(shaper, size, cells[..n + 1], frame.states + [more.0],
                          frame.glyphs + [frame.glyphs[n] + Flatten(more.1)],
                          frame.calls + [frame.calls[n] + |more.1|]);
      forall k | 0 <= k < n + 1
        ensures longer.Step(k)
      {
        assert k < n ==> frame.Step(k);
      }
      frame := longer;
    }
  }

  /** The last of the first n cells that has visible text. */
  function LastVisible(cells: seq<RenderableCell>, n: nat): Option<RenderableCell>
    requires n <= |cells|
  {
    if n == 0 then None
    else if HasVisibleText(cells[n - 1]) then Some(cells[n - 1])
    else LastVisible(cells, n - 1)
  }

  function VisibleCount(cells: seq<RenderableCell>, n: nat): nat
    requires n <= |cells|
  {
    if n == 0 then 0
    else VisibleCount(cells, n - 1) + if HasVisibleText(cells[n - 1]) then 1 else 0
  }

  /** Each cell with visible text has the text style of the one before it. */
  predicate Agree(cells: seq<RenderableCell>, n: nat)
    requires n <= |cells|
  {
    n == 0 ||
    (Agree(cells, n - 1)
     && (HasVisibleText(cells[n - 1]) && LastVisible(cells, n - 1).Some? ==>
           CompatibleTextStyle(LastVisible(cells, n - 1).value, cells[n - 1])))
  }

  /** At least two cells have visible text, in text styles that agree, shaped in one style. */
  ghost predicate IsOneBatch<TS>(shaper: Shaper<TS>, size: SizeInfo, ts: TS,
                                 cells: seq<RenderableCell>, style: Style)
  {
    && Agree(cells, |cells|) && VisibleCount(cells, |cells|) >= 2
    && forall n :: 0 <= n < |cells| ==> HasStyle(shaper, size, ts, cells, style, n)
  }

  /** All calls of the per-cell painter for cell n have the style. */
  ghost predicate HasStyle<TS>(shaper: Shaper<TS>, size: SizeInfo, ts: TS,
                               cells: seq<RenderableCell>, style: Style, n: nat)
    requires n < |cells|
  {
    OneStyle(CellCalls(shaper, size, Reference(shaper, size, ts, cells, n).0, cells[n]).1, style)
  }

  ghost predicate SomeOneBatch<TS>(shaper: Shaper<TS>, size: SizeInfo, ts: TS,
                                   cells: seq<RenderableCell>)
  {
    exists style :: IsOneBatch(shaper, size, ts, cells, style)
  }

  lemma {:induction false} OneBatchStyled<TS>(frame: Frame<TS>, style: Style, n: nat)
    requires frame.Valid() && n <= |frame.cells|
    requires IsOneBatch(frame.shaper, frame.size, frame.states[0], frame.cells, style)
    ensures frame.Styled(style, n)
  {
    if n > 0 {
      OneBatchStyled(frame, style, n - 1);
      assert HasStyle(frame.shaper, frame.size, frame.states[0], frame.cells, style, n - 1);
      StyleInTable(frame, style, n - 1);
    }
  }

  lemma StyleInTable<TS>(frame: Frame<TS>, style: Style, n: nat)
    requires frame.Valid() && n < |frame.cells|
    requires HasStyle(frame.shaper, frame.size, frame.states[0], frame.cells, style, n)
    ensures frame.CellStyle(style, n)
  {
    frame.Tabulates(n);
  }

  /** The painter's objects are where the per-cell painter is after n cells of the frame. */
  ghost predicate InStep<TS>(frame: Frame<TS>, n: nat,
                             scene: Scene, batch: GlyphBatch, text: TextSystem<TS>)
    reads scene, batch, text
  {
    && batch.Valid() && frame.Valid() && text.shaper == frame.shaper && n <= |frame.cells|
    && frame.Agrees(n, text.state, batch.Emitted(scene), |scene.calls| + batch.Owed())
  }

  method PaintNext<TS>(scene: Scene, batch: GlyphBatch, text: TextSystem<TS>, size: SizeInfo,
                       cell: RenderableCell, ghost frame: Frame<TS>, ghost n: nat, ghost next: nat)
    requires InStep(frame, n, scene, batch, text) && batch.glyphs == []
    requires n < |frame.cells| && frame.cells[n] == cell && frame.size == size
    requires next <= |frame.cells| && frame.Same(n + 1, next)
    modifies scene, text
    ensures InStep(frame, next, scene, batch, text)
  {
    FlattenAppend(scene.calls, CellCalls(text.shaper, size, text.state, cell).1);
    assert frame.Step(n);
    PaintCellText(scene, text, size, cell);
  }

  method BatchNext<TS>(scene: Scene, batch: GlyphBatch, text: TextSystem<TS>, size: SizeInfo,
                       cell: RenderableCell, ghost frame: Frame<TS>, ghost n: nat, ghost next: nat,
                       ghost style: Style)
    requires InStep(frame, n, scene, batch, text)
    requires n < |frame.cells| && frame.cells[n] == cell && frame.size == size
    requires next <= |frame.cells| && frame.Same(n + 1, next)
    modifies scene, batch, text
    ensures InStep(frame, next, scene, batch, text)
    ensures old(batch.Only(style)) && frame.CellStyle(style, n) ==>
              batch.Only(style) && scene.calls == old(scene.calls)
  {
    assert frame.Step(n);
    BatchCellText(scene, batch, text, size, cell, style);
  }

  method FlushBatch<TS>(scene: Scene, batch: GlyphBatch, text: TextSystem<TS>,
                        ghost frame: Frame<TS>, ghost n: nat)
    requires InStep(frame, n, scene, batch, text)
    modifies scene, batch
    ensures InStep(frame, n, scene, batch, text) && batch.glyphs == []
    ensures batch.Emitted(scene) == Flatten(scene.calls)
    ensures |scene.calls| <= old(|scene.calls|) + 1
  {
    batch.Flush(scene);
  }

  lemma SkipCell<TS>(scene: Scene, batch: GlyphBatch, text: TextSystem<TS>, frame: Frame<TS>, n: nat)
    requires InStep(frame, n, scene, batch, text)
    requires n < |frame.cells| && !HasVisibleText(frame.cells[n])
    ensures InStep(frame, n + 1, scene, batch, text)
  {
    frame.Skip(n);
  }

  /**
   Cells before `done` have been given to the scene or the batch; cells from `done` to i are the
   pending cell, if it waits, and cells without visible text.
   */
  ghost predicate Waiting<TS>(frame: Frame<TS>, done: nat, i: nat, pending: Option<RenderableCell>,
                              batching: bool, glyphs: seq<Glyph>)
    requires frame.Valid()
  {
    && done <= i <= |frame.cells|
    && (batching ==> pending.Some? && done == i)
    && (!batching ==> glyphs == [])
    && (!batching && pending.None? ==> done == i)
    && (!batching && pending.Some? ==>
          done < i && frame.cells[done] == pending.value && frame.Same(done + 1, i))
  }

  /** The loop body for a cell with visible text, which becomes the pending cell. */
  method PaintOrBatch<TS>(scene: Scene, batch: GlyphBatch, text: TextSystem<TS>, size: SizeInfo,
                          cell: RenderableCell, pending: Option<RenderableCell>, wasBatching: bool,
                          ghost frame: Frame<TS>, ghost i: nat, ghost from: nat, ghost style: Style)
    returns (next: Option<RenderableCell>, batching: bool, ghost done: nat)
    requires InStep(frame, from, scene, batch, text)
    requires Waiting(frame, from, i, pending, wasBatching, batch.glyphs)
    requires i < |frame.cells| && frame.cells[i] == cell && frame.size == size
    modifies scene, batch, text
    ensures InStep(frame, done, scene, batch, text)
    ensures Waiting(frame, done, i + 1, next, batching, batch.glyphs)
    ensures next == Some(cell)
    ensures batching <==> pending.Some? && CompatibleTextStyle(pending.value, cell)
    ensures old(batch.Only(style)) && frame.CellStyle(style, i) && (from < i ==> frame.CellStyle(style, from))
            && (pending.Some? ==> batching) ==>
              batch.Only(style) && scene.calls == old(scene.calls)
  {
    next, batching, done := Some(cell), wasBatching, i;
    if batching {
      if CompatibleTextStyle(pending.value, cell) {
        BatchNext(scene, batch, text, size, cell, frame, i, i + 1, style);
        done := i + 1;
      } else {
        FlushBatch(scene, batch, text, frame, i);
        batching := false;
      }
    } else if pending.Some? {
      var previous := pending.value;
      if CompatibleTextStyle(previous, cell) {
        BatchTwo(scene, batch, text, size, previous, cell, frame, from, i, style);
        batching := true;
        done := i + 1;
      } else {
        PaintNext(scene, batch, text, size, previous, frame, from, i);
      }
    }
  }

  /** The pending cell is the last visible one, and as long as all cells agree nothing is drawn. */
  ghost predicate Saves<TS>(frame: Frame<TS>, style: Style, i: nat, pending: Option<RenderableCell>,
                            batching: bool, batch: GlyphBatch, scene: Scene, calls: seq<DrawCall>)
    requires frame.Valid() && i <= |frame.cells| && batch.Valid()
    reads batch, scene
  {
    && pending == LastVisible(frame.cells, i)
    && (Agree(frame.cells, i) && VisibleCount(frame.cells, i) >= 2 ==> batching)
    && (Agree(frame.cells, i) && frame.Styled(style, i) ==> batch.Only(style) && scene.calls == calls)
  }

  /** The loop body. */
  method PaintOne<TS>(scene: Scene, batch: GlyphBatch, text: TextSystem<TS>, size: SizeInfo,
                      cell: RenderableCell, pending: Option<RenderableCell>, wasBatching: bool,
                      ghost frame: Frame<TS>, ghost i: nat, ghost from: nat, ghost style: Style,
                      ghost calls: seq<DrawCall>)
    returns (next: Option<RenderableCell>, batching: bool, ghost done: nat)
    requires InStep(frame, from, scene, batch, text)
    requires Waiting(frame, from, i, pending, wasBatching, batch.glyphs)
    requires i < |frame.cells| && frame.cells[i] == cell && frame.size == size
    requires Saves(frame, style, i, pending, wasBatching, batch, scene, calls)
    modifies scene, batch, text
    ensures InStep(frame, done, scene, batch, text)
    ensures Waiting(frame, done, i + 1, next, batching, batch.glyphs)
    ensures Saves(frame, style, i + 1, next, batching, batch, scene, calls)
  {
    next, batching, done := pending, wasBatching, from;
    if HasVisibleText(cell) {
      OneVisible(frame.cells, i);
      if from < i && frame.Styled(style, i) {
        frame.StyledAt(style, i, from);
      }
      next, batching, done :=
        PaintOrBatch(scene, batch, text, size, cell, pending, batching, frame, i, from, style);
    } else if batching || pending.None? {
      SkipCell(scene, batch, text, frame, i);
      done := i + 1;
    } else {
      frame.Skip(i);
    }
  }

  /** A batch starts with the pending cell and the one after it. */
  method BatchTwo<TS>(scene: Scene, batch: GlyphBatch, text: TextSystem<TS>, size: SizeInfo,
                      previous: RenderableCell, cell: RenderableCell,
                      ghost frame: Frame<TS>, ghost n: nat, ghost i: nat, ghost style: Style)
    requires InStep(frame, n, scene, batch, text) && frame.size == size
    requires n < i < |frame.cells| && frame.cells[n] == previous && frame.cells[i] == cell
    requires frame.Same(n + 1, i)
    modifies scene, batch, text
    ensures InStep(frame, i + 1, scene, batch, text)
    ensures old(batch.Only(style)) && frame.CellStyle(style, n) && frame.CellStyle(style, i) ==>
              batch.Only(style) && scene.calls == old(scene.calls)
  {
    BatchNext(scene, batch, text, size, previous, frame, n, i, style);
    BatchNext(scene, batch, text, size, cell, frame, i, i + 1, style);
  }

  /**
   The batching painter draws what the per-cell painter draws: the same glyphs with the same fonts,
   sizes, coordinates, colours and absolute positions in the same order; it leaves the text system
   in the same state, leaves nothing in the batch and makes no more draw calls. When all the text of
   two or more cells has one style, it makes at most one.
   */
  method PaintCellTexts<TS>(scene: Scene, batch: GlyphBatch, text: TextSystem<TS>,
                            size: SizeInfo, cells: seq<RenderableCell>)
    modifies scene, batch, text
    ensures batch.Valid() && batch.glyphs == []
    ensures PaintsReference(text.shaper, size, cells, old(text.state), old(Flatten(scene.calls)),
                            old(|scene.calls|), text.state, Flatten(scene.calls), |scene.calls|)
    ensures SomeOneBatch(text.shaper, size, old(text.state), cells) ==>
              |scene.calls| <= old(|scene.calls|) + 1
  {
    batch.Reset();
    ghost var frame :=
      BuildFrame(text.shaper, size, text.state, cells, Flatten(scene.calls), |scene.calls|);
    ghost var style := ChooseStyle(frame);
    PaintFrame(scene, batch, text, size, cells, frame, style);
    Finish(scene, batch, text, frame, style);
  }

  /** All that is drawn and waits after the last cell is what the per-cell painter draws. */
  method PaintFrame<TS>(scene: Scene, batch: GlyphBatch, text: TextSystem<TS>, size: SizeInfo,
                        cells: seq<RenderableCell>, ghost frame: Frame<TS>, ghost style: Style)
    requires InStep(frame, 0, scene, batch, text) && batch.glyphs == []
    requires frame.cells == cells && frame.size == size
    modifies scene, batch, text
    ensures InStep(frame, |cells|, scene, batch, text)
    ensures IsStyledBatch(frame, style) ==> scene.calls == old(scene.calls)
  {
    var pending: Option<RenderableCell> := None;
    var batching := false;
    ghost var done: nat := 0;

    for i := 0 to |cells|
      invariant InStep(frame, done, scene, batch, text)
      invariant Waiting(frame, done, i, pending, batching, batch.glyphs)
      invariant Saves(frame, style, i, pending, batching, batch, scene, old(scene.calls))
    {
      pending, batching, done := PaintOne(scene, batch, text, size, cells[i], pending, batching,
                                          frame, i, done, style, old(scene.calls));
    }

    if !batching && pending.Some? {
      PaintNext(scene, batch, text, size, pending.value, frame, done, |cells|);
    }
  }

  /** Two or more cells have visible text, their text styles agree, and all text has this style. */
  ghost predicate IsStyledBatch<TS>(frame: Frame<TS>, style: Style)
    requires frame.Valid()
  {
    && Agree(frame.cells, |frame.cells|) && VisibleCount(frame.cells, |frame.cells|) >= 2
    && frame.Styled(style, |frame.cells|)
  }

  /**
   From a text state and what is on the scene, the per-cell painter comes to the same text state and
   the same glyphs, with at least as many draw calls.
   */
  ghost predicate PaintsReference<TS>(shaper: Shaper<TS>, size: SizeInfo, cells: seq<RenderableCell>,
                                      ts: TS, drawn: seq<PlacedGlyph>, calls: nat,
                                      ts': TS, drawn': seq<PlacedGlyph>, calls': nat)
  {
    var (after, more) := Reference(shaper, size, ts, cells, |cells|);
    ts' == after && drawn' == drawn + Flatten(more) && calls' <= calls + |more|
  }

  /** Without a last visible cell there is no visible cell. */
  lemma {:induction false} OneVisible(cells: seq<RenderableCell>, n: nat)
    requires n <= |cells|
    ensures LastVisible(cells, n).None? <==> VisibleCount(cells, n) == 0
  {
    if n > 0 {
      OneVisible(cells, n - 1);
    }
  }

  /** If all text of the frame has one style, it is this one. */
  ghost predicate IsChosen<TS>(frame: Frame<TS>, style: Style)
    requires frame.Valid()
  {
    forall s :: frame.Styled(s, |frame.cells|) ==> frame.Styled(style, |frame.cells|)
  }

  lemma ChooseStyle<TS>(frame: Frame<TS>) returns (style: Style)
    requires frame.Valid()
    ensures IsChosen(frame, style)
  {
    if s :| frame.Styled(s, |frame.cells|) {
      style := s;
    } else {
      style := Style(Font(0, 0), 0, [], Rgb(0, 0, 0));
    }
  }

  lemma OneBatchIsStyled<TS>(frame: Frame<TS>, style: Style)
    requires frame.Valid() && IsChosen(frame, style)
    ensures SomeOneBatch(frame.shaper, frame.size, frame.states[0], frame.cells) ==>
              IsStyledBatch(frame, style)
  {
    if SomeOneBatch(frame.shaper, frame.size, frame.states[0], frame.cells) {
      var s :| IsOneBatch(frame.shaper, frame.size, frame.states[0], frame.cells, s);
      OneBatchStyled(frame, s, |frame.cells|);
    }
  }

  lemma TableIsReference<TS>(frame: Frame<TS>, calls: nat)
    requires frame.Valid() && calls <= frame.calls[|frame.cells|]
    ensures PaintsReference(frame.shaper, frame.size, frame.cells, frame.states[0], frame.glyphs[0],
                            frame.calls[0], frame.states[|frame.cells|], frame.glyphs[|frame.cells|], calls)
  {
    frame.Tabulates(|frame.cells|);
  }

  /** The last flush; the frame is then what the per-cell painter makes of all cells. */
  method Finish<TS>(scene: Scene, batch: GlyphBatch, text: TextSystem<TS>, ghost frame: Frame<TS>,
                    ghost style: Style)
    requires InStep(frame, |frame.cells|, scene, batch, text) && IsChosen(frame, style)
    modifies scene, batch
    ensures batch.Valid() && batch.glyphs == []
    ensures PaintsReference(frame.shaper, frame.size, frame.cells, frame.states[0], frame.glyphs[0],
                            frame.calls[0], text.state, Flatten(scene.calls), |scene.calls|)
    ensures SomeOneBatch(frame.shaper, frame.size, frame.states[0], frame.cells) ==>
              IsStyledBatch(frame, style)
    ensures |scene.calls| <= old(|scene.calls|) + 1
  {
    FlushBatch(scene, batch, text, frame, |frame.cells|);
    TableIsReference(frame, |scene.calls|);
    OneBatchIsStyled(frame, style);
  }
}
