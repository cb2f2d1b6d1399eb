/** Values shared by the display modules: options, colours, and the cells the renderer is given. */
module Content {

  datatype Option<+T> = None | Some(value: T)

  datatype Rgb = Rgb(r: nat, g: nat, b: nat)

  /** The flags that draw a line through or below a cell. */
  datatype LineFlag =
    Underline | DoubleUnderline | Strikeout | Undercurl | DottedUnderline | DashedUnderline

  /** The cell flags that the modelled code looks at. */
  datatype Flags = Flags(
    bold: bool, italic: bool, dim: bool, hidden: bool, wideChar: bool, lines: set<LineFlag>)

  datatype FontVariant = Normal | Bold | Italic | BoldItalic

  datatype RenderableCell = RenderableCell(
    character: char,
    line: nat,
    column: nat,
    fg: Rgb,
    bg: Rgb,
    bgAlpha: real,
    underline: Rgb,
    flags: Flags,
    zerowidth: Option<seq<char>>)

  /** Sizes in pixels. Paddings are floored when a size is created, so they are whole. */
  datatype SizeInfo = SizeInfo(cellWidth: real, cellHeight: real, paddingX: int, paddingY: int)
}
