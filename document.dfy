/**
 * The document objects the loader builds and the saver writes: pages,
 * layers and the four element kinds, as values. Only the fields the load and
 * save code reads or writes are kept.
 */
module Document {

  import opened Chars

  /** `Color` as the 32-bit value `uint32_t(c)`. */
  type Color = c: int | 0 <= c < 0x1_0000_0000

  /** `size_t`. */
  type SizeT = n: int | 0 <= n < 0x1_0000_0000_0000_0000

  /** `StrokeTool`; `OtherTool` stands for a value outside the enumeration. */
  datatype Tool = PEN | ERASER | HIGHLIGHTER | OtherTool(code: int)

  /** `StrokeCapStyle`; `OtherCapStyle` stands for a value outside the enumeration. */
  datatype CapStyle = ROUND | BUTT | SQUARE | OtherCapStyle(code: int)

  /** `LineStyle`: the dash pattern; a solid line has none. */
  datatype LineStyle = LineStyle(dashes: seq<real>)

  /** `Point`: a position and a pressure `z`. */
  datatype Point = Point(x: real, y: real, z: real)

  /** `Point::NO_PRESSURE`. */
  const NoPressure: real := -1.0

  datatype Stroke = Stroke(
    tool: Tool,
    color: Color,
    width: real,
    fill: int,
    capStyle: CapStyle,
    lineStyle: LineStyle,
    points: seq<Point>,
    audioFilename: string,
    timestamp: nat)

  datatype Text = Text(font: string, size: real, x: real, y: real, color: Color, contents: string, audioFilename: string, timestamp: nat)

  datatype Image = Image(x: real, y: real, width: real, height: real, data: string)

  datatype TexImage = TexImage(x: real, y: real, width: real, height: real, text: string, data: string)

  datatype Element =
    | StrokeElement(stroke: Stroke)
    | TextElement(text: Text)
    | ImageElement(image: Image)
    | TexImageElement(teximage: TexImage)

  datatype Layer = Layer(name: Option<string>, elements: seq<Element>)

  /**
   * A background image: whether it is attached to the file, whether its
   * pixels are loaded, its path, and the page it was last saved with (-1
   * for none). Pages that share one image share one object.
   */
  datatype BackgroundImage = BackgroundImage(attached: bool, hasPixbuf: bool, filepath: string, cloneId: int)

  /**
   * The background of a page: a solid pattern, an image (an index into the
   * document's background images), or a page of the background PDF.
   */
  datatype Background =
    | Solid(format: string, config: string, color: Color)
    | Pixmap(image: nat)
    | PdfPage(pageNr: nat)

  datatype Page = Page(width: real, height: real, background: Background, backgroundName: Option<string>, layers: seq<Layer>)

  /**
   * A fresh stroke that took `applyStyleFrom(s)` and then `setPointVector(points)`.
   * `applyStyleFrom` is taken to copy the tool, color, width, fill, cap style
   * and line style of `s` and no audio file or timestamp; its body is not
   * part of this model.
   */
  function Restyled(s: Stroke, points: seq<Point>): Stroke
  {
    Stroke(s.tool, s.color, s.width, s.fill, s.capStyle, s.lineStyle, points, "", 0)
  }

  /** `Layer()`: a layer without name and elements. */
  const EmptyLayer: Layer := Layer(None, [])
}
