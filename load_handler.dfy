/**
 * `LoadHandler`: the object the parser builds the document through. It holds
 * the pages read so far (the last one open while its elements are read), the
 * open layer and the element being read, the pressures of the legacy stroke
 * text, and the position of the legacy `GMarkup` callbacks
 * (`parserEndElement`, `parserText`).
 *
 * Pointers become options: a null `unique_ptr` is `None`, and `release`
 * or `std::move` into a container leaves `None` behind.
 */
module LoadHandler {

  import opened Chars
  import opened Document
  import opened Numbers
  import opened PressurePortions

  /** `ParserPosition`. */
  datatype Position = NotStarted | Started | InPage | InLayer | InStroke | InText | InImage | InTexImage | Finished

  /** The positions inside a layer: an element, or the layer itself. */
  predicate InsideLayer(p: Position)
  {
    p.InLayer? || p.InStroke? || p.InText? || p.InImage? || p.InTexImage?
  }

  /** The positions inside a page. */
  predicate InsidePage(p: Position)
  {
    p.InPage? || InsideLayer(p)
  }

  /** The fields of `LoadHandler` the modelled functions read or write. */
  datatype Loader = Loader(
    pos: Position,
    endRootTag: string,
    pages: seq<Page>,
    pageOpen: bool,
    layer: Option<Layer>,
    stroke: Option<Stroke>,
    text: Option<Text>,
    image: Option<Image>,
    teximage: Option<TexImage>,
    pressureBuffer: seq<real>,
    fileVersion: int,
    isGzFile: bool,
    audioFiles: map<string, string>)

  /**
   * What the handler keeps true between callbacks: the open page is the
   * last of `pages`, and whatever the position is inside exists.
   */
  predicate Valid(b: Loader)
  {
    && (b.pageOpen ==> |b.pages| > 0)
    && (InsidePage(b.pos) ==> b.pageOpen)
    && (InsideLayer(b.pos) ==> b.layer.Some?)
    && (b.pos.InText? ==> b.text.Some?)
    && (b.pos.InImage? ==> b.image.Some?)
    && (b.pos.InTexImage? ==> b.teximage.Some?)
  }

  /** The open page: the last one added. */
  function CurrentPage(b: Loader): Page
    requires |b.pages| > 0
  {
    b.pages[|b.pages| - 1]
  }

  /** `page->addLayer(l)`. */
  function WithLayer(b: Loader, l: Layer): Loader
    requires |b.pages| > 0
  {
    var p := CurrentPage(b);
    b.(pages := b.pages[..|b.pages| - 1] + [p.(layers := p.layers + [l])])
  }

  /** `layer->addElement(e)`. */
  function WithElement(b: Loader, e: Element): Loader
    requires b.layer.Some?
  {
    b.(layer := Some(b.layer.value.(elements := b.layer.value.elements + [e])))
  }

  // ---------------------------------------------------------------------
  // Pages, images

  /** `finalizePage`: a page read without layers gets one empty layer; the page is closed. */
  function FinalizePageOf(b: Loader): Loader
    requires b.pageOpen && |b.pages| > 0
  {
    (if CurrentPage(b).layers == [] then WithLayer(b, EmptyLayer) else b).(pageOpen := false)
  }

  /**
   * A finalized page has at least one layer: its own, or a single empty one
   * when it had none. The other pages and the rest of the page stay as they
   * were, and the page is no longer open.
   */
  lemma FinalizedPageHasLayer(b: Loader)
    requires b.pageOpen && |b.pages| > 0
    ensures var r := FinalizePageOf(b);
      && !r.pageOpen && |r.pages| == |b.pages| && r.pages[..|b.pages| - 1] == b.pages[..|b.pages| - 1]
      && CurrentPage(r).layers == (if CurrentPage(b).layers == [] then [EmptyLayer] else CurrentPage(b).layers)
      && CurrentPage(r) == CurrentPage(b).(layers := CurrentPage(r).layers)
      && r.(pageOpen := b.pageOpen, pages := b.pages) == b
  {
  }

  /** `addImage`: an image with corner `(left, top)` and size `right - left` by `bottom - top`. */
  function AddImageOf(b: Loader, left: real, top: real, right: real, bottom: real): Loader
  {
    b.(image := Some(Image(left, top, right - left, bottom - top, "")))
  }

  /** `addTexImage`: the same geometry, and the LaTeX source. */
  function AddTexImageOf(b: Loader, left: real, top: real, right: real, bottom: real, text: string): Loader
  {
    b.(teximage := Some(TexImage(left, top, right - left, bottom - top, text, "")))
  }

  /**
   * The box read back: the corners the saver writes, `(x, y)` and
   * `(x + width, y + height)`, are the corners read.
   */
  lemma ImageBox(b: Loader, left: real, top: real, right: real, bottom: real, text: string)
    ensures var i := AddImageOf(b, left, top, right, bottom).image.value;
      i.x == left && i.y == top && i.x + i.width == right && i.y + i.height == bottom && i.data == ""
    ensures var t := AddTexImageOf(b, left, top, right, bottom, text).teximage.value;
      t.x == left && t.y == top && t.x + t.width == right && t.y + t.height == bottom && t.text == text
  {
  }

  // ---------------------------------------------------------------------
  // Audio

  /** `getTempFileForPath`: the file an attachment was extracted to; an empty path for an unknown one. The error it records then is not part of this model. */
  function TempFileFor(b: Loader, filename: string): string
  {
    if filename in b.audioFiles then b.audioFiles[filename] else ""
  }

  /** The audio file `setAudioAttributes` gives the element, if any. */
  function AudioFileOf(b: Loader, filename: string): Option<string>
  {
    if filename == "" then None
    else if b.isGzFile then Some(filename)
    else if TempFileFor(b, filename) != "" then Some(TempFileFor(b, filename))
    else None
  }

  /** The timestamp `setAudioAttributes` gives the element, if any: seconds before file version 4, scaled in `size_t`. */
  function AudioTimestampOf(b: Loader, filename: string, timestamp: SizeT): Option<SizeT>
  {
    if filename == "" then None
    else if b.fileVersion < 4 then Some((timestamp * 1000) % 0x1_0000_0000_0000_0000)
    else Some(timestamp)
  }

  /**
   * An element gets audio only from a non-empty filename: then always a
   * timestamp (in milliseconds, wrapped to 64 bits, for version 1 to 3
   * files), and a file when the document is a plain `.xoj` (the name as
   * given) or the attachment was extracted (the extracted file).
   */
  lemma AudioAttributes(b: Loader, filename: string, timestamp: SizeT)
    ensures filename == "" <==> AudioTimestampOf(b, filename, timestamp).None?
    ensures AudioFileOf(b, filename).Some? ==> AudioTimestampOf(b, filename, timestamp).Some?
    ensures b.fileVersion >= 4 && filename != "" ==> AudioTimestampOf(b, filename, timestamp) == Some(timestamp)
    ensures b.fileVersion < 4 && timestamp <= 18_446_744_073_709_551 && filename != "" ==>
      AudioTimestampOf(b, filename, timestamp) == Some(timestamp * 1000)
    ensures b.isGzFile && filename != "" ==> AudioFileOf(b, filename) == Some(filename)
    ensures !b.isGzFile ==>
      (AudioFileOf(b, filename).Some? <==> filename != "" && filename in b.audioFiles && b.audioFiles[filename] != "")
  {
  }

  /** `setAudioAttributes(*stroke, …)`, applied to the stroke itself. */
  function StrokeAudio(b: Loader, s: Stroke, filename: string, timestamp: SizeT): Stroke
  {
    var f := AudioFileOf(b, filename);
    var t := AudioTimestampOf(b, filename, timestamp);
    s.(audioFilename := if f.Some? then f.value else s.audioFilename,
       timestamp := if t.Some? then t.value else s.timestamp)
  }

  /** `setAudioAttributes(*text, …)`. */
  function TextAudio(b: Loader, x: Text, filename: string, timestamp: SizeT): Text
  {
    var f := AudioFileOf(b, filename);
    var t := AudioTimestampOf(b, filename, timestamp);
    x.(audioFilename := if f.Some? then f.value else x.audioFilename,
       timestamp := if t.Some? then t.value else x.timestamp)
  }

  /** A fresh stroke with the given style; a missing line style is a solid line. */
  function NewStroke(tool: Tool, color: Color, width: real, fill: int, capStyle: CapStyle, lineStyle: Option<LineStyle>): Stroke
  {
    Stroke(tool, color, width, fill, capStyle, if lineStyle.Some? then lineStyle.value else LineStyle([]), [], "", 0)
  }

  /** `addStroke` as intended: the audio file and the timestamp go to the new stroke. */
  function AddStrokeCorrected(b: Loader, tool: Tool, color: Color, width: real, fill: int, capStyle: CapStyle,
                              lineStyle: Option<LineStyle>, filename: string, timestamp: SizeT): Loader
  {
    b.(stroke := Some(StrokeAudio(b, NewStroke(tool, color, width, fill, capStyle, lineStyle), filename, timestamp)))
  }

  /** `addText`. */
  function AddTextOf(b: Loader, font: string, size: real, x: real, y: real, color: Color, filename: string, timestamp: SizeT): Loader
  {
    b.(text := Some(TextAudio(b, Text(font, size, x, y, color, "", "", 0), filename, timestamp)))
  }

  /**
   * `addStroke`: `setAudioAttributes` gives the timestamp to the new stroke
   * but the audio file to `this->text`. `None` is the dereference of a null
   * `this->text`.
   */
  function AddStrokeOf(b: Loader, tool: Tool, color: Color, width: real, fill: int, capStyle: CapStyle,
                       lineStyle: Option<LineStyle>, filename: string, timestamp: SizeT): Option<Loader>
  {
    var s := NewStroke(tool, color, width, fill, capStyle, lineStyle);
    var f := AudioFileOf(b, filename);
    var t := AudioTimestampOf(b, filename, timestamp);
    if f.Some? && b.text.None? then None
    else
      Some(b.(stroke := Some(s.(timestamp := if t.Some? then t.value else s.timestamp)),
              text := if f.Some? then Some(b.text.value.(audioFilename := f.value)) else b.text))
  }

  /** `addText` as written: there `this->text` is the new text, so it agrees with `AddTextOf`. */
  function AddTextAsWritten(b: Loader, font: string, size: real, x: real, y: real, color: Color, filename: string, timestamp: SizeT): Loader
  {
    var b1 := b.(text := Some(Text(font, size, x, y, color, "", "", 0)));
    var f := AudioFileOf(b, filename);
    var t := AudioTimestampOf(b, filename, timestamp);
    var b2 := if f.Some? then b1.(text := Some(b1.text.value.(audioFilename := f.value))) else b1;
    b2.(text := Some(b2.text.value.(timestamp := if t.Some? then t.value else b2.text.value.timestamp)))
  }

  /**
   * A stroke with an audio file, read in a layer (where no text is open):
   * the loader dereferences the null text; the corrected `addStroke` gives
   * the stroke its file and timestamp.
   */
  lemma StrokeAudioGoesToText(b: Loader, tool: Tool, color: Color, width: real, fill: int, capStyle: CapStyle,
                              lineStyle: Option<LineStyle>, filename: string, timestamp: SizeT)
    requires b.text.None? && AudioFileOf(b, filename).Some?
    ensures AddStrokeOf(b, tool, color, width, fill, capStyle, lineStyle, filename, timestamp).None?
    ensures var s := AddStrokeCorrected(b, tool, color, width, fill, capStyle, lineStyle, filename, timestamp).stroke.value;
      s.audioFilename == AudioFileOf(b, filename).value && s.audioFilename != "" &&
      Some(s.timestamp) == AudioTimestampOf(b, filename, timestamp)
  {
  }

  /**
   * With a text still held, the stroke's audio file replaces that text's
   * file and the stroke gets none.
   */
  lemma StrokeAudioReplacesTextFile(b: Loader, tool: Tool, color: Color, width: real, fill: int, capStyle: CapStyle,
                                    lineStyle: Option<LineStyle>, filename: string, timestamp: SizeT)
    requires b.text.Some? && AudioFileOf(b, filename).Some?
    ensures var r := AddStrokeOf(b, tool, color, width, fill, capStyle, lineStyle, filename, timestamp);
      && r.Some? && r.value.stroke.Some? && r.value.stroke.value.audioFilename == ""
      && r.value.text == Some(b.text.value.(audioFilename := AudioFileOf(b, filename).value))
  {
  }

  /** Without an audio file to give, `addStroke` does what is intended. */
  lemma StrokeWithoutAudioAgrees(b: Loader, tool: Tool, color: Color, width: real, fill: int, capStyle: CapStyle,
                                 lineStyle: Option<LineStyle>, filename: string, timestamp: SizeT)
    requires AudioFileOf(b, filename).None?
    ensures AddStrokeOf(b, tool, color, width, fill, capStyle, lineStyle, filename, timestamp)
      == Some(AddStrokeCorrected(b, tool, color, width, fill, capStyle, lineStyle, filename, timestamp))
  {
  }

  /**
   * Corrected `addStroke`, for every loader: the new stroke takes the audio
   * file and the timestamp `setAudioAttributes` derives (none for an empty
   * filename), keeps its style, and the held text is left alone.
   */
  lemma StrokeAudioCorrected(b: Loader, tool: Tool, color: Color, width: real, fill: int, capStyle: CapStyle,
                             lineStyle: Option<LineStyle>, filename: string, timestamp: SizeT)
    ensures var r := AddStrokeCorrected(b, tool, color, width, fill, capStyle, lineStyle, filename, timestamp);
      && r.stroke.Some? && r.text == b.text && r == b.(stroke := r.stroke)
      && var s := r.stroke.value;
      && s.tool == tool && s.color == color && s.width == width && s.fill == fill && s.capStyle == capStyle
      && s.points == []
      && (AudioFileOf(b, filename).Some? ==> s.audioFilename == AudioFileOf(b, filename).value)
      && (AudioFileOf(b, filename).None? ==> s.audioFilename == "")
      && (filename != "" ==> s.timestamp == AudioTimestampOf(b, filename, timestamp).value)
      && (filename == "" ==> s.timestamp == 0)
  {
  }

  /** For a text, the code as written and the corrected one agree. */
  lemma TextAudioAgrees(b: Loader, font: string, size: real, x: real, y: real, color: Color, filename: string, timestamp: SizeT)
    ensures AddTextAsWritten(b, font, size, x, y, color, filename, timestamp) == AddTextOf(b, font, size, x, y, color, filename, timestamp)
  {
  }

  // ---------------------------------------------------------------------
  // Points and pressures

  /** `Point(x, y)`: a point without pressure. */
  function PointsOf(pairs: seq<(real, real)>): (r: seq<Point>)
    ensures |r| == |pairs| && forall i :: 0 <= i < |r| ==> r[i] == Point(pairs[i].0, pairs[i].1, NoPressure)
  {
    seq(|pairs|, i requires 0 <= i < |pairs| => Point(pairs[i].0, pairs[i].1, NoPressure))
  }

  /** Every pressure is positive (the `std::all_of`, and no `find_if` hit). */
  predicate AllPositive(ps: seq<real>)
  {
    forall i | 0 <= i < |ps| :: ps[i] > 0.0
  }

  /**
   * `Stroke::setPressure`: the points take the pressures in order, as far as
   * both reach; the rest keep theirs.
   */
  function WithPressures(s: Stroke, ps: seq<real>): Stroke
  {
    s.(points := seq(|s.points|, i requires 0 <= i < |s.points| =>
      if i < |ps| then s.points[i].(z := ps[i]) else s.points[i]))
  }

  /** The strokes the portions become: the stroke itself with the first, a restyled copy with each later one. */
  function Pieces(s: Stroke, portions: seq<seq<Point>>): (r: seq<Stroke>)
    ensures |r| == |portions|
  {
    seq(|portions|, i requires 0 <= i < |portions| =>
      if i == 0 then s.(points := portions[0]) else Restyled(s, portions[i]))
  }

  function StrokeElements(strokes: seq<Stroke>): (r: seq<Element>)
    ensures |r| == |strokes| && forall i :: 0 <= i < |r| ==> r[i] == StrokeElement(strokes[i])
  {
    seq(|strokes|, i requires 0 <= i < |strokes| => StrokeElement(strokes[i]))
  }

  lemma ElementsSnoc(es: seq<Element>, strokes: seq<Stroke>, s: Stroke)
    ensures es + StrokeElements(strokes + [s]) == es + StrokeElements(strokes) + [StrokeElement(s)]
  {
    assert StrokeElements(strokes + [s]) == StrokeElements(strokes) + [StrokeElement(s)];
  }

  /**
   * After `i` portions of `for_first_then_each`: the pieces before the
   * `i`-th are in the layer, the `i`-th is the current stroke.
   */
  function SplitUpTo(b: Loader, s: Stroke, portions: seq<seq<Point>>, i: nat): Loader
    requires b.layer.Some? && 1 <= i <= |portions|
  {
    var ps := Pieces(s, portions);
    b.(layer := Some(b.layer.value.(elements := b.layer.value.elements + StrokeElements(ps[..i - 1]))),
       stroke := Some(ps[i - 1]))
  }

  /** `fixNullPressureValues`: the stroke is cut into its portions, or deleted when it has none. */
  function FixedOf(b: Loader, ps: seq<real>): Loader
    requires b.stroke.Some? && b.layer.Some? && 2 <= |b.stroke.value.points| <= |ps| + 1
  {
    var s := b.stroke.value;
    var portions := Portions(s.points, ps);
    if portions == [] then b.(stroke := None) else SplitUpTo(b, s, portions, |portions|)
  }

  /** The style a stroke keeps across the repair. */
  predicate SameStyle(s: Stroke, t: Stroke)
  {
    s.tool == t.tool && s.color == t.color && s.width == t.width && s.fill == t.fill &&
    s.capStyle == t.capStyle && s.lineStyle == t.lineStyle
  }

  /**
   * The repaired stroke: with no portion it is deleted and the layer is
   * untouched; otherwise the strokes added to the layer, followed by the
   * current stroke, carry the portions in order, all with the style of the
   * original stroke, and only the first keeps its audio. Nothing else
   * changes.
   */
  lemma FixedStrokes(b: Loader, ps: seq<real>)
    requires b.stroke.Some? && b.layer.Some? && 2 <= |b.stroke.value.points| <= |ps| + 1
    ensures var s := b.stroke.value; var portions := Portions(s.points, ps); var r := FixedOf(b, ps);
      && r.(layer := b.layer, stroke := b.stroke) == b
      && (portions == [] ==> r.stroke.None? && r.layer == b.layer)
      && (portions != [] ==>
            var n := |b.layer.value.elements|;
            var added := r.layer.value.elements[n..] + [StrokeElement(r.stroke.value)];
            && r.stroke.Some? && r.layer.Some? && |r.layer.value.elements| == n + |portions| - 1
            && r.layer.value.elements[..n] == b.layer.value.elements
            && |added| == |portions|
            && (forall i :: 0 <= i < |added| ==>
                  added[i].StrokeElement? && added[i].stroke.points == portions[i] && SameStyle(added[i].stroke, s))
            && added[0].stroke.audioFilename == s.audioFilename && added[0].stroke.timestamp == s.timestamp
            && (forall i :: 1 <= i < |added| ==> added[i].stroke.audioFilename == "" && added[i].stroke.timestamp == 0))
  {
    var s := b.stroke.value;
    var portions := Portions(s.points, ps);
    if portions != [] {
      var r := FixedOf(b, ps);
      var pieces := Pieces(s, portions);
      var n := |b.layer.value.elements|;
      assert r.layer.value.elements == b.layer.value.elements + StrokeElements(pieces[..|portions| - 1]);
      var added := r.layer.value.elements[n..] + [StrokeElement(r.stroke.value)];
      assert r.layer.value.elements[n..] == StrokeElements(pieces[..|portions| - 1]);
      forall i | 0 <= i < |added|
        ensures added[i] == StrokeElement(pieces[i])
      {
      }
    }
  }

  /**
   * The pressure step of `setStrokePoints` and of the legacy stroke text on
   * a stroke whose points are set: no pressures, or too few, leave it; all
   * positive ones go to the points; otherwise the stroke is repaired.
   */
  function PressuresOf(b: Loader, ps: seq<real>): Loader
    requires b.stroke.Some? && b.layer.Some? && 2 <= |b.stroke.value.points|
  {
    var s := b.stroke.value;
    if ps == [] || |ps| + 1 < |s.points| then b
    else if AllPositive(ps) then b.(stroke := Some(WithPressures(s, ps)))
    else FixedOf(b, ps)
  }

  /** `setStrokePoints`: fewer than two points are ignored; otherwise the points are set and the pressures applied. */
  function SetStrokePointsOf(b: Loader, points: seq<Point>, ps: seq<real>): Loader
    requires b.stroke.Some? && b.layer.Some?
  {
    if |points| < 2 then b
    else PressuresOf(b.(stroke := Some(b.stroke.value.(points := points))), ps)
  }

  /**
   * What `setStrokePoints` leaves: a stroke of fewer than two points is
   * untouched; with missing or too few pressures the stroke has exactly the
   * given points; with enough positive ones each point but the last carries
   * its pressure; with one not positive, the strokes that result carry no
   * other pressure than positive ones, which are exactly the positive
   * pressures in order. The stroke's style never changes.
   */
  lemma StrokePointsSet(b: Loader, points: seq<Point>, ps: seq<real>)
    requires b.stroke.Some? && b.layer.Some?
    ensures |points| < 2 ==> SetStrokePointsOf(b, points, ps) == b
    ensures |points| >= 2 && (ps == [] || |ps| + 1 < |points|) ==>
      SetStrokePointsOf(b, points, ps) == b.(stroke := Some(b.stroke.value.(points := points)))
    ensures |points| >= 2 && |ps| + 1 >= |points| && AllPositive(ps) ==>
      var r := SetStrokePointsOf(b, points, ps).stroke;
      && r.Some? && SameStyle(r.value, b.stroke.value) && |r.value.points| == |points|
      && forall i :: 0 <= i < |points| - 1 ==>
           r.value.points[i] == Point(points[i].x, points[i].y, ps[i]) && r.value.points[i].z > 0.0
    ensures |points| >= 2 && |ps| + 1 >= |points| && !AllPositive(ps) ==>
      var portions := Portions(points, ps);
      && SetStrokePointsOf(b, points, ps) == FixedOf(b.(stroke := Some(b.stroke.value.(points := points))), ps)
      && WellCut(points, portions)
      && Bodies(portions) == Kept(points, Truncated(ps, |points|), 0)
  {
    if |points| >= 2 && |ps| + 1 >= |points| && !AllPositive(ps) {
      PortionsCover(points, ps);
    }
  }

  // ---------------------------------------------------------------------
  // The legacy callbacks

  /** The name that closes the element a position is in; `Some` only where an end tag moves the position. */
  function ClosingName(b: Loader): Option<string>
  {
    match b.pos
    case Started => Some(b.endRootTag)
    case InPage => Some("page")
    case InLayer => Some("layer")
    case InStroke => Some("stroke")
    case InText => Some("text")
    case InImage => Some("image")
    case InTexImage => Some("teximage")
    case _ => None
  }

  /** How deep a position is: the number of elements open. */
  function Depth(p: Position): nat
  {
    match p
    case NotStarted => 0
    case Started => 1
    case InPage => 2
    case InLayer => 3
    case Finished => 0
    case _ => 4
  }

  /** `parserEndElement`; `failed` is an error already reported, on which it returns at once. */
  function EndElementOf(b: Loader, name: string, failed: bool): Loader
    requires Valid(b)
  {
    if failed then b
    else if b.pos.Started? && name == b.endRootTag then b.(pos := Finished)
    else if b.pos.InPage? && name == "page" then FinalizePageOf(b).(pos := Started)
    else if b.pos.InLayer? && name == "layer" then WithLayer(b, b.layer.value).(pos := InPage, layer := None)
    else if b.pos.InLayer? && name == "timestamp" then b
    else if b.pos.InStroke? && name == "stroke" then
      (if b.stroke.Some? then WithElement(b, StrokeElement(b.stroke.value)).(stroke := None) else b).(pos := InLayer)
    else if b.pos.InText? && name == "text" then WithElement(b, TextElement(b.text.value)).(pos := InLayer, text := None)
    else if b.pos.InImage? && name == "image" then WithElement(b, ImageElement(b.image.value)).(pos := InLayer, image := None)
    else if b.pos.InTexImage? && name == "teximage" then
      WithElement(b, TexImageElement(b.teximage.value)).(pos := InLayer, teximage := None)
    else b
  }

  /**
   * An end tag changes nothing unless it closes the element the position is
   * in; then the position moves exactly one level up (the root to
   * finished), and the handler stays valid.
   */
  lemma EndElementMovesUp(b: Loader, name: string, failed: bool)
    requires Valid(b)
    ensures Valid(EndElementOf(b, name, failed))
    ensures failed || ClosingName(b) != Some(name) ==> EndElementOf(b, name, failed) == b
    ensures !failed && ClosingName(b) == Some(name) ==>
      Depth(EndElementOf(b, name, failed).pos) + 1 == Depth(b.pos)
  {
  }

  /**
   * Closing an element moves it from its slot to the end of the layer, and
   * touches nothing else; a stroke the repair deleted adds nothing.
   * Closing a layer appends it to the open page and frees the slot.
   */
  lemma EndElementAddsToLayer(b: Loader, name: string)
    requires Valid(b) && ClosingName(b) == Some(name) && (b.pos.InStroke? || b.pos.InText? || b.pos.InImage? || b.pos.InTexImage?)
    requires b.pos.InStroke? || b.stroke.None?
    ensures var r := EndElementOf(b, name, false);
      && r.layer.Some? && r.pos.InLayer?
      && r.stroke.None? && r.text == (if b.pos.InText? then None else b.text)
      && r.image == (if b.pos.InImage? then None else b.image)
      && r.teximage == (if b.pos.InTexImage? then None else b.teximage)
      && r.pages == b.pages && r.pageOpen == b.pageOpen && r.layer.value.name == b.layer.value.name
      && r.layer.value.elements == b.layer.value.elements +
           (if b.pos.InStroke? then (if b.stroke.Some? then [StrokeElement(b.stroke.value)] else [])
            else if b.pos.InText? then [TextElement(b.text.value)]
            else if b.pos.InImage? then [ImageElement(b.image.value)]
            else [TexImageElement(b.teximage.value)])
  {
  }

  /** Closing a layer hands it to the open page. */
  lemma EndLayerAddsToPage(b: Loader)
    requires Valid(b) && b.pos.InLayer?
    ensures var r := EndElementOf(b, "layer", false);
      && r.pos.InPage? && r.layer.None? && |r.pages| == |b.pages| && r.pageOpen
      && r.pages[..|b.pages| - 1] == b.pages[..|b.pages| - 1]
      && CurrentPage(r).layers == CurrentPage(b).layers + [b.layer.value]
  {
  }

  /** Numbers taken two at a time as points without pressure; an odd last number is dropped. */
  function Paired(v: seq<real>): (r: seq<Point>)
    ensures |r| == |v| / 2
  {
    if |v| < 2 then [] else [Point(v[0], v[1], NoPressure)] + Paired(v[2..])
  }

  /** The points of the legacy stroke text: the pairs of its numbers. */
  lemma {:induction false} PairedIsPairUp(v: seq<real>)
    ensures Paired(v) == PointsOf(PairUp(v))
    decreases |v|
  {
    if |v| >= 2 {
      PairedIsPairUp(v[2..]);
      assert PointsOf(PairUp(v)) == [Point(v[0], v[1], NoPressure)] + PointsOf(PairUp(v[2..]));
    }
  }

  /** The numbers of the legacy stroke text and the points they make. */
  function StrokeTextPoints(f: NumberReader, text: string): seq<Point>
  {
    Paired(Tokens(f, text))
  }

  /**
   * The stroke branch of `parserText`: the points are added, then a count
   * below 4 or odd is the error "Wrong count of points" (returned with the
   * count, the points staying added); otherwise the buffered pressures are
   * applied and the buffer emptied.
   */
  function StrokeTextOf(b: Loader, f: NumberReader, text: string): (Loader, Option<nat>)
    requires b.stroke.Some? && b.layer.Some?
  {
    var n: nat := |Tokens(f, text)|;
    var b1 := b.(stroke := Some(b.stroke.value.(points := b.stroke.value.points + StrokeTextPoints(f, text))));
    if n < 4 || n % 2 == 1 then (b1, Some(n))
    else if b.pressureBuffer == [] then (b1, None)
    else (PressuresOf(b1, b.pressureBuffer).(pressureBuffer := []), None)
  }

  /**
   * The legacy stroke text adds one point per two numbers, without pressure;
   * it fails exactly on fewer than four or an odd number of numbers, and on
   * success it empties the pressure buffer.
   */
  lemma StrokeTextPointCount(b: Loader, f: NumberReader, text: string)
    requires b.stroke.Some? && b.layer.Some?
    ensures var n := |Tokens(f, text)|; var (r, err) := StrokeTextOf(b, f, text);
      && (err.Some? <==> n < 4 || n % 2 == 1)
      && (err.Some? ==> err.value == n && r.stroke.Some? && r.pressureBuffer == b.pressureBuffer &&
                        r.stroke.value.points == b.stroke.value.points + StrokeTextPoints(f, text))
      && (err.None? ==> r.pressureBuffer == [])
      && |StrokeTextPoints(f, text)| == n / 2
      && forall i :: 0 <= i < n / 2 ==>
           StrokeTextPoints(f, text)[i] == Point(Tokens(f, text)[2 * i], Tokens(f, text)[2 * i + 1], NoPressure)
  {
    PairedIsPairUp(Tokens(f, text));
  }

  /**
   * The state of the loop of the stroke branch of `parserText` after the
   * numbers `read`, with `rest` still to read: `n` numbers counted, an x
   * waiting after an odd count, a point for every pair.
   */
  ghost predicate Reading(f: NumberReader, text: string, rest: string, read: seq<real>, n: nat, xRead: bool, x: real, points: seq<Point>)
  {
    && read + Tokens(f, rest) == Tokens(f, text)
    && n == |read| && xRead == (|read| % 2 == 1) && (xRead ==> x == read[|read| - 1])
    && points == Paired(read)
  }

  /**
   * The loop of the stroke branch of `parserText`: read numbers until the
   * text is used up or none can be read, and add a point at every second.
   */
  method ReadStrokeText(f: NumberReader, text: string) returns (n: nat, points: seq<Point>)
    ensures n == |Tokens(f, text)| && points == StrokeTextPoints(f, text)
  {
    n, points := 0, [];
    var xRead := false;
    var x := 0.0;
    var rest := text;
    ghost var read: seq<real> := [];
    while rest != [] && f(rest).used != 0
      invariant Reading(f, text, rest, read, n, xRead, x, points)
      decreases |rest|
    {
      rest, read, n, xRead, x, points := ReadOne(f, text, rest, read, n, xRead, x, points);
    }
    TokensStop(f, rest);
    assert read + [] == read;
  }

  /** One number of the loop: the x of a point, or the y that completes it. */
  method ReadOne(f: NumberReader, ghost text: string, rest: string, ghost read: seq<real>, n: nat, xRead: bool, x: real, points: seq<Point>)
      returns (rest': string, ghost read': seq<real>, n': nat, xRead': bool, x': real, points': seq<Point>)
    requires rest != [] && f(rest).used != 0 && Reading(f, text, rest, read, n, xRead, x, points)
    ensures Reading(f, text, rest', read', n', xRead', x', points') && |rest'| < |rest|
  {
    var t := f(rest);
    TokensStep(f, rest);
    PairedSnoc(read, t.value);
    if !xRead {
      xRead', x', points' := true, t.value, points;
    } else {
      xRead', x', points' := false, x, points + [Point(x, t.value, NoPressure)];
    }
    rest', read', n' := rest[t.used..], read + [t.value], n + 1;
    assert read' + Tokens(f, rest') == Tokens(f, text);
  }

  lemma TokensStop(f: NumberReader, s: string)
    requires s == [] || f(s).used == 0
    ensures Tokens(f, s) == []
  {
  }

  lemma TokensStep(f: NumberReader, s: string)
    requires s != [] && f(s).used != 0
    ensures Tokens(f, s) == [f(s).value] + Tokens(f, s[f(s).used..])
  {
  }

  /** One more number: a point when it completes a pair. */
  lemma {:induction false} PairedSnoc(v: seq<real>, t: real)
    ensures |v| % 2 == 0 ==> Paired(v + [t]) == Paired(v)
    ensures |v| % 2 == 1 ==> Paired(v + [t]) == Paired(v) + [Point(v[|v| - 1], t, NoPressure)]
    decreases |v|
  {
    if |v| >= 2 {
      assert (v + [t])[2..] == v[2..] + [t];
      PairedSnoc(v[2..], t);
    }
  }

  // ---------------------------------------------------------------------
  // The handler object

  /** `LoadHandler`, with the fields of `Loader`. */
  class Handler {
    var pos: Position
    var endRootTag: string
    var pages: seq<Page>
    var pageOpen: bool
    var layer: Option<Layer>
    var stroke: Option<Stroke>
    var text: Option<Text>
    var image: Option<Image>
    var teximage: Option<TexImage>
    var pressureBuffer: seq<real>
    var fileVersion: int
    var isGzFile: bool
    var audioFiles: map<string, string>

    function St(): Loader
      reads this
    {
      Loader(pos, endRootTag, pages, pageOpen, layer, stroke, text, image, teximage,
             pressureBuffer, fileVersion, isGzFile, audioFiles)
    }

    /**
     * A handler about to read a document, in the state `parseXml` sets before
     * the first element: not started, no page open, file version 1. The C++
     * constructor's file version 0 is overwritten there before it is read.
     */
    constructor (isGzFile: bool, audioFiles: map<string, string>)
      ensures St() == Loader(NotStarted, "xournal", [], false, None, None, None, None, None, [], 1, isGzFile, audioFiles)
      ensures Valid(St())
    {
      pos := NotStarted;
      endRootTag := "xournal";
      pages := [];
      pageOpen := false;
      layer, stroke, text, image, teximage := None, None, None, None, None;
      pressureBuffer := [];
      fileVersion := 1;
      this.isGzFile := isGzFile;
      this.audioFiles := audioFiles;
    }

    /** `finalizePage`. */
    method FinalizePage()
      requires pageOpen && |pages| > 0
      modifies this
      ensures St() == FinalizePageOf(old(St()))
    {
      var p := pages[|pages| - 1];
      if p.layers == [] {
        pages := pages[..|pages| - 1] + [p.(layers := p.layers + [EmptyLayer])];
      }
      pageOpen := false;
    }

    /** `addImage`. */
    method AddImage(left: real, top: real, right: real, bottom: real)
      modifies this
      ensures St() == AddImageOf(old(St()), left, top, right, bottom)
    {
      image := Some(Image(left, top, right - left, bottom - top, ""));
    }

    /** `addTexImage`. */
    method AddTexImage(left: real, top: real, right: real, bottom: real, text: string)
      modifies this
      ensures St() == AddTexImageOf(old(St()), left, top, right, bottom, text)
    {
      teximage := Some(TexImage(left, top, right - left, bottom - top, text, ""));
    }

    /**
     * `addStroke`: the timestamp goes to the new stroke, the audio file to
     * the text held; `ok` is false where there is a file to give and no
     * text, the null dereference of the source, after which only the new
     * stroke has been set.
     */
    method AddStroke(tool: Tool, color: Color, width: real, fill: int, capStyle: CapStyle,
                     lineStyle: Option<LineStyle>, filename: string, timestamp: SizeT) returns (ok: bool)
      modifies this
      ensures ok == AddStrokeOf(old(St()), tool, color, width, fill, capStyle, lineStyle, filename, timestamp).Some?
      ensures ok ==> St() == AddStrokeOf(old(St()), tool, color, width, fill, capStyle, lineStyle, filename, timestamp).value
      ensures !ok ==> St() == old(St()).(stroke := Some(NewStroke(tool, color, width, fill, capStyle, lineStyle)))
    {
      var s := NewStroke(tool, color, width, fill, capStyle, lineStyle);
      var file, stamp := SetAudioAttributes(filename, timestamp);
      stroke := Some(s);
      ok := true;
      if file.Some? {
        if text.None? {
          ok := false;
          return;
        }
        text := Some(text.value.(audioFilename := file.value));
      }
      if stamp.Some? {
        stroke := Some(s.(timestamp := stamp.value));
      }
    }

    /** `addText`. */
    method AddText(font: string, size: real, x: real, y: real, color: Color, filename: string, timestamp: SizeT)
      modifies this
      ensures St() == AddTextOf(old(St()), font, size, x, y, color, filename, timestamp)
    {
      var t := Text(font, size, x, y, color, "", "", 0);
      var file, stamp := SetAudioAttributes(filename, timestamp);
      if file.Some? {
        t := t.(audioFilename := file.value);
      }
      if stamp.Some? {
        t := t.(timestamp := stamp.value);
      }
      text := Some(t);
    }

    /**
     * `setAudioAttributes`, with `getTempFileForPath`: the audio file and
     * the timestamp to give the element, if any.
     */
    method SetAudioAttributes(filename: string, timestamp: SizeT) returns (file: Option<string>, stamp: Option<SizeT>)
      ensures file == AudioFileOf(St(), filename) && stamp == AudioTimestampOf(St(), filename, timestamp)
    {
      file, stamp := None, None;
      if filename != "" {
        if isGzFile {
          file := Some(filename);
        } else {
          var tempFile := if filename in audioFiles then audioFiles[filename] else "";
          if tempFile != "" {
            file := Some(tempFile);
          }
        }
        stamp := Some(if fileVersion < 4 then (timestamp * 1000) % 0x1_0000_0000_0000_0000 else timestamp);
      }
    }

    /** `finalizeStroke`: a stroke the repair did not delete goes to the layer. */
    method FinalizeStroke()
      requires layer.Some?
      modifies this
      ensures St() == if old(stroke).Some? then WithElement(old(St()), StrokeElement(old(stroke).value)).(stroke := None) else old(St())
    {
      if stroke.Some? {
        layer := Some(layer.value.(elements := layer.value.elements + [StrokeElement(stroke.value)]));
        stroke := None;
      }
    }

    /**
     * The second half of `fixNullPressureValues`: the first portion becomes
     * the points of the stroke, every later one a new stroke in the style of
     * the current one, which goes to the layer first.
     */
    method Split(portions: seq<seq<Point>>)
      requires stroke.Some? && layer.Some? && |portions| >= 1
      modifies this
      ensures St() == SplitUpTo(old(St()), old(stroke).value, portions, |portions|)
    {
      ghost var b0 := St();
      ghost var s0 := stroke.value;
      ghost var pieces := Pieces(s0, portions);
      stroke := Some(stroke.value.(points := portions[0]));
      assert pieces[..0] == [];
      assert layer.value.(elements := layer.value.elements + StrokeElements([])) == layer.value;
      var i := 1;
      while i < |portions|
        invariant 1 <= i <= |portions|
        invariant layer == Some(b0.layer.value.(elements := b0.layer.value.elements + StrokeElements(pieces[..i - 1])))
        invariant stroke == Some(pieces[i - 1])
        invariant St() == b0.(layer := layer, stroke := stroke)
        decreases |portions| - i
      {
        var next := Restyled(stroke.value, portions[i]);
        assert next == pieces[i];
        assert pieces[..i] == pieces[..i - 1] + [pieces[i - 1]];
        ElementsSnoc(b0.layer.value.elements, pieces[..i - 1], pieces[i - 1]);
        layer := Some(layer.value.(elements := layer.value.elements + [StrokeElement(stroke.value)]));
        stroke := Some(next);
        i := i + 1;
      }
    }

    /** `fixNullPressureValues`. */
    method FixNullPressureValues(pressures: seq<real>)
      requires stroke.Some? && layer.Some? && 2 <= |stroke.value.points| <= |pressures| + 1
      modifies this
      ensures St() == FixedOf(old(St()), pressures)
    {
      var portions := CutPortions(stroke.value.points, pressures);
      if portions == [] {
        stroke := None;
        return;
      }
      Split(portions);
    }

    /** The pressure step shared by `setStrokePoints` and the legacy stroke text. */
    method ApplyPressures(pressures: seq<real>)
      requires stroke.Some? && layer.Some? && 2 <= |stroke.value.points|
      modifies this
      ensures St() == PressuresOf(old(St()), pressures)
    {
      if pressures != [] && |pressures| + 1 >= |stroke.value.points| {
        var allPositive := true;
        var i := 0;
        while i < |pressures|
          invariant 0 <= i <= |pressures| && (allPositive <==> forall t :: 0 <= t < i ==> pressures[t] > 0.0)
          decreases |pressures| - i
        {
          if pressures[i] <= 0.0 {
            allPositive := false;
          }
          i := i + 1;
        }
        if allPositive {
          stroke := Some(WithPressures(stroke.value, pressures));
        } else {
          FixNullPressureValues(pressures);
        }
      }
    }

    /** `setStrokePoints`. */
    method SetStrokePoints(points: seq<Point>, pressures: seq<real>)
      requires stroke.Some? && layer.Some?
      modifies this
      ensures St() == SetStrokePointsOf(old(St()), points, pressures)
    {
      if |points| < 2 {
        return;
      }
      stroke := Some(stroke.value.(points := points));
      ApplyPressures(pressures);
    }

    /** `parserEndElement`. */
    method ParserEndElement(name: string, failed: bool)
      requires Valid(St())
      modifies this
      ensures St() == EndElementOf(old(St()), name, failed)
    {
      if failed {
        return;
      }
      if pos == Started && name == endRootTag {
        MoveTo(Finished);
      } else if pos == InPage && name == "page" {
        FinalizePage();
        MoveTo(Started);
      } else if pos == InLayer && name == "layer" {
        CloseLayer();
      } else if pos == InLayer && name == "timestamp" {
        MoveTo(InLayer);
      } else if pos == InStroke && name == "stroke" {
        MoveTo(InLayer);
        FinalizeStroke();
      } else if pos == InText && name == "text" {
        CloseText();
      } else if pos == InImage && name == "image" {
        CloseImage();
      } else if pos == InTexImage && name == "teximage" {
        CloseTexImage();
      }
    }

    /** The position moves to `p`. */
    method MoveTo(p: Position)
      modifies this
      ensures St() == old(St()).(pos := p)
    {
      pos := p;
    }

    /** The end of a layer: it is added to the open page. */
    method CloseLayer()
      requires layer.Some? && |pages| > 0
      modifies this
      ensures St() == WithLayer(old(St()), old(layer).value).(pos := InPage, layer := None)
    {
      pos := InPage;
      var p := pages[|pages| - 1];
      pages := pages[..|pages| - 1] + [p.(layers := p.layers + [layer.value])];
      layer := None;
    }

    /** The end of a text: it is added to the layer. */
    method CloseText()
      requires layer.Some? && text.Some?
      modifies this
      ensures St() == WithElement(old(St()), TextElement(old(text).value)).(pos := InLayer, text := None)
    {
      pos := InLayer;
      layer := Some(layer.value.(elements := layer.value.elements + [TextElement(text.value)]));
      text := None;
    }

    /** The end of an image: it is added to the layer. */
    method CloseImage()
      requires layer.Some? && image.Some?
      modifies this
      ensures St() == WithElement(old(St()), ImageElement(old(image).value)).(pos := InLayer, image := None)
    {
      pos := InLayer;
      layer := Some(layer.value.(elements := layer.value.elements + [ImageElement(image.value)]));
      image := None;
    }

    /** The end of a TeX image: it is added to the layer. */
    method CloseTexImage()
      requires layer.Some? && teximage.Some?
      modifies this
      ensures St() == WithElement(old(St()), TexImageElement(old(teximage).value)).(pos := InLayer, teximage := None)
    {
      pos := InLayer;
      layer := Some(layer.value.(elements := layer.value.elements + [TexImageElement(teximage.value)]));
      teximage := None;
    }

    /**
     * The stroke branch of `parserText`; `wrongCount` is the count of
     * numbers reported in the error, if there is one.
     */
    method ParserStrokeText(f: NumberReader, chars: string) returns (wrongCount: Option<nat>)
      requires stroke.Some? && layer.Some?
      modifies this
      ensures (St(), wrongCount) == StrokeTextOf(old(St()), f, chars)
    {
      var n, points := ReadStrokeText(f, chars);
      stroke := Some(stroke.value.(points := stroke.value.points + points));
      if n < 4 || n % 2 == 1 {
        return Some(n);
      }
      wrongCount := None;
      if pressureBuffer != [] {
        ApplyPressures(pressureBuffer);
        pressureBuffer := [];
      }
    }
  }
}
