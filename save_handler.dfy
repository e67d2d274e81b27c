/**
 * `SaveHandler`: the XML tree written for a document. A node is a value
 * here: its tag, its attributes in the order set, its points (a stroke),
 * its text content (a text, an image's data, a TeX image's binary), and its
 * children. Attribute values are kept as the values given to `setAttrib`;
 * their formatting belongs to `XmlNode`, which is not part of this model.
 */
module SaveHandler {

  import opened Chars
  import opened Document
  import LoadHandler
  import XmlParser

  /** A value given to `XmlNode::setAttrib`. */
  datatype Value =
    | Str(s: string)
    | Real(r: real)
    | Int(i: int)
    | Reals(v: seq<real>)
    | Dashes(style: LineStyle)

  datatype Attr = Attr(name: string, value: Value)

  datatype Node = Node(tag: string, attrs: seq<Attr>, points: seq<Point>, content: string, children: seq<Node>)

  /** The value of the last attribute of that name, as a reader of the file sees it. */
  function Find(attrs: seq<Attr>, name: string): Option<Value>
  {
    if attrs == [] then None
    else if attrs[|attrs| - 1].name == name then Some(attrs[|attrs| - 1].value)
    else Find(attrs[..|attrs| - 1], name)
  }

  /** No attribute name is set twice. */
  predicate Distinct(attrs: seq<Attr>)
  {
    forall i, j :: 0 <= i < j < |attrs| ==> attrs[i].name != attrs[j].name
  }

  // ---------------------------------------------------------------------
  // Numbers as text

  const HexDigits: string := "0123456789abcdef"

  /** The `n` last lowercase hexadecimal digits of `v` (`%0nx`). */
  function Hex(v: nat, n: nat): (r: string)
    ensures |r| == n && forall i :: 0 <= i < n ==> r[i] in HexDigits
  {
    if n == 0 then "" else Hex(v / 16, n - 1) + [HexDigits[v % 16]]
  }

  /** The value of a lowercase hexadecimal digit. */
  function HexDigitValue(c: char): nat
  {
    if '0' <= c <= '9' then (c as int) - ('0' as int)
    else if 'a' <= c <= 'f' then (c as int) - ('a' as int) + 10
    else 0
  }

  /** The number a string of hexadecimal digits denotes. */
  function HexValue(s: string): nat
  {
    if s == [] then 0 else HexValue(s[..|s| - 1]) * 16 + HexDigitValue(s[|s| - 1])
  }

  function Pow16(n: nat): (r: nat)
    ensures r >= 1
  {
    if n == 0 then 1 else 16 * Pow16(n - 1)
  }

  /** Reading the digits back gives the number, when it has at most `n` digits. */
  lemma {:induction false} HexRoundTrip(v: nat, n: nat)
    requires v < Pow16(n)
    ensures HexValue(Hex(v, n)) == v
  {
    if n > 0 {
      assert v / 16 < Pow16(n - 1);
      HexRoundTrip(v / 16, n - 1);
      var h := Hex(v, n);
      assert h[..|h| - 1] == Hex(v / 16, n - 1);
      HexDigitRoundTrip(v % 16);
    }
  }

  lemma HexDigitRoundTrip(d: nat)
    requires d < 16
    ensures HexDigitValue(HexDigits[d]) == d
  {
  }

  /** `uint32_t(c) << 8U | alpha`: the low 24 bits of the color above the alpha byte. */
  function ColorBits(c: Color, alpha: nat): (r: nat)
    requires alpha < 256
    ensures r < 0x1_0000_0000
  {
    (c % 0x100_0000) * 256 + alpha
  }

  /** `getColorStr`: `#` and eight lowercase hexadecimal digits. */
  function ColorStr(c: Color, alpha: nat): (r: string)
    requires alpha < 256
  {
    "#" + Hex(ColorBits(c, alpha), 8)
  }

  /**
   * The color text is `#` and eight lowercase hexadecimal digits; read back,
   * they give the color's red, green and blue bytes followed by the alpha
   * byte. The top byte of the 32-bit color is shifted out.
   */
  lemma ColorStrRoundTrip(c: Color, alpha: nat)
    requires alpha < 256
    ensures var r := ColorStr(c, alpha);
      && |r| == 9 && r[0] == '#' && (forall i :: 1 <= i < 9 ==> r[i] in HexDigits)
      && HexValue(r[1..]) / 256 == c % 0x100_0000 && HexValue(r[1..]) % 256 == alpha
  {
    var r := ColorStr(c, alpha);
    assert r[1..] == Hex(ColorBits(c, alpha), 8);
    assert Pow16(8) == 0x1_0000_0000;
    HexRoundTrip(ColorBits(c, alpha), 8);
  }

  /** The decimal digits of `n`. */
  function Digits(n: nat): (r: string)
    ensures |r| >= 1 && forall i :: 0 <= i < |r| ==> '0' <= r[i] <= '9'
  {
    if n < 10 then [DigitChar(n)] else Digits(n / 10) + [DigitChar(n % 10)]
  }

  function DigitChar(d: nat): (c: char)
    requires d < 10
    ensures '0' <= c <= '9' && (c as int) - ('0' as int) == d
  {
    (('0' as int) + d) as char
  }

  /** `%d` / `%i`: the decimal text of an integer, with a minus sign when negative. */
  function Decimal(i: int): (r: string)
    ensures |r| >= 1
  {
    if i < 0 then "-" + Digits(-i) else Digits(i)
  }

  /** The number a string of decimal digits denotes. */
  function DecimalValue(s: string): nat
  {
    if s == [] then 0 else DecimalValue(s[..|s| - 1]) * 10 + ((s[|s| - 1] as int) - ('0' as int)) % 10
  }

  /** The decimal text reads back as its number, so different numbers have different texts. */
  lemma {:induction false} DigitsRoundTrip(n: nat)
    ensures DecimalValue(Digits(n)) == n
  {
    if n >= 10 {
      DigitsRoundTrip(n / 10);
      var d := Digits(n);
      assert d[..|d| - 1] == Digits(n / 10);
    }
  }

  /** Different integers have different decimal texts. */
  lemma DecimalInjective(i: int, j: int)
    requires Decimal(i) == Decimal(j)
    ensures i == j
  {
    DecimalRoundTrip(i);
    DecimalRoundTrip(j);
  }

  /** A decimal text reads back as its sign and its magnitude. */
  lemma DecimalRoundTrip(i: int)
    ensures var d := Decimal(i);
      && (d[0] == '-' <==> i < 0)
      && DecimalValue(if i < 0 then d[1..] else d) == if i < 0 then -i else i
  {
    if i < 0 {
      var d := Digits(-i);
      assert ("-" + d)[1..] == d;
      DigitsRoundTrip(-i);
    } else {
      var d := Digits(i);
      assert '0' <= d[0] <= '9';
      DigitsRoundTrip(i);
    }
  }

  // ---------------------------------------------------------------------
  // Strokes

  /** The tool name written; an unknown tool is written as a pen (with a warning). */
  function ToolName(t: Tool): string
  {
    match t
    case PEN => "pen"
    case ERASER => "eraser"
    case HIGHLIGHTER => "highlighter"
    case OtherTool(_) => "pen"
  }

  /** The alpha byte of a stroke color: half for a highlighter, opaque otherwise. */
  function ToolAlpha(t: Tool): (a: nat)
    ensures a < 256
  {
    if t == HIGHLIGHTER then 0x7f else 0xff
  }

  /** The cap style name written; an unknown style is written as round (with a warning). */
  function CapStyleName(c: CapStyle): string
  {
    match c
    case BUTT => "butt"
    case ROUND => "round"
    case SQUARE => "square"
    case OtherCapStyle(_) => "round"
  }

  /** `Stroke::hasPressure`: the first point carries a pressure. */
  predicate HasPressure(s: Stroke)
  {
    |s.points| > 0 && s.points[0].z != NoPressure
  }

  /** The pressures of the points. */
  function Zs(points: seq<Point>): (r: seq<real>)
    ensures |r| == |points| && forall i :: 0 <= i < |r| ==> r[i] == points[i].z
  {
    seq(|points|, i requires 0 <= i < |points| => points[i].z)
  }

  /** The `width` attribute: the width alone, or the width followed by the pressure of every point but the last. */
  function WidthValue(s: Stroke): Value
  {
    if HasPressure(s) then Reals([s.width] + Zs(s.points[..|s.points| - 1])) else Real(s.width)
  }

  /** `writeTimestamp`: the timestamp and the audio file, when there is a file. */
  function TimestampAttrs(filename: string, timestamp: nat): seq<Attr>
  {
    if filename == "" then [] else [Attr("ts", Int(timestamp)), Attr("fn", Str(filename))]
  }

  /** `visitStrokeExtended`: fill unless -1, the cap style, the line style when it has dashes. */
  function ExtendedAttrs(s: Stroke): seq<Attr>
  {
    (if s.fill != -1 then [Attr("fill", Int(s.fill))] else [])
    + [Attr("capStyle", Str(CapStyleName(s.capStyle)))]
    + (if s.lineStyle.dashes != [] then [Attr("style", Dashes(s.lineStyle))] else [])
  }

  /** The audio pair of a stroke: only a pen's audio is written. */
  function AudioAttrs(s: Stroke): seq<Attr>
  {
    if s.tool == PEN then TimestampAttrs(s.audioFilename, s.timestamp) else []
  }

  /** The color and the width, written between the audio pair and the extended attributes. */
  function PenAttrs(s: Stroke): seq<Attr>
  {
    [Attr("color", Str(ColorStr(s.color, ToolAlpha(s.tool)))), Attr("width", WidthValue(s))]
  }

  /** `visitStroke`: the `stroke` node of a stroke. */
  function StrokeNode(s: Stroke): Node
  {
    Node("stroke", [Attr("tool", Str(ToolName(s.tool)))] + AudioAttrs(s) + PenAttrs(s) + ExtendedAttrs(s), s.points, "", [])
  }

  function Or(x: Option<Value>, y: Option<Value>): Option<Value>
  {
    if x.Some? then x else y
  }

  lemma FindOne(a: Attr, name: string)
    ensures Find([a], name) == if a.name == name then Some(a.value) else None
  {
    assert [a][..0] == [];
  }

  lemma {:induction false} FindAppend(xs: seq<Attr>, ys: seq<Attr>, name: string)
    ensures Find(xs + ys, name) == Or(Find(ys, name), Find(xs, name))
    decreases |ys|
  {
    if ys == [] {
      assert xs + ys == xs;
    } else {
      var init := ys[..|ys| - 1];
      assert (xs + ys)[..|xs + ys| - 1] == xs + init;
      FindAppend(xs, init, name);
    }
  }

  lemma FindPair(a: Attr, b: Attr, name: string)
    ensures Find([a, b], name) == if b.name == name then Some(b.value) else if a.name == name then Some(a.value) else None
  {
    assert [a, b] == [a] + [b];
    FindAppend([a], [b], name);
    FindOne(a, name);
    FindOne(b, name);
  }

  lemma Find4(p: seq<Attr>, q: seq<Attr>, r: seq<Attr>, t: seq<Attr>, name: string)
    ensures Find(p + q + r + t, name) == Or(Find(t, name), Or(Find(r, name), Or(Find(q, name), Find(p, name))))
  {
    FindAppend(p + q + r, t, name);
    FindAppend(p + q, r, name);
    FindAppend(p, q, name);
  }

  /** The names that a stroke node may carry. */
  const StrokeAttrNames: seq<string> := ["tool", "ts", "fn", "color", "width", "fill", "capStyle", "style"]

  lemma FindExtended(s: Stroke, name: string)
    requires name in StrokeAttrNames
    ensures Find(ExtendedAttrs(s), name) ==
      if name == "fill" && s.fill != -1 then Some(Int(s.fill))
      else if name == "capStyle" then Some(Str(CapStyleName(s.capStyle)))
      else if name == "style" && s.lineStyle.dashes != [] then Some(Dashes(s.lineStyle))
      else None
  {
    var fill := if s.fill != -1 then [Attr("fill", Int(s.fill))] else [];
    var cap := [Attr("capStyle", Str(CapStyleName(s.capStyle)))];
    var style := if s.lineStyle.dashes != [] then [Attr("style", Dashes(s.lineStyle))] else [];
    FindAppend(fill + cap, style, name);
    FindAppend(fill, cap, name);
    FindOne(cap[0], name);
    if s.fill != -1 {
      FindOne(fill[0], name);
    }
    if s.lineStyle.dashes != [] {
      FindOne(style[0], name);
    }
  }

  lemma FindAudio(s: Stroke, name: string)
    requires name in StrokeAttrNames
    ensures Find(AudioAttrs(s), name) ==
      if s.tool != PEN || s.audioFilename == "" then None
      else if name == "ts" then Some(Int(s.timestamp))
      else if name == "fn" then Some(Str(s.audioFilename))
      else None
  {
    if s.tool == PEN && s.audioFilename != "" {
      FindPair(Attr("ts", Int(s.timestamp)), Attr("fn", Str(s.audioFilename)), name);
    }
  }

  lemma FindStroke(s: Stroke, name: string)
    requires name in StrokeAttrNames
    ensures Find(StrokeNode(s).attrs, name) ==
      Or(Find(ExtendedAttrs(s), name), Or(Find(PenAttrs(s), name), Or(Find(AudioAttrs(s), name),
         if name == "tool" then Some(Str(ToolName(s.tool))) else None)))
  {
    Find4([Attr("tool", Str(ToolName(s.tool)))], AudioAttrs(s), PenAttrs(s), ExtendedAttrs(s), name);
    FindOne(Attr("tool", Str(ToolName(s.tool))), name);
  }

  /**
   * What a stroke node says: its tool name and a color whose alpha is half
   * for a highlighter; the audio pair only for a pen with an audio file;
   * the fill exactly when it is not -1; always a cap style; a line style
   * exactly when it has dashes; its points unchanged.
   */
  lemma StrokeNodeAttributes(s: Stroke)
    ensures var a := StrokeNode(s).attrs;
      && Find(a, "tool") == Some(Str(ToolName(s.tool)))
      && Find(a, "color") == Some(Str(ColorStr(s.color, ToolAlpha(s.tool))))
      && Find(a, "width") == Some(WidthValue(s))
      && Find(a, "fill") == (if s.fill == -1 then None else Some(Int(s.fill)))
      && Find(a, "capStyle") == Some(Str(CapStyleName(s.capStyle)))
      && Find(a, "style") == (if s.lineStyle.dashes == [] then None else Some(Dashes(s.lineStyle)))
    ensures StrokeNode(s).points == s.points
  {
    StrokeAttr(s, "tool");
    StrokeAttr(s, "color");
    StrokeAttr(s, "width");
    StrokeAttr(s, "fill");
    StrokeAttr(s, "capStyle");
    StrokeAttr(s, "style");
  }

  /** The audio pair is written exactly for a pen with an audio file, and then both halves are. */
  lemma StrokeNodeAudio(s: Stroke)
    ensures var a := StrokeNode(s).attrs;
      && (Find(a, "fn").Some? <==> s.tool == PEN && s.audioFilename != "")
      && (Find(a, "ts").Some? <==> Find(a, "fn").Some?)
      && (Find(a, "fn").Some? ==> Find(a, "fn") == Some(Str(s.audioFilename)) && Find(a, "ts") == Some(Int(s.timestamp)))
  {
    StrokeAttr(s, "ts");
    StrokeAttr(s, "fn");
  }

  /** The lookup of one name in a stroke node. */
  lemma StrokeAttr(s: Stroke, name: string)
    requires name in StrokeAttrNames
    ensures Find(StrokeNode(s).attrs, name) ==
      if name == "tool" then Some(Str(ToolName(s.tool)))
      else if name == "color" then Some(Str(ColorStr(s.color, ToolAlpha(s.tool))))
      else if name == "width" then Some(WidthValue(s))
      else if name == "ts" || name == "fn" then
        (if s.tool != PEN || s.audioFilename == "" then None
         else if name == "ts" then Some(Int(s.timestamp))
         else Some(Str(s.audioFilename)))
      else if name == "fill" && s.fill != -1 then Some(Int(s.fill))
      else if name == "capStyle" then Some(Str(CapStyleName(s.capStyle)))
      else if name == "style" && s.lineStyle.dashes != [] then Some(Dashes(s.lineStyle))
      else None
  {
    FindStroke(s, name);
    FindExtended(s, name);
    FindAudio(s, name);
    assert PenAttrs(s) == [PenAttrs(s)[0], PenAttrs(s)[1]];
    FindPair(PenAttrs(s)[0], PenAttrs(s)[1], name);
  }

  /**
   * Saving and loading a stroke's width and pressures: the `width` values
   * are one per point; taking the first as the width and the rest as the
   * pressures, `setStrokePoints` on the stroke's positions gives back every
   * point with its pressure, except the pressure of the last point, which
   * is not written.
   */
  lemma WidthRoundTrip(b: LoadHandler.Loader, s: Stroke)
    requires HasPressure(s) && |s.points| >= 2 && forall i :: 0 <= i < |s.points| - 1 ==> s.points[i].z > 0.0
    requires b.stroke.Some? && b.layer.Some?
    ensures WidthValue(s).Reals? && |WidthValue(s).v| == |s.points| && WidthValue(s).v[0] == s.width
    ensures var ps := WidthValue(s).v[1..];
      var positions := seq(|s.points|, i requires 0 <= i < |s.points| => Point(s.points[i].x, s.points[i].y, NoPressure));
      var r := LoadHandler.SetStrokePointsOf(b, positions, ps).stroke;
      && r.Some? && |r.value.points| == |s.points|
      && (forall i :: 0 <= i < |s.points| - 1 ==> r.value.points[i] == s.points[i])
      && r.value.points[|s.points| - 1] == s.points[|s.points| - 1].(z := NoPressure)
  {
    var ps := WidthValue(s).v[1..];
    assert ps == Zs(s.points[..|s.points| - 1]);
    assert LoadHandler.AllPositive(ps);
  }

  // ---------------------------------------------------------------------
  // Layers

  /** The node of a text: its contents, font, size, position and color, and its audio pair. */
  function TextNode(t: Text): Node
  {
    Node("text",
         [Attr("font", Str(t.font)), Attr("size", Real(t.size)), Attr("x", Real(t.x)), Attr("y", Real(t.y)),
          Attr("color", Str(ColorStr(t.color, 0xff)))] + TimestampAttrs(t.audioFilename, t.timestamp),
         [], t.contents, [])
  }

  /** The corners of a box: `(x, y)` and `(x + width, y + height)`. */
  function BoxAttrs(x: real, y: real, width: real, height: real): seq<Attr>
  {
    [Attr("left", Real(x)), Attr("top", Real(y)), Attr("right", Real(x + width)), Attr("bottom", Real(y + height))]
  }

  /** `visitLayer` for one element. */
  function ElementNode(e: Element): Node
  {
    match e
    case StrokeElement(s) => StrokeNode(s)
    case TextElement(t) => TextNode(t)
    case ImageElement(i) => Node("image", BoxAttrs(i.x, i.y, i.width, i.height), [], i.data, [])
    case TexImageElement(t) => Node("teximage", [Attr("text", Str(t.text))] + BoxAttrs(t.x, t.y, t.width, t.height), [], t.data, [])
  }

  /** `visitLayer`: the name if it has one, and a node per element, in order. */
  function LayerNode(l: Layer): (r: Node)
    ensures |r.children| == |l.elements| && forall i :: 0 <= i < |l.elements| ==> r.children[i] == ElementNode(l.elements[i])
  {
    Node("layer", if l.name.Some? then [Attr("name", Str(l.name.value))] else [], [], "",
         seq(|l.elements|, i requires 0 <= i < |l.elements| => ElementNode(l.elements[i])))
  }

  /**
   * An image or TeX image is written with the corners `addImage` and
   * `addTexImage` read: loading them back gives the same box.
   */
  lemma ImageRoundTrip(b: LoadHandler.Loader, i: Image, t: TexImage)
    ensures var a := ElementNode(ImageElement(i)).attrs;
      var r := LoadHandler.AddImageOf(b, a[0].value.r, a[1].value.r, a[2].value.r, a[3].value.r).image.value;
      r.x == i.x && r.y == i.y && r.width == i.width && r.height == i.height
    ensures var a := ElementNode(TexImageElement(t)).attrs;
      var r := LoadHandler.AddTexImageOf(b, a[1].value.r, a[2].value.r, a[3].value.r, a[4].value.r, a[0].value.s).teximage.value;
      r.x == t.x && r.y == t.y && r.width == t.width && r.height == t.height && r.text == t.text
  {
  }

  // ---------------------------------------------------------------------
  // Pages

  /** Where the document's background PDF is written from: attached to the file, or its own path. */
  datatype PdfSource = PdfSource(attach: bool, filepath: string)

  /**
   * What saving keeps between pages (whether a root was made, whether a PDF
   * page was already written, the next attachment number, the images to
   * attach), and the document's background images, which saving updates:
   * `setFilepath` and `setCloneId` on one page's image are seen by every
   * page that shows that image.
   */
  datatype SaveState = SaveState(rooted: bool, firstPdfPageVisited: bool, attachBgId: int,
                                 backgroundImages: seq<nat>, images: seq<BackgroundImage>)

  /** Every image page shows one of `n` images. */
  predicate ImagesIn(pages: seq<Page>, n: nat)
  {
    forall j :: 0 <= j < |pages| && pages[j].background.Pixmap? ==> pages[j].background.image < n
  }

  /** `getPdfPageNr() + 1` as a `size_t`. */
  function PageNo(n: nat): SizeT
  {
    (n + 1) % 0x1_0000_0000_0000_0000
  }

  /** `bg_%d.png`: the name of the `id`-th attached background image. */
  function AttachName(id: int): string
  {
    "bg_" + Decimal(id) + ".png"
  }

  /** `writeBackgroundName`. */
  function NameAttrs(p: Page): seq<Attr>
  {
    if p.backgroundName.Some? then [Attr("name", Str(p.backgroundName.value))] else []
  }

  /**
   * The attributes of a PDF background: the PDF's domain and file only when
   * `source` is given (on the first PDF page), then the page number.
   */
  function PdfAttrs(p: Page, source: Option<PdfSource>, n: nat): seq<Attr>
  {
    NameAttrs(p) + [Attr("type", Str("pdf"))]
    + (if source.None? then []
       else if source.value.attach then [Attr("domain", Str("attach")), Attr("filename", Str("bg.pdf"))]
       else [Attr("domain", Str("absolute")), Attr("filename", Str(source.value.filepath))])
    + [Attr("pageno", Int(PageNo(n)))]
  }

  /** The attributes of an image background: its domain and its file. */
  function PixmapAttrs(p: Page, domain: string, file: string): seq<Attr>
  {
    NameAttrs(p) + [Attr("type", Str("pixmap")), Attr("domain", Str(domain)), Attr("filename", Str(file))]
  }

  /** The `background` node of page `id` and the state after it. */
  function BackgroundOf(st: SaveState, p: Page, pdf: PdfSource, id: int): (r: (Node, SaveState))
    requires p.background.Pixmap? ==> p.background.image < |st.images|
    ensures |r.1.images| == |st.images| && r.1.rooted == st.rooted
  {
    match p.background
    case PdfPage(n) =>
      (Node("background", PdfAttrs(p, if st.firstPdfPageVisited then None else Some(pdf), n), [], "", []),
       st.(firstPdfPageVisited := true))
    case Pixmap(k) =>
      var img := st.images[k];
      if img.cloneId != -1 then
        (Node("background", PixmapAttrs(p, "clone", Decimal(img.cloneId)), [], "", []), st)
      else if img.attached && img.hasPixbuf then
        var file := AttachName(st.attachBgId);
        (Node("background", PixmapAttrs(p, "attach", file), [], "", []),
         st.(attachBgId := st.attachBgId + 1, backgroundImages := st.backgroundImages + [k],
             images := st.images[k := img.(filepath := file, cloneId := id)]))
      else
        (Node("background", PixmapAttrs(p, "absolute", img.filepath), [], "", []),
         st.(images := st.images[k := img.(cloneId := id)]))
    case Solid(format, config, color) =>
      (Node("background", NameAttrs(p) + [Attr("type", Str("solid")), Attr("color", Str(ColorStr(color, 0xff))), Attr("style", Str(format))]
                          + (if config != "" then [Attr("config", Str(config))] else []), [], "", []),
       st)
  }

  /** The layer nodes of a page: one empty layer when it has none, which the original Xournal needs. */
  function LayerNodes(p: Page): (r: seq<Node>)
    ensures |r| >= 1
  {
    if p.layers == [] then [Node("layer", [], [], "", [])]
    else seq(|p.layers|, i requires 0 <= i < |p.layers| => LayerNode(p.layers[i]))
  }

  /** `visitPage`: the `page` node of page `id` and the state after it. */
  function PageNodeOf(st: SaveState, p: Page, pdf: PdfSource, id: int): (r: (Node, SaveState))
    requires p.background.Pixmap? ==> p.background.image < |st.images|
    ensures |r.1.images| == |st.images| && r.1.rooted == st.rooted
  {
    var (bg, st') := BackgroundOf(st, p, pdf, id);
    (Node("page", [Attr("width", Real(p.width)), Attr("height", Real(p.height))], [], "", [bg] + LayerNodes(p)), st')
  }

  /** The page nodes of the first `n` pages, visited in order, and the state after them. */
  function Saved(st: SaveState, pages: seq<Page>, pdf: PdfSource, n: nat): (r: (seq<Node>, SaveState))
    requires n <= |pages| && ImagesIn(pages, |st.images|)
    ensures |r.0| == n && |r.1.images| == |st.images| && r.1.rooted == st.rooted
  {
    if n == 0 then ([], st)
    else
      var (nodes, st') := Saved(st, pages, pdf, n - 1);
      var (node, st'') := PageNodeOf(st', pages[n - 1], pdf, n - 1);
      (nodes + [node], st'')
  }

  /** `clearSaveState` on the image of each of the first `n` pages. */
  function Cleared(images: seq<BackgroundImage>, pages: seq<Page>, n: nat): (r: seq<BackgroundImage>)
    requires n <= |pages| && ImagesIn(pages, |images|)
    ensures |r| == |images|
  {
    if n == 0 then images
    else
      var c := Cleared(images, pages, n - 1);
      match pages[n - 1].background
      case Pixmap(k) => c[k := c[k].(cloneId := -1)]
      case _ => c
  }

  /** The state `prepareSave` starts visiting pages from. */
  function Reset(st: SaveState, pages: seq<Page>): SaveState
    requires ImagesIn(pages, |st.images|)
  {
    SaveState(true, false, 1, if st.rooted then [] else st.backgroundImages, Cleared(st.images, pages, |pages|))
  }

  /** `prepareSave`: the page nodes of the document and the state after them. */
  function SaveOf(st: SaveState, pages: seq<Page>, pdf: PdfSource): (r: (seq<Node>, SaveState))
    requires ImagesIn(pages, |st.images|)
  {
    Saved(Reset(st, pages), pages, pdf, |pages|)
  }

  // ---------------------------------------------------------------------
  // What saving the pages keeps

  /** None of the first `j` pages shows image `k`. */
  predicate NotShown(pages: seq<Page>, k: nat, j: int)
    requires j <= |pages|
  {
    forall i :: 0 <= i < j ==> pages[i].background != Pixmap(k)
  }

  /** None of the first `j` pages is a PDF page. */
  predicate NoPdfBefore(pages: seq<Page>, j: int)
    requires j <= |pages|
  {
    forall i :: 0 <= i < j ==> !pages[i].background.PdfPage?
  }

  /**
   * The clone id of an image after `j` pages: -1 while no page showed it,
   * then the first page that did.
   */
  predicate CloneOk(pages: seq<Page>, c: int, k: nat, j: int)
    requires 0 <= j <= |pages|
  {
    && (c == -1 <==> NotShown(pages, k, j))
    && (c != -1 ==> 0 <= c < j && pages[c].background == Pixmap(k) && NotShown(pages, k, c))
  }

  /** A PDF page was written exactly when one of the first `j` pages is a PDF page. */
  predicate PdfFlagOk(pages: seq<Page>, st: SaveState, j: int)
    requires 0 <= j <= |pages|
  {
    st.firstPdfPageVisited <==> !NoPdfBefore(pages, j)
  }

  /** Every image shown by a page has the clone id `CloneOk` describes. */
  predicate ClonesOk(pages: seq<Page>, st: SaveState, j: int)
    requires 0 <= j <= |pages| && ImagesIn(pages, |st.images|)
  {
    forall i :: 0 <= i < |pages| && pages[i].background.Pixmap? ==>
      CloneOk(pages, st.images[pages[i].background.image].cloneId, pages[i].background.image, j)
  }

  /**
   * The images to attach are numbered from 1 in order: the `m`-th is named
   * `bg_m.png` and already has a clone id; the next number follows the last.
   */
  predicate AttachedOk(st: SaveState)
  {
    && st.attachBgId == 1 + |st.backgroundImages|
    && (forall m :: 0 <= m < |st.backgroundImages| ==>
          && st.backgroundImages[m] < |st.images|
          && st.images[st.backgroundImages[m]].filepath == AttachName(m + 1)
          && st.images[st.backgroundImages[m]].cloneId != -1)
  }

  /** The state after saving the first `j` pages from a reset state. */
  predicate Progress(pages: seq<Page>, st: SaveState, j: int)
    requires 0 <= j <= |pages| && ImagesIn(pages, |st.images|)
  {
    PdfFlagOk(pages, st, j) && ClonesOk(pages, st, j) && AttachedOk(st)
  }

  /** `clearSaveState` leaves every image of the pages without a clone id. */
  lemma {:induction false} ClearedClears(images: seq<BackgroundImage>, pages: seq<Page>, n: nat)
    requires n <= |pages| && ImagesIn(pages, |images|)
    ensures forall i :: 0 <= i < n && pages[i].background.Pixmap? ==> Cleared(images, pages, n)[pages[i].background.image].cloneId == -1
  {
    if n > 0 {
      ClearedClears(images, pages, n - 1);
    }
  }

  /** Saving starts from no PDF page written, attachment number 1, no image to attach and no clone id. */
  lemma ResetProgress(st: SaveState, pages: seq<Page>)
    requires ImagesIn(pages, |st.images|) && (!st.rooted ==> st.backgroundImages == [])
    ensures Progress(pages, Reset(st, pages), 0)
  {
    ClearedClears(st.images, pages, |pages|);
  }

  /** Visiting one more page keeps `Progress`. */
  lemma PageProgress(pages: seq<Page>, st: SaveState, pdf: PdfSource, j: nat)
    requires j < |pages| && ImagesIn(pages, |st.images|) && Progress(pages, st, j)
    ensures ImagesIn(pages, |PageNodeOf(st, pages[j], pdf, j).1.images|)
    ensures Progress(pages, PageNodeOf(st, pages[j], pdf, j).1, j + 1)
  {
    var st' := BackgroundOf(st, pages[j], pdf, j).1;
    assert PageNodeOf(st, pages[j], pdf, j).1 == st';
    PdfFlagStep(pages, st, pdf, j);
    ClonesStep(pages, st, pdf, j);
    AttachedStep(pages, st, pdf, j);
  }

  lemma PdfFlagStep(pages: seq<Page>, st: SaveState, pdf: PdfSource, j: nat)
    requires j < |pages| && ImagesIn(pages, |st.images|) && PdfFlagOk(pages, st, j)
    ensures PdfFlagOk(pages, BackgroundOf(st, pages[j], pdf, j).1, j + 1)
  {
    assert NoPdfBefore(pages, j + 1) <==> NoPdfBefore(pages, j) && !pages[j].background.PdfPage?;
  }

  lemma ClonesStep(pages: seq<Page>, st: SaveState, pdf: PdfSource, j: nat)
    requires j < |pages| && ImagesIn(pages, |st.images|) && ClonesOk(pages, st, j)
    ensures ClonesOk(pages, BackgroundOf(st, pages[j], pdf, j).1, j + 1)
  {
    var st' := BackgroundOf(st, pages[j], pdf, j).1;
    forall i | 0 <= i < |pages| && pages[i].background.Pixmap?
      ensures CloneOk(pages, st'.images[pages[i].background.image].cloneId, pages[i].background.image, j + 1)
    {
      var k := pages[i].background.image;
      assert CloneOk(pages, st.images[k].cloneId, k, j);
      if pages[j].background == Pixmap(k) {
        assert !NotShown(pages, k, j + 1);
        if st.images[k].cloneId == -1 {
          assert st'.images[k].cloneId == j;
        }
      } else {
        assert NotShown(pages, k, j + 1) == NotShown(pages, k, j);
        assert st'.images[k] == st.images[k];
      }
    }
  }

  lemma AttachedStep(pages: seq<Page>, st: SaveState, pdf: PdfSource, j: nat)
    requires j < |pages| && ImagesIn(pages, |st.images|) && AttachedOk(st)
    ensures AttachedOk(BackgroundOf(st, pages[j], pdf, j).1)
  {
    if pages[j].background.Pixmap? {
      var k := pages[j].background.image;
      if st.images[k].cloneId == -1 {
        var img := st.images[k];
        if img.attached && img.hasPixbuf {
          AttachedKeep(st, k, img.(filepath := AttachName(st.attachBgId), cloneId := j), [k]);
        } else {
          AttachedKeep(st, k, img.(cloneId := j), []);
        }
      }
    }
  }

  /**
   * Updating an image that has no clone id yet leaves the images to attach
   * as they were; naming it after the next number and giving it a clone id
   * adds it to them.
   */
  lemma AttachedKeep(st: SaveState, k: nat, img: BackgroundImage, added: seq<nat>)
    requires AttachedOk(st) && k < |st.images| && st.images[k].cloneId == -1 && img.cloneId != -1
    requires added == [] || (added == [k] && img.filepath == AttachName(st.attachBgId))
    ensures AttachedOk(st.(attachBgId := st.attachBgId + |added|, backgroundImages := st.backgroundImages + added,
                           images := st.images[k := img]))
  {
    forall m | 0 <= m < |st.backgroundImages|
      ensures st.backgroundImages[m] != k
    {
    }
  }

  /** `Progress` holds after every prefix of the pages. */
  lemma {:induction false} SavedProgress(st: SaveState, pages: seq<Page>, pdf: PdfSource, n: nat)
    requires n <= |pages| && ImagesIn(pages, |st.images|) && Progress(pages, st, 0)
    ensures ImagesIn(pages, |Saved(st, pages, pdf, n).1.images|)
    ensures Progress(pages, Saved(st, pages, pdf, n).1, n)
  {
    hide *;
    if n > 0 {
      SavedProgress(st, pages, pdf, n - 1);
      SavedLastState(st, pages, pdf, n);
      PageProgress(pages, Saved(st, pages, pdf, n - 1).1, pdf, n - 1);
    } else {
      SavedNone(st, pages, pdf);
    }
  }

  /** No page visited, nothing changed. */
  lemma SavedNone(st: SaveState, pages: seq<Page>, pdf: PdfSource)
    requires ImagesIn(pages, |st.images|)
    ensures Saved(st, pages, pdf, 0).1 == st
  {
  }

  /** The state after `n` pages is the one page `n - 1` leaves behind. */
  lemma SavedLastState(st: SaveState, pages: seq<Page>, pdf: PdfSource, n: nat)
    requires 0 < n <= |pages| && ImagesIn(pages, |st.images|)
    ensures ImagesIn(pages, |Saved(st, pages, pdf, n - 1).1.images|)
    ensures Saved(st, pages, pdf, n).1 == PageNodeOf(Saved(st, pages, pdf, n - 1).1, pages[n - 1], pdf, n - 1).1
  {
  }

  /** Visiting more pages keeps the nodes of the pages already visited. */
  lemma {:induction false} SavedPrefix(st: SaveState, pages: seq<Page>, pdf: PdfSource, n: nat, m: nat)
    requires m <= n <= |pages| && ImagesIn(pages, |st.images|)
    ensures Saved(st, pages, pdf, n).0[..m] == Saved(st, pages, pdf, m).0
  {
    hide Saved;
    var all := Saved(st, pages, pdf, n).0;
    if m < n {
      SavedPrefix(st, pages, pdf, n - 1, m);
      SavedDropLast(st, pages, pdf, n);
      assert all[..m] == all[..n - 1][..m];
    } else {
      assert all[..m] == all;
    }
  }

  /** The nodes of the first `n` pages extend those of the first `n - 1`. */
  lemma SavedDropLast(st: SaveState, pages: seq<Page>, pdf: PdfSource, n: nat)
    requires 0 < n <= |pages| && ImagesIn(pages, |st.images|)
    ensures Saved(st, pages, pdf, n).0[..n - 1] == Saved(st, pages, pdf, n - 1).0
  {
  }

  /** Page `j`'s node is the one written from the state after the pages before it. */
  lemma SavedNode(st: SaveState, pages: seq<Page>, pdf: PdfSource, n: nat, j: nat)
    requires j < n <= |pages| && ImagesIn(pages, |st.images|)
    ensures ImagesIn(pages, |Saved(st, pages, pdf, j).1.images|)
    ensures Saved(st, pages, pdf, n).0[j] == PageNodeOf(Saved(st, pages, pdf, j).1, pages[j], pdf, j).0
  {
    SavedAt(st, pages, pdf, n, j);
    SavedStep(st, pages, pdf, j + 1);
  }

  lemma SavedAt(st: SaveState, pages: seq<Page>, pdf: PdfSource, n: nat, j: nat)
    requires j < n <= |pages| && ImagesIn(pages, |st.images|)
    ensures Saved(st, pages, pdf, n).0[j] == Saved(st, pages, pdf, j + 1).0[j]
  {
    SavedPrefix(st, pages, pdf, n, j + 1);
    assert Saved(st, pages, pdf, n).0[j] == Saved(st, pages, pdf, n).0[..j + 1][j];
  }

  lemma SavedStep(st: SaveState, pages: seq<Page>, pdf: PdfSource, n: nat)
    requires 0 < n <= |pages| && ImagesIn(pages, |st.images|)
    ensures var prev := Saved(st, pages, pdf, n - 1);
      && ImagesIn(pages, |prev.1.images|)
      && Saved(st, pages, pdf, n).0[n - 1] == PageNodeOf(prev.1, pages[n - 1], pdf, n - 1).0
  {
  }

  // ---------------------------------------------------------------------
  // What the page nodes say

  lemma FindTriple(a: Attr, b: Attr, c: Attr, name: string)
    ensures Find([a, b, c], name) ==
      if c.name == name then Some(c.value) else if b.name == name then Some(b.value) else if a.name == name then Some(a.value) else None
  {
    assert [a, b, c] == [a, b] + [c];
    FindAppend([a, b], [c], name);
    FindPair(a, b, name);
    FindOne(c, name);
  }

  /** A background name does not hide any other attribute. */
  lemma FindAfterName(p: Page, body: seq<Attr>, name: string)
    requires name != "name"
    ensures Find(NameAttrs(p) + body, name) == Find(body, name)
  {
    FindAppend(NameAttrs(p), body, name);
    if p.backgroundName.Some? {
      FindOne(NameAttrs(p)[0], name);
    }
  }

  /** The source and page number of a PDF background. */
  lemma PdfBackground(st: SaveState, p: Page, pdf: PdfSource, id: int)
    requires p.background.PdfPage?
    ensures var a := BackgroundOf(st, p, pdf, id).0.attrs;
      && Find(a, "type") == Some(Str("pdf"))
      && Find(a, "pageno") == Some(Int(PageNo(p.background.pageNr)))
      && Find(a, "domain") == (if st.firstPdfPageVisited then None else Some(Str(if pdf.attach then "attach" else "absolute")))
      && Find(a, "filename") == (if st.firstPdfPageVisited then None else Some(Str(if pdf.attach then "bg.pdf" else pdf.filepath)))
  {
    var source := if st.firstPdfPageVisited then None else Some(pdf);
    FindPdfAttrs(p, source, p.background.pageNr, "type");
    FindPdfAttrs(p, source, p.background.pageNr, "pageno");
    FindPdfAttrs(p, source, p.background.pageNr, "domain");
    FindPdfAttrs(p, source, p.background.pageNr, "filename");
  }

  lemma FindPdfAttrs(p: Page, source: Option<PdfSource>, n: nat, name: string)
    requires name in ["type", "pageno", "domain", "filename"]
    ensures Find(PdfAttrs(p, source, n), name) ==
      if name == "type" then Some(Str("pdf"))
      else if name == "pageno" then Some(Int(PageNo(n)))
      else if source.None? then None
      else if name == "domain" then Some(Str(if source.value.attach then "attach" else "absolute"))
      else Some(Str(if source.value.attach then "bg.pdf" else source.value.filepath))
  {
    var t := Attr("type", Str("pdf"));
    var pg := Attr("pageno", Int(PageNo(n)));
    if source.None? {
      assert PdfAttrs(p, source, n) == NameAttrs(p) + [t, pg];
      FindAfterName(p, [t, pg], name);
      FindPair(t, pg, name);
    } else {
      var d := Attr("domain", Str(if source.value.attach then "attach" else "absolute"));
      var f := Attr("filename", Str(if source.value.attach then "bg.pdf" else source.value.filepath));
      assert PdfAttrs(p, source, n) == NameAttrs(p) + [t, d, f, pg];
      FindAfterName(p, [t, d, f, pg], name);
      FindQuad(t, d, f, pg, name);
    }
  }

  lemma FindQuad(a: Attr, b: Attr, c: Attr, d: Attr, name: string)
    ensures Find([a, b, c, d], name) ==
      if d.name == name then Some(d.value) else if c.name == name then Some(c.value)
      else if b.name == name then Some(b.value) else if a.name == name then Some(a.value) else None
  {
    assert [a, b, c, d] == [a, b, c] + [d];
    FindAppend([a, b, c], [d], name);
    FindTriple(a, b, c, name);
    FindOne(d, name);
  }

  lemma FindPixmapAttrs(p: Page, domain: string, file: string, name: string)
    requires name in ["type", "domain", "filename"]
    ensures Find(PixmapAttrs(p, domain, file), name) ==
      if name == "type" then Some(Str("pixmap")) else if name == "domain" then Some(Str(domain)) else Some(Str(file))
  {
    var body := [Attr("type", Str("pixmap")), Attr("domain", Str(domain)), Attr("filename", Str(file))];
    FindAfterName(p, body, name);
    FindTriple(body[0], body[1], body[2], name);
  }

  /** The domain and file of an image background. */
  lemma PixmapBackground(st: SaveState, p: Page, pdf: PdfSource, id: int)
    requires p.background.Pixmap? && p.background.image < |st.images|
    ensures var a := BackgroundOf(st, p, pdf, id).0.attrs;
      var img := st.images[p.background.image];
      && Find(a, "type") == Some(Str("pixmap"))
      && Find(a, "domain") == Some(Str(if img.cloneId != -1 then "clone" else if img.attached && img.hasPixbuf then "attach" else "absolute"))
      && Find(a, "filename") == Some(Str(if img.cloneId != -1 then Decimal(img.cloneId)
                                         else if img.attached && img.hasPixbuf then AttachName(st.attachBgId)
                                         else img.filepath))
  {
    var img := st.images[p.background.image];
    var domain := if img.cloneId != -1 then "clone" else if img.attached && img.hasPixbuf then "attach" else "absolute";
    var file := if img.cloneId != -1 then Decimal(img.cloneId) else if img.attached && img.hasPixbuf then AttachName(st.attachBgId) else img.filepath;
    assert BackgroundOf(st, p, pdf, id).0.attrs == PixmapAttrs(p, domain, file);
    FindPixmapAttrs(p, domain, file, "type");
    FindPixmapAttrs(p, domain, file, "domain");
    FindPixmapAttrs(p, domain, file, "filename");
  }

  /** The page number written reads back, through `PdfPageIndex`, as the page. */
  lemma PageNoRoundTrip(n: nat)
    requires n < 0x1_0000_0000_0000_0000
    ensures XmlParser.PdfPageIndex(PageNo(n)) == n
  {
  }

  /** What `prepareSave` needs of the saver: no images to attach before a root is made. */
  predicate Fresh(st: SaveState)
  {
    !st.rooted ==> st.backgroundImages == []
  }

  /** The state page `j` of a save is written from, and what it keeps. */
  lemma SaveProgress(st: SaveState, pages: seq<Page>, pdf: PdfSource, j: nat)
    requires ImagesIn(pages, |st.images|) && Fresh(st) && j <= |pages|
    ensures ImagesIn(pages, |Reset(st, pages).images|)
    ensures ImagesIn(pages, |Saved(Reset(st, pages), pages, pdf, j).1.images|)
    ensures Progress(pages, Saved(Reset(st, pages), pages, pdf, j).1, j)
  {
    ResetProgress(st, pages);
    SavedProgress(Reset(st, pages), pages, pdf, j);
  }

  /**
   * Only the first PDF page of a save names the PDF (attached as `bg.pdf`,
   * or by its path); every PDF page writes its page number plus one.
   */
  lemma SavePdfPage(st: SaveState, pages: seq<Page>, pdf: PdfSource, j: nat)
    requires ImagesIn(pages, |st.images|) && Fresh(st) && j < |pages| && pages[j].background.PdfPage?
    ensures |SaveOf(st, pages, pdf).0| == |pages| && |SaveOf(st, pages, pdf).0[j].children| >= 2
    ensures var a := SaveOf(st, pages, pdf).0[j].children[0].attrs;
      && Find(a, "type") == Some(Str("pdf"))
      && Find(a, "pageno") == Some(Int(PageNo(pages[j].background.pageNr)))
      && (Find(a, "filename").Some? <==> NoPdfBefore(pages, j))
      && (NoPdfBefore(pages, j) ==>
            && Find(a, "filename") == Some(Str(if pdf.attach then "bg.pdf" else pdf.filepath))
            && Find(a, "domain") == Some(Str(if pdf.attach then "attach" else "absolute")))
  {
    var st0 := Reset(st, pages);
    SaveProgress(st, pages, pdf, j);
    SavedNode(st0, pages, pdf, |pages|, j);
    PdfBackground(Saved(st0, pages, pdf, j).1, pages[j], pdf, j);
  }

  /**
   * An image shown by an earlier page is written as a clone of the first
   * page that showed it, which is not itself a clone; an image shown first
   * here is attached or referred to by its path.
   */
  lemma SaveImagePage(st: SaveState, pages: seq<Page>, pdf: PdfSource, j: nat)
    requires ImagesIn(pages, |st.images|) && Fresh(st) && j < |pages| && pages[j].background.Pixmap?
    ensures |SaveOf(st, pages, pdf).0| == |pages| && |SaveOf(st, pages, pdf).0[j].children| >= 2
    ensures var a := SaveOf(st, pages, pdf).0[j].children[0].attrs;
      var k := pages[j].background.image;
      && Find(a, "type") == Some(Str("pixmap"))
      && (Find(a, "domain") == Some(Str("clone")) <==> !NotShown(pages, k, j))
      && (!NotShown(pages, k, j) ==>
            exists c :: 0 <= c < j && pages[c].background == Pixmap(k) && NotShown(pages, k, c)
                        && Find(a, "filename") == Some(Str(Decimal(c))))
      && (NotShown(pages, k, j) ==> Find(a, "domain") in {Some(Str("attach")), Some(Str("absolute"))})
  {
    var st0 := Reset(st, pages);
    SaveProgress(st, pages, pdf, j);
    SavedNode(st0, pages, pdf, |pages|, j);
    var stj := Saved(st0, pages, pdf, j).1;
    PixmapBackground(stj, pages[j], pdf, j);
    var k := pages[j].background.image;
    assert CloneOk(pages, stj.images[k].cloneId, k, j);
  }

  lemma AttachNameInjective(a: int, b: int)
    requires AttachName(a) == AttachName(b)
    ensures a == b
  {
    var x := AttachName(a);
    assert x[3..|x| - 4] == Decimal(a);
    assert AttachName(b)[3..|x| - 4] == Decimal(b);
    DecimalInjective(a, b);
  }

  /**
   * After a save, the attached background images are named `bg_1.png`,
   * `bg_2.png`, ... in the order they were met: all names differ, so no
   * attached image overwrites another.
   */
  lemma SaveAttachedNames(st: SaveState, pages: seq<Page>, pdf: PdfSource)
    requires ImagesIn(pages, |st.images|) && Fresh(st)
    ensures var r := SaveOf(st, pages, pdf).1;
      && r.attachBgId == 1 + |r.backgroundImages|
      && (forall m :: 0 <= m < |r.backgroundImages| ==>
            r.backgroundImages[m] < |r.images| && r.images[r.backgroundImages[m]].filepath == AttachName(m + 1))
      && (forall m, m' :: 0 <= m < m' < |r.backgroundImages| ==>
            r.images[r.backgroundImages[m]].filepath != r.images[r.backgroundImages[m']].filepath)
  {
    hide *;
    SaveProgress(st, pages, pdf, |pages|);
    SaveOfIs(st, pages, pdf);
    AttachedKept(pages, SaveOf(st, pages, pdf).1);
    AttachedDistinct(SaveOf(st, pages, pdf).1);
  }

  lemma SaveOfIs(st: SaveState, pages: seq<Page>, pdf: PdfSource)
    requires ImagesIn(pages, |st.images|)
    ensures SaveOf(st, pages, pdf) == Saved(Reset(st, pages), pages, pdf, |pages|)
  {
  }

  lemma AttachedKept(pages: seq<Page>, r: SaveState)
    requires ImagesIn(pages, |r.images|) && Progress(pages, r, |pages|)
    ensures AttachedOk(r)
  {
  }

  /** The names `AttachName` gives differ, so the attached images have distinct names. */
  lemma AttachedDistinct(r: SaveState)
    requires AttachedOk(r)
    ensures r.attachBgId == 1 + |r.backgroundImages|
    ensures forall m :: 0 <= m < |r.backgroundImages| ==>
      r.backgroundImages[m] < |r.images| && r.images[r.backgroundImages[m]].filepath == AttachName(m + 1)
    ensures forall m, m' :: 0 <= m < m' < |r.backgroundImages| ==>
      r.images[r.backgroundImages[m]].filepath != r.images[r.backgroundImages[m']].filepath
  {
    forall m, m' | 0 <= m < m' < |r.backgroundImages|
      ensures r.images[r.backgroundImages[m]].filepath != r.images[r.backgroundImages[m']].filepath
    {
      if AttachName(m + 1) == AttachName(m' + 1) {
        AttachNameInjective(m + 1, m' + 1);
      }
    }
  }

  /**
   * Every page is written, in order, with its size, its background, and its
   * layers in order, or one empty layer when it has none.
   */
  lemma SavePages(st: SaveState, pages: seq<Page>, pdf: PdfSource, j: nat)
    requires ImagesIn(pages, |st.images|) && Fresh(st) && j < |pages|
    ensures |SaveOf(st, pages, pdf).0| == |pages|
    ensures var node := SaveOf(st, pages, pdf).0[j];
      && node.tag == "page" && node.attrs == [Attr("width", Real(pages[j].width)), Attr("height", Real(pages[j].height))]
      && |node.children| == 1 + (if pages[j].layers == [] then 1 else |pages[j].layers|)
      && node.children[0].tag == "background"
      && (pages[j].layers == [] ==> node.children[1] == Node("layer", [], [], "", []))
      && (forall i :: 0 <= i < |pages[j].layers| ==> node.children[1 + i] == LayerNode(pages[j].layers[i]))
  {
    var st0 := Reset(st, pages);
    SaveProgress(st, pages, pdf, j);
    SavedNode(st0, pages, pdf, |pages|, j);
  }

  // ---------------------------------------------------------------------
  // The saver

  /** The document's background images, which its pages share and saving updates. */
  class Images {
    var images: seq<BackgroundImage>

    constructor(images: seq<BackgroundImage>)
      ensures this.images == images
    {
      this.images := images;
    }

    /** `BackgroundImage::clearSaveState`: forget the page the image was saved with. */
    method ClearSaveState(k: nat)
      requires k < |images|
      modifies this
      ensures images == old(images)[k := old(images)[k].(cloneId := -1)]
    {
      images := images[k := images[k].(cloneId := -1)];
    }

    method SetFilepath(k: nat, filepath: string)
      requires k < |images|
      modifies this
      ensures images == old(images)[k := old(images)[k].(filepath := filepath)]
    {
      images := images[k := images[k].(filepath := filepath)];
    }

    method SetCloneId(k: nat, id: int)
      requires k < |images|
      modifies this
      ensures images == old(images)[k := old(images)[k].(cloneId := id)]
    {
      images := images[k := images[k].(cloneId := id)];
    }
  }

  /** `SaveHandler`: what it keeps from one page to the next while it writes a document. */
  class Saver {
    var rooted: bool
    var firstPdfPageVisited: bool
    var attachBgId: int
    var backgroundImages: seq<nat>

    function State(doc: Images): SaveState
      reads this, doc
    {
      SaveState(rooted, firstPdfPageVisited, attachBgId, backgroundImages, doc.images)
    }

    constructor()
      ensures !rooted && !firstPdfPageVisited && attachBgId == 1 && backgroundImages == []
    {
      rooted := false;
      firstPdfPageVisited := false;
      attachBgId := 1;
      backgroundImages := [];
    }

    /** `visitPage`: writes page `id`, updating the PDF flag, the attachments and the page's image. */
    method VisitPage(doc: Images, p: Page, pdf: PdfSource, id: int) returns (node: Node)
      requires p.background.Pixmap? ==> p.background.image < |doc.images|
      modifies this, doc
      ensures (node, State(doc)) == PageNodeOf(old(State(doc)), p, pdf, id)
    {
      var bg := WriteBackground(doc, p, pdf, id);
      var layers: seq<Node> := [];
      if p.layers == [] {
        layers := [Node("layer", [], [], "", [])];
      }
      for i := 0 to |p.layers|
        invariant p.layers != [] ==> |layers| == i && forall j :: 0 <= j < i ==> layers[j] == LayerNode(p.layers[j])
        invariant p.layers == [] ==> layers == [Node("layer", [], [], "", [])]
      {
        layers := layers + [LayerNode(p.layers[i])];
      }
      assert layers == LayerNodes(p);
      node := Node("page", [Attr("width", Real(p.width)), Attr("height", Real(p.height))], [], "", [bg] + layers);
    }

    /** The `background` node of page `id`: its name, then its kind's attributes. */
    method WriteBackground(doc: Images, p: Page, pdf: PdfSource, id: int) returns (bg: Node)
      requires p.background.Pixmap? ==> p.background.image < |doc.images|
      modifies this, doc
      ensures (bg, State(doc)) == BackgroundOf(old(State(doc)), p, pdf, id)
    {
      var attrs: seq<Attr>;
      match p.background {
        case PdfPage(n) =>
          var source := if firstPdfPageVisited then None else Some(pdf);
          firstPdfPageVisited := true;
          attrs := PdfAttrs(p, source, n);
        case Pixmap(k) =>
          bg := WriteImageBackground(doc, p, pdf, id);
          return;
        case Solid(format, config, color) =>
          attrs := NameAttrs(p) + [Attr("type", Str("solid")), Attr("color", Str(ColorStr(color, 0xff))), Attr("style", Str(format))];
          if config != "" {
            attrs := attrs + [Attr("config", Str(config))];
          } else {
            assert attrs + [] == attrs;
          }
      }
      bg := Node("background", attrs, [], "", []);
    }

    /** The `background` node of an image page: a clone, an attachment, or the image's path. */
    method WriteImageBackground(doc: Images, p: Page, pdf: PdfSource, id: int) returns (bg: Node)
      requires p.background.Pixmap? && p.background.image < |doc.images|
      modifies this, doc
      ensures (bg, State(doc)) == BackgroundOf(old(State(doc)), p, pdf, id)
    {
      var k := p.background.image;
      var attrs: seq<Attr>;
      var img := doc.images[k];
      if img.cloneId != -1 {
        attrs := PixmapAttrs(p, "clone", Decimal(img.cloneId));
      } else if img.attached && img.hasPixbuf {
        var file := AttachName(attachBgId);
        attachBgId := attachBgId + 1;
        attrs := PixmapAttrs(p, "attach", file);
        doc.SetFilepath(k, file);
        backgroundImages := backgroundImages + [k];
        doc.SetCloneId(k, id);
        assert doc.images == old(doc.images)[k := img.(filepath := file, cloneId := id)];
      } else {
        attrs := PixmapAttrs(p, "absolute", img.filepath);
        doc.SetCloneId(k, id);
      }
      bg := Node("background", attrs, [], "", []);
    }

    /**
     * `prepareSave`: starts a new root (dropping the images to attach from
     * an earlier save), clears the save state of every page's image, and
     * writes the pages in order.
     */
    method PrepareSave(doc: Images, pages: seq<Page>, pdf: PdfSource) returns (nodes: seq<Node>)
      requires ImagesIn(pages, |doc.images|) && Fresh(State(doc))
      modifies this, doc
      ensures (nodes, State(doc)) == SaveOf(old(State(doc)), pages, pdf)
      ensures Fresh(State(doc))
    {
      StartSave(doc, pages);
      nodes := WritePages(doc, pages, pdf);
    }

    /** The start of `prepareSave`: a new root, and no page's image saved yet. */
    method StartSave(doc: Images, pages: seq<Page>)
      requires ImagesIn(pages, |doc.images|)
      modifies this, doc
      ensures State(doc) == Reset(old(State(doc)), pages)
    {
      if rooted {
        backgroundImages := [];
      }
      firstPdfPageVisited := false;
      attachBgId := 1;
      rooted := true;
      for i := 0 to |pages|
        invariant doc.images == Cleared(old(doc.images), pages, i)
        invariant rooted && !firstPdfPageVisited && attachBgId == 1
        invariant backgroundImages == if old(rooted) then [] else old(backgroundImages)
      {
        if pages[i].background.Pixmap? {
          doc.ClearSaveState(pages[i].background.image);
        }
      }
    }

    /** The pages written in order, each from the state the previous one left. */
    method WritePages(doc: Images, pages: seq<Page>, pdf: PdfSource) returns (nodes: seq<Node>)
      requires ImagesIn(pages, |doc.images|)
      modifies this, doc
      ensures ImagesIn(pages, |old(doc.images)|)
      ensures (nodes, State(doc)) == Saved(old(State(doc)), pages, pdf, |pages|)
      ensures rooted == old(rooted)
    {
      ghost var st0 := State(doc);
      nodes := [];
      for i := 0 to |pages|
        invariant ImagesIn(pages, |doc.images|)
        invariant (nodes, State(doc)) == Saved(st0, pages, pdf, i)
      {
        var node := VisitPage(doc, pages[i], pdf, i);
        nodes := nodes + [node];
      }
    }
  }
}
