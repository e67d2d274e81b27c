/**
 * `XmlParser`, the event parser of the `.xopp` loader.
 *
 * The libxml2 text reader is replaced by the sequence of nodes it would
 * deliver: each node has a kind, a depth, a name, the "empty element" flag,
 * its attributes in document order and its text value. A read moves to the
 * next node and returns 1, or returns 0 at the end (-1 when the document
 * ends in a read error). The `LoadHandler` the parser drives is replaced by
 * the log of builder calls it receives.
 *
 * `parse` loops over the nodes at or below the depth of its first node and
 * hands each to the node function of the current context (root, document,
 * page, layer, image attachment); a node function reads the tag's
 * attributes, forwards them to the builder, and either reads on or calls
 * `parse` again for the children. The hierarchy stack checks that closing
 * tags match opening ones.
 *
 * The parser is given twice: as functions of the parser state (`ParseOf`,
 * `ProcessOf` and one function per tag), about which the lemmas below are
 * proved, and as the class `Parser` whose methods update the fields in place
 * and are proved to compute those functions.
 */
module XmlParser {

  import opened Chars
  import opened Document
  import opened XmlParserHelper
  import opened Numbers

  /** `xoj::xml_tags::Type`. */
  datatype TagType =
    | XOURNAL | MRWRITER | TITLE | PREVIEW | PAGE | AUDIO | BACKGROUND | LAYER
    | TIMESTAMP | STROKE | TEXT | IMAGE | TEXIMAGE | ATTACHMENT | UNKNOWN

  /** The element name of each known tag. */
  function TagName(t: TagType): Option<string>
  {
    match t
    case MRWRITER => Some("MrWriter")
    case ATTACHMENT => Some("attachment")
    case AUDIO => Some("audio")
    case BACKGROUND => Some("background")
    case IMAGE => Some("image")
    case LAYER => Some("layer")
    case PAGE => Some("page")
    case PREVIEW => Some("preview")
    case STROKE => Some("stroke")
    case TEXIMAGE => Some("teximage")
    case TEXT => Some("text")
    case TIMESTAMP => Some("timestamp")
    case TITLE => Some("title")
    case XOURNAL => Some("xournal")
    case UNKNOWN => None
  }

  /** The fourteen known tags. */
  const KnownTags: seq<TagType> :=
    [MRWRITER, ATTACHMENT, AUDIO, BACKGROUND, IMAGE, LAYER, PAGE, PREVIEW, STROKE, TEXIMAGE, TEXT, TIMESTAMP, TITLE, XOURNAL]

  /** `XmlParser::tagNameToType`: a case-sensitive comparison with each known name in turn. */
  function TagNameToType(name: string): (t: TagType)
    ensures t == UNKNOWN || TagName(t) == Some(name)
  {
    if name == "MrWriter" then MRWRITER
    else if name == "attachment" then ATTACHMENT
    else if name == "audio" then AUDIO
    else if name == "background" then BACKGROUND
    else if name == "image" then IMAGE
    else if name == "layer" then LAYER
    else if name == "page" then PAGE
    else if name == "preview" then PREVIEW
    else if name == "stroke" then STROKE
    else if name == "teximage" then TEXIMAGE
    else if name == "text" then TEXT
    else if name == "timestamp" then TIMESTAMP
    else if name == "title" then TITLE
    else if name == "xournal" then XOURNAL
    else UNKNOWN
  }

  /**
   * `tagNameToType` recognises exactly the fourteen names of `TagName`:
   * each known tag is found again from its name, and (by the contract of `TagNameToType`) every other string,
   * including a known name in another case, gives `UNKNOWN`.
   */
  lemma TagNamesRoundTrip(t: TagType)
    ensures t in KnownTags <==> t != UNKNOWN
    ensures TagName(t).Some? <==> t != UNKNOWN
    ensures TagName(t).Some? ==> TagNameToType(TagName(t).value) == t
  {
  }

  /** The fourteen known tags are fourteen different values. */
  lemma KnownTagsDistinct()
    ensures |KnownTags| == 14 && (forall i, j :: 0 <= i < j < 14 ==> KnownTags[i] != KnownTags[j])
  {
  }

  // ---------------------------------------------------------------------
  // The reader's nodes

  datatype NodeKind = ElementNode | TextNode | EndElementNode | OtherNode(code: int)

  /** A node of the libxml2 text reader, with what the parser asks of it. */
  datatype ReaderNode = ReaderNode(
    kind: NodeKind,
    depth: nat,
    name: string,
    isEmpty: bool,
    attributes: seq<(string, string)>,
    value: string)

  /**
   * The attribute map `getAttributeMap` fills from the attributes in
   * document order; a later duplicate overwrites an earlier one.
   */
  function AttributeMapOf(attrs: seq<(string, string)>): AttributeMap
  {
    AttributesInto(map[], attrs)
  }

  /** The map `acc` after storing the attributes `attrs` one after another. */
  function AttributesInto(acc: AttributeMap, attrs: seq<(string, string)>): AttributeMap
    decreases |attrs|
  {
    if attrs == [] then acc else AttributesInto(acc[attrs[0].0 := attrs[0].1], attrs[1..])
  }

  /** The position of the last attribute called `name`. */
  predicate LastOccurrence(attrs: seq<(string, string)>, name: string, i: int)
  {
    0 <= i < |attrs| && attrs[i].0 == name && forall j :: i < j < |attrs| ==> attrs[j].0 != name
  }

  /** Storing attributes into `acc`: a stored name takes the value of its last occurrence, other entries stay. */
  lemma {:induction false} AttributesIntoLastWins(acc: AttributeMap, attrs: seq<(string, string)>, name: string)
    ensures name in AttributesInto(acc, attrs) <==> name in acc || exists i :: 0 <= i < |attrs| && attrs[i].0 == name
    ensures forall i :: LastOccurrence(attrs, name, i) ==> name in AttributesInto(acc, attrs) && AttributesInto(acc, attrs)[name] == attrs[i].1
    ensures name in acc && (forall i :: 0 <= i < |attrs| ==> attrs[i].0 != name) ==>
              name in AttributesInto(acc, attrs) && AttributesInto(acc, attrs)[name] == acc[name]
    decreases |attrs|
  {
    if attrs != [] {
      var acc1 := acc[attrs[0].0 := attrs[0].1];
      var tail := attrs[1..];
      AttributesIntoLastWins(acc1, tail, name);
      assert AttributesInto(acc, attrs) == AttributesInto(acc1, tail);
      if exists i :: 0 <= i < |attrs| && attrs[i].0 == name {
        var i :| 0 <= i < |attrs| && attrs[i].0 == name;
        if i > 0 {
          assert tail[i - 1].0 == name;
        }
      }
      if exists i :: 0 <= i < |tail| && tail[i].0 == name {
        var i :| 0 <= i < |tail| && tail[i].0 == name;
        assert attrs[i + 1].0 == name;
      }
      forall i | LastOccurrence(attrs, name, i)
        ensures AttributesInto(acc, attrs)[name] == attrs[i].1
      {
        if i > 0 {
          assert LastOccurrence(tail, name, i - 1);
        } else {
          assert forall k :: 0 <= k < |tail| ==> tail[k].0 == attrs[k + 1].0;
        }
      }
    }
  }

  /**
   * The attribute map holds exactly the names that occur, each with the value
   * of its last occurrence.
   */
  lemma AttributeMapLastWins(attrs: seq<(string, string)>, name: string)
    ensures name in AttributeMapOf(attrs) <==> exists i :: 0 <= i < |attrs| && attrs[i].0 == name
    ensures forall i :: LastOccurrence(attrs, name, i) ==> name in AttributeMapOf(attrs) && AttributeMapOf(attrs)[name] == attrs[i].1
  {
    AttributesIntoLastWins(map[], attrs, name);
  }

  // ---------------------------------------------------------------------
  // Attribute reading and the builder

  /** Which default color `getAttribColorMandatory` falls back to. */
  datatype DefaultColor = Black | White

  /**
   * The stream extractions of the attribute types and the helpers whose
   * bodies are outside this model: `getAttribColorMandatory`,
   * `g_ascii_strtod` and `decodeBase64`.
   */
  datatype Extractors = Extractors(
    integer: Extractor<int>,
    size: Extractor<SizeT>,
    number: Extractor<real>,
    path: Extractor<string>,
    domain: Extractor<Domain>,
    tool: Extractor<Tool>,
    capStyle: Extractor<CapStyle>,
    lineStyle: Extractor<LineStyle>,
    color: (AttributeMap, DefaultColor, bool) -> Color,
    strtod: NumberReader,
    base64: string -> string)

  /** `getAttrib<std::string>`. */
  function Str(name: string, m: AttributeMap): Option<string>
  {
    GetAttrib(name, m, StringExtractor()).value
  }

  /** `getAttribMandatory<T>`; the warning it logs is not kept. */
  function Mandatory<T>(name: string, m: AttributeMap, extract: Extractor<T>, default: T, warn: bool): T
  {
    GetAttribMandatory(name, m, extract, default, warn, _ => "").0
  }

  /** The calls of the parser into `LoadHandler`, in the order made. */
  datatype Call =
    | AddXournal(creator: string, fileVersion: int)
    | AddMrWriter(creator: string)
    | FinalizeDocument
    | AddPage(width: real, height: real)
    | FinalizePage
    | AddAudioAttachment(filename: string)
    | SetBgName(bgName: string)
    | SetBgSolid(style: Option<string>, config: string, color: Color)
    | SetBgPixmap(attach: bool, filename: string)
    | SetBgPixmapCloned(pageNr: SizeT)
    | LoadBgPdf(attach: bool, filename: string)
    | SetBgPdf(pageNr: SizeT)
    | AddLayer(layerName: Option<string>)
    | FinalizeLayer
    | AddStroke(tool: Tool, color: Color, width: real, fill: int, capStyle: CapStyle, lineStyle: Option<LineStyle>, filename: string, timestamp: SizeT)
    | SetStrokePoints(points: seq<(real, real)>, pressures: seq<real>)
    | FinalizeStroke
    | AddText(font: string, size: real, x: real, y: real, color: Color, filename: string, timestamp: SizeT)
    | SetTextContents(text: string)
    | FinalizeText
    | AddImage(left: real, top: real, right: real, bottom: real)
    | SetImageData(data: string)
    | FinalizeImage
    | AddTexImage(left: real, top: real, right: real, bottom: real, text: string)
    | SetTexImageData(data: string)
    | FinalizeTexImage
    | SetImageAttachment(path: string)
    | SetTexImageAttachment(path: string)

  /** The exceptions the parser throws; `TopOfEmptyHierarchy` is a `top()` of an empty stack, undefined in C++. */
  datatype ParseError =
    | ReadFailed
    | EmptyRoot
    | ClosingAtRoot(tag: TagType)
    | ClosingMismatch(tag: TagType, open: TagType)
    | TopOfEmptyHierarchy

  /** The fields of `XmlParser` besides the reader and the handler, and the reader's position. */
  datatype PState = PState(
    cursor: int,
    hierarchy: seq<TagType>,
    pdfFilenameParsed: bool,
    tempTimestamp: SizeT,
    tempFilename: string,
    pressureBuffer: seq<real>,
    calls: seq<Call>)

  /** What the parser reads from: the reader's nodes, whether the end is a read error, and the extractions. */
  datatype Env = Env(nodes: seq<ReaderNode>, readFails: bool, ex: Extractors)

  /** The outcome of a node function or of `parse`: the last read result, or an exception. */
  datatype Outcome = Ok(res: int) | Fail(error: ParseError)

  datatype Run = Run(out: Outcome, state: PState)

  /** A new parser: before the first node, nothing open, nothing pending. */
  function Initial(): PState
  {
    PState(-1, [], false, 0, "", [], [])
  }

  predicate Positioned(e: Env, s: PState)
  {
    -1 <= s.cursor <= |e.nodes|
  }

  predicate OnNode(e: Env, s: PState)
  {
    0 <= s.cursor < |e.nodes|
  }

  /** `xmlTextReaderRead`: move to the next node; 1 on a node, else 0, or -1 for a read error. */
  function ReadOf(e: Env, s: PState): (r: Run)
    requires Positioned(e, s)
    ensures Positioned(e, r.state) && r.out.Ok?
    ensures r.state == s.(cursor := r.state.cursor)
    ensures r.state.cursor == if s.cursor < |e.nodes| then s.cursor + 1 else s.cursor
    ensures r.out.res == 1 <==> OnNode(e, r.state)
    ensures r.out.res != 1 ==> r.out.res == if e.readFails then -1 else 0
  {
    var c := if s.cursor < |e.nodes| then s.cursor + 1 else s.cursor;
    Run(Ok(if c < |e.nodes| then 1 else if e.readFails then -1 else 0), s.(cursor := c))
  }

  function Top(s: PState): Option<TagType>
  {
    if s.hierarchy == [] then None else Some(s.hierarchy[|s.hierarchy| - 1])
  }

  /** `openTag`: the node's tag, pushed on the hierarchy unless the element is empty. */
  function OpenTagOf(n: ReaderNode, s: PState): (r: (TagType, PState))
    ensures r.0 == TagNameToType(n.name)
    ensures r.1 == s.(hierarchy := if n.isEmpty then s.hierarchy else s.hierarchy + [r.0])
  {
    var t := TagNameToType(n.name);
    (t, if n.isEmpty then s else s.(hierarchy := s.hierarchy + [t]))
  }

  /** The result of a step that may throw; a throw keeps the state reached so far. */
  datatype Stepped = Fine(state: PState) | Broken(error: ParseError, state: PState)

  /**
   * `closeTag`: throws on an empty hierarchy or when the innermost open tag is
   * not `t`, and otherwise pops exactly that tag.
   */
  function CloseTagOf(s: PState, t: TagType): (r: Stepped)
    ensures r.state.cursor == s.cursor
    ensures s.hierarchy == [] ==> r == Broken(ClosingAtRoot(t), s)
    ensures s.hierarchy != [] && Top(s) != Some(t) ==> r == Broken(ClosingMismatch(t, Top(s).value), s)
    ensures Top(s) == Some(t) ==> r.Fine? && r.state.hierarchy + [t] == s.hierarchy
    ensures r.Fine? ==> r.state == s.(hierarchy := r.state.hierarchy)
  {
    if s.hierarchy == [] then Broken(ClosingAtRoot(t), s)
    else if Top(s).value != t then Broken(ClosingMismatch(t, Top(s).value), s)
    else Fine(s.(hierarchy := s.hierarchy[..|s.hierarchy| - 1]))
  }

  /**
   * What a node function does once it has handled its node: read the next
   * node, parse the element's children with another node function, or throw.
   * Each carries the state reached.
   */
  datatype Next = ReadNext(state: PState) | Children(state: PState, ctx: Context) | Throw(error: ParseError, state: PState)

  /** The node functions `parse` is given. */
  datatype Context = Root | DocumentChild | PageChild | LayerChild | Attachment

  /** A step that may throw, followed by a read. */
  function Then(st: Stepped): Next
  {
    if st.Broken? then Throw(st.error, st.state) else ReadNext(st.state)
  }

  /** The node functions leave the reader on their node. */
  predicate Stays(s: PState, r: Next)
  {
    r.state.cursor == s.cursor && (r.Throw? ==> r.error != ReadFailed)
  }

  function Log(s: PState, c: Call): PState
  {
    s.(calls := s.calls + [c])
  }

  /** The finalizing call of an element, if there is one. */
  function Finalized(s: PState, finalizer: Option<Call>): PState
  {
    if finalizer.Some? then Log(s, finalizer.value) else s
  }

  // ---------------------------------------------------------------------
  // The tags

  /**
   * The creator of a Xournal document: the `creator` attribute, else
   * "Xournal " and the `version` attribute, else "Unknown".
   */
  function XournalCreator(m: AttributeMap): string
  {
    match Str("creator", m)
    case Some(c) => c
    case None =>
      match Str("version", m)
      case Some(v) => "Xournal " + v
      case None => "Unknown"
  }

  /** The creator of a MrWriter document: "MrWriter " and the `version` attribute, else "Unknown". */
  function MrWriterCreator(m: AttributeMap): string
  {
    match Str("version", m)
    case Some(v) => "MrWriter " + v
    case None => "Unknown"
  }

  /** `parseXournalTag`; `fileversion` defaults to 1. */
  function XournalTagOf(e: Env, n: ReaderNode, s: PState): (r: PState)
    ensures r.cursor == s.cursor && r.hierarchy == s.hierarchy
  {
    var m := AttributeMapOf(n.attributes);
    Log(s, AddXournal(XournalCreator(m), Mandatory("fileversion", m, e.ex.integer, 1, true)))
  }

  /** `parseMrWriterTag`. */
  function MrWriterTagOf(n: ReaderNode, s: PState): (r: PState)
    ensures r.cursor == s.cursor && r.hierarchy == s.hierarchy
  {
    Log(s, AddMrWriter(MrWriterCreator(AttributeMapOf(n.attributes))))
  }

  /** `parsePageTag`: `width` and `height` default to `double{}`, 0, with a warning. */
  function PageTagOf(e: Env, n: ReaderNode, s: PState): (r: PState)
    ensures r.cursor == s.cursor && r.hierarchy == s.hierarchy
  {
    var m := AttributeMapOf(n.attributes);
    Log(s, AddPage(Mandatory("width", m, e.ex.number, 0.0, true), Mandatory("height", m, e.ex.number, 0.0, true)))
  }

  /** `parseAudioTag`. */
  function AudioTagOf(e: Env, n: ReaderNode, s: PState): (r: PState)
    ensures r.cursor == s.cursor && r.hierarchy == s.hierarchy
  {
    Log(s, AddAudioAttachment(Mandatory("fn", AttributeMapOf(n.attributes), e.ex.path, "", true)))
  }

  /** `parseBgSolid`. */
  function BgSolidOf(e: Env, m: AttributeMap, s: PState): PState
  {
    Log(s, SetBgSolid(Str("style", m), Mandatory("config", m, StringExtractor(), "", false), e.ex.color(m, White, true)))
  }

  /** `parseBgPixmap`: a cloned background names the page it is cloned from in `filename`. */
  function BgPixmapOf(e: Env, m: AttributeMap, s: PState): PState
  {
    var domain := Mandatory("domain", m, e.ex.domain, ABSOLUTE, true);
    if domain != CLONE then
      Log(s, SetBgPixmap(domain == ATTACH, Mandatory("filename", m, StringExtractor(), "", true)))
    else
      Log(s, SetBgPixmapCloned(Mandatory("filename", m, e.ex.size, 0, true)))
  }

  /** `pageno - 1` in `size_t`: page 0 wraps around to the largest `size_t`. */
  function PdfPageIndex(pageno: SizeT): (r: SizeT)
    ensures pageno > 0 ==> r + 1 == pageno
    ensures pageno == 0 ==> r == 0xFFFF_FFFF_FFFF_FFFF
  {
    (pageno + 0xFFFF_FFFF_FFFF_FFFF) % 0x1_0000_0000_0000_0000
  }

  /**
   * `parseBgPdf`: the first PDF background with a non-empty filename loads
   * the PDF, with `clone` read as `absolute`; every PDF background then sets
   * its page, `pageno - 1` with `pageno` defaulting to 1.
   */
  function BgPdfOf(e: Env, m: AttributeMap, s: PState): PState
  {
    var s1 :=
      if s.pdfFilenameParsed then s
      else
        var domain := Mandatory("domain", m, e.ex.domain, ABSOLUTE, true);
        var filename := Mandatory("filename", m, StringExtractor(), "", true);
        if filename != "" then Log(s.(pdfFilenameParsed := true), LoadBgPdf(domain == ATTACH, filename)) else s;
    Log(s1, SetBgPdf(PdfPageIndex(Mandatory("pageno", m, e.ex.size, 1, true))))
  }

  /** `parseBackgroundTag`: the name, then the background of the given type; an unknown or missing type sets none. */
  function BackgroundTagOf(e: Env, n: ReaderNode, s: PState): (r: PState)
    ensures r.cursor == s.cursor && r.hierarchy == s.hierarchy
  {
    var m := AttributeMapOf(n.attributes);
    var s1 := match Str("name", m) case Some(name) => Log(s, SetBgName(name)) case None => s;
    match Str("type", m)
    case Some(t) =>
      if t == "solid" then BgSolidOf(e, m, s1)
      else if t == "pixmap" then BgPixmapOf(e, m, s1)
      else if t == "pdf" then BgPdfOf(e, m, s1)
      else s1
    case None => s1
  }

  /** `parseLayerTag`. */
  function LayerTagOf(n: ReaderNode, s: PState): (r: PState)
    ensures r.cursor == s.cursor && r.hierarchy == s.hierarchy
  {
    Log(s, AddLayer(Str("name", AttributeMapOf(n.attributes))))
  }

  /** `parseTimestampTag`: the pending audio file and time are overwritten. */
  function TimestampTagOf(e: Env, n: ReaderNode, s: PState): (r: PState)
    ensures r.cursor == s.cursor && r.hierarchy == s.hierarchy
  {
    var m := AttributeMapOf(n.attributes);
    s.(tempFilename := Mandatory("fn", m, StringExtractor(), "", true),
       tempTimestamp := Mandatory("ts", m, e.ex.size, 0, true))
  }

  /** The pending audio pair after a stroke or text tag: a non-empty `fn` attribute replaces it, with `ts` defaulting to 0. */
  function AudioOf(e: Env, m: AttributeMap, s: PState): PState
  {
    match Str("fn", m)
    case Some(fn) =>
      if fn != "" then s.(tempFilename := fn, tempTimestamp := Mandatory("ts", m, e.ex.size, 0, true)) else s
    case None => s
  }

  /** The `width` attribute of a stroke tag, "1" when missing. */
  function WidthText(m: AttributeMap): string
  {
    Mandatory("width", m, StringExtractor(), "1", true)
  }

  /**
   * The text the pressures of a stroke tag are read from: the `pressures`
   * attribute if present, else what follows the first number of `width`.
   */
  function PressureText(e: Env, m: AttributeMap): string
  {
    match Str("pressures", m)
    case Some(p) => p
    case None => WidthText(m)[e.ex.strtod(WidthText(m)).used..]
  }

  /**
   * `parseStrokeTag`. The builder receives the pending audio pair, after
   * which the time is cleared. The filename is handed on with `std::move`,
   * but to a `const fs::path&` parameter, which does not move from it: it
   * stays pending for the next stroke or text (see `StrokeTagCorrected`).
   */
  function StrokeTagOf(e: Env, n: ReaderNode, s: PState): (r: PState)
    ensures r.cursor == s.cursor && r.hierarchy == s.hierarchy
  {
    var m := AttributeMapOf(n.attributes);
    var s1 := AudioOf(e, m, s.(pressureBuffer := s.pressureBuffer + Tokens(e.ex.strtod, PressureText(e, m))));
    var call := AddStroke(
      Mandatory("tool", m, e.ex.tool, PEN, true), e.ex.color(m, Black, false), e.ex.strtod(WidthText(m)).value,
      Mandatory("fill", m, e.ex.integer, -1, false), Mandatory("capStyle", m, e.ex.capStyle, ROUND, false),
      GetAttrib("style", m, e.ex.lineStyle).value, s1.tempFilename, s1.tempTimestamp);
    Log(s1, call).(tempTimestamp := 0)
  }

  /** `parseStrokeTag` as its comment intends: the filename is moved from, so nothing stays pending. */
  function StrokeTagCorrected(e: Env, n: ReaderNode, s: PState): (r: PState)
    ensures r.tempFilename == "" && r.tempTimestamp == 0
  {
    StrokeTagOf(e, n, s).(tempFilename := "")
  }

  /** `parseStrokeText`: the coordinate pairs and the buffered pressures go to the builder; the buffer is emptied. */
  function StrokeTextOf(e: Env, n: ReaderNode, s: PState): (r: PState)
    ensures r.cursor == s.cursor && r.hierarchy == s.hierarchy
  {
    Log(s, SetStrokePoints(Pairs(e.ex.strtod, n.value), s.pressureBuffer)).(pressureBuffer := [])
  }

  /** `parseTextTag`, with the pending audio pair handled as for strokes: the filename stays pending. */
  function TextTagOf(e: Env, n: ReaderNode, s: PState): (r: PState)
    ensures r.cursor == s.cursor && r.hierarchy == s.hierarchy
  {
    var m := AttributeMapOf(n.attributes);
    var s1 := AudioOf(e, m, s);
    var call := AddText(
      Mandatory("font", m, StringExtractor(), "Sans", true), Mandatory("size", m, e.ex.number, 12.0, true),
      Mandatory("x", m, e.ex.number, 0.0, true), Mandatory("y", m, e.ex.number, 0.0, true),
      e.ex.color(m, Black, false), s1.tempFilename, s1.tempTimestamp);
    Log(s1, call).(tempTimestamp := 0)
  }

  /** `parseTextTag` with the filename moved from, as for `StrokeTagCorrected`. */
  function TextTagCorrected(e: Env, n: ReaderNode, s: PState): (r: PState)
    ensures r.tempFilename == "" && r.tempTimestamp == 0
  {
    TextTagOf(e, n, s).(tempFilename := "")
  }

  /** The four coordinates of an image or TeX image tag, each defaulting to 0. */
  function Box(e: Env, m: AttributeMap): (real, real, real, real)
  {
    (Mandatory("left", m, e.ex.number, 0.0, true), Mandatory("top", m, e.ex.number, 0.0, true),
     Mandatory("right", m, e.ex.number, 0.0, true), Mandatory("bottom", m, e.ex.number, 0.0, true))
  }

  /** `parseImageTag`. */
  function ImageTagOf(e: Env, n: ReaderNode, s: PState): (r: PState)
    ensures r.cursor == s.cursor && r.hierarchy == s.hierarchy
  {
    var b := Box(e, AttributeMapOf(n.attributes));
    Log(s, AddImage(b.0, b.1, b.2, b.3))
  }

  /** `parseTexImageTag`. */
  function TexImageTagOf(e: Env, n: ReaderNode, s: PState): (r: PState)
    ensures r.cursor == s.cursor && r.hierarchy == s.hierarchy
  {
    var m := AttributeMapOf(n.attributes);
    var b := Box(e, m);
    Log(s, AddTexImage(b.0, b.1, b.2, b.3, Mandatory("text", m, StringExtractor(), "", true)))
  }

  /** `parseAttachment`: the path goes to the image or TeX image that is innermost open. */
  function AttachmentOf(e: Env, n: ReaderNode, s: PState): (r: Stepped)
    ensures r.state.cursor == s.cursor
  {
    var path := Mandatory("path", AttributeMapOf(n.attributes), e.ex.path, "", true);
    match Top(s)
    case None => Broken(TopOfEmptyHierarchy, s)
    case Some(t) =>
      if t == IMAGE then Fine(Log(s, SetImageAttachment(path)))
      else if t == TEXIMAGE then Fine(Log(s, SetTexImageAttachment(path)))
      else Fine(s)
  }

  // ---------------------------------------------------------------------
  // parse and the node functions

  /**
   * A run that did not throw has read past its node, and its result is 1 on
   * a node, else the result of reading past the end (-1 for a read error).
   * A read error is only reported when the reader has one.
   */
  predicate Advanced(e: Env, s: PState, r: Run)
  {
    && (r.out.Ok? ==> s.cursor < r.state.cursor <= |e.nodes| && (r.out.res == 1 <==> OnNode(e, r.state)) && Result(e, r.out.res))
    && (r.out == Fail(ReadFailed) ==> e.readFails)
  }

  /** The results of a read: 1, or the result at the end of the nodes. */
  predicate Result(e: Env, res: int)
  {
    res == 1 || res == if e.readFails then -1 else 0
  }

  /**
   * `parse(processNodeFunction)`: read; a first node that is not an element
   * ends it at once; otherwise the nodes at the first node's depth or deeper
   * go to the node function, and the first shallower node ends it. A
   * negative read result throws.
   */
  function ParseOf(e: Env, s: PState, ctx: Context): (r: Run)
    requires -1 <= s.cursor < |e.nodes|
    ensures Advanced(e, s, r)
    ensures r.out.Ok? ==> r.out.res in {0, 1}
    decreases |e.nodes| - s.cursor, 0
  {
    var r0 := ReadOf(e, s);
    if r0.out.res == 1 && e.nodes[r0.state.cursor].kind != ElementNode then r0
    else
      var startDepth := if r0.out.res == 1 then e.nodes[r0.state.cursor].depth else 0;
      LoopOf(e, r0.state, ctx, startDepth, r0.out.res)
  }

  /** The loop of `parse`, with the last read result `res`. */
  function LoopOf(e: Env, s: PState, ctx: Context, startDepth: nat, res: int): (r: Run)
    requires Positioned(e, s)
    requires res == 1 <==> OnNode(e, s)
    requires Result(e, res)
    ensures r.out.Ok? ==> s.cursor <= r.state.cursor <= |e.nodes| && (r.out.res == 1 <==> OnNode(e, r.state)) && Result(e, r.out.res) && r.out.res in {0, 1}
    ensures r.out == Fail(ReadFailed) ==> e.readFails
    decreases |e.nodes| - s.cursor, 6
  {
    if res == 1 then
      if e.nodes[s.cursor].depth >= startDepth then
        var r1 := ProcessOf(e, s, ctx);
        if r1.out.Fail? then r1 else LoopOf(e, r1.state, ctx, startDepth, r1.out.res)
      else Run(Ok(res), s)
    else if res < 0 then Run(Fail(ReadFailed), s)
    else Run(Ok(res), s)
  }

  /** The node function of `ctx` on the current node. */
  function ProcessOf(e: Env, s: PState, ctx: Context): (r: Run)
    requires OnNode(e, s)
    ensures Advanced(e, s, r)
    decreases |e.nodes| - s.cursor, 5
  {
    match ctx
    case Root => RootNodeOf(e, s)
    case DocumentChild => DocumentChildOf(e, s)
    case PageChild => PageChildOf(e, s)
    case LayerChild => LayerChildOf(e, s)
    case Attachment => AttachmentChildOf(e, s)
  }

  /** What a node function does last: read the next node, parse the children, or throw. */
  function Resume(e: Env, s: PState, next: Next): (r: Run)
    requires OnNode(e, s) && Stays(s, next)
    ensures Advanced(e, s, r)
    decreases |e.nodes| - s.cursor, 1
  {
    match next
    case ReadNext(s1) => ReadOf(e, s1)
    case Children(s1, ctx1) => ParseOf(e, s1, ctx1)
    case Throw(err, s1) => Run(Fail(err), s1)
  }

  /** A step that may throw, as the exception it threw (if any) and the state it reached. */
  function SteppedOf(err: Option<ParseError>, s: PState): Stepped
  {
    if err.Some? then Broken(err.value, s) else Fine(s)
  }

  /** A step that may throw, followed by a read. */
  function ThenRead(e: Env, st: Stepped): Run
    requires Positioned(e, st.state)
  {
    match st
    case Fine(s) => ReadOf(e, s)
    case Broken(err, s) => Run(Fail(err), s)
  }

  // The node functions are split as the C++ switches are: by node type
  // (`RootNodeOf`, ...), then, for an element, by tag after `openTag`
  // (`RootElementOf`, ...), then one function per tag (`XournalRun`, ...)
  // from the state after `openTag`.

  /** `processRootNode`: an empty root throws; the root opens the document, its closing tag finalizes it. */
  function RootNodeOf(e: Env, s: PState): (r: Run)
    requires OnNode(e, s)
    ensures Advanced(e, s, r)
    decreases |e.nodes| - s.cursor, 4
  {
    var n := e.nodes[s.cursor];
    if n.isEmpty then Run(Fail(EmptyRoot), s)
    else if n.kind == ElementNode then RootElementOf(e, s)
    else if n.kind == EndElementNode then ThenRead(e, CloseTagOf(Finalized(s, Some(FinalizeDocument)), TagNameToType(n.name)))
    else ReadOf(e, s)
  }

  /** The root element: a Xournal or MrWriter document, or an unexpected tag whose children are parsed all the same. */
  function RootElementOf(e: Env, s: PState): (r: Run)
    requires OnNode(e, s)
    ensures Advanced(e, s, r)
    decreases |e.nodes| - s.cursor, 3
  {
    var o := OpenTagOf(e.nodes[s.cursor], s);
    if o.0 == XOURNAL then XournalRun(e, o.1)
    else if o.0 == MRWRITER then MrWriterRun(e, o.1)
    else ParseOf(e, o.1, DocumentChild)
  }

  function XournalRun(e: Env, s: PState): (r: Run)
    requires OnNode(e, s)
    ensures Advanced(e, s, r)
    decreases |e.nodes| - s.cursor, 2
  {
    Resume(e, s, Children(XournalTagOf(e, e.nodes[s.cursor], s), DocumentChild))
  }

  function MrWriterRun(e: Env, s: PState): (r: Run)
    requires OnNode(e, s)
    ensures Advanced(e, s, r)
    decreases |e.nodes| - s.cursor, 2
  {
    Resume(e, s, Children(MrWriterTagOf(e.nodes[s.cursor], s), DocumentChild))
  }

  /** `processDocumentChildNode`: a closing page tag finalizes the page; text is skipped. */
  function DocumentChildOf(e: Env, s: PState): (r: Run)
    requires OnNode(e, s)
    ensures Advanced(e, s, r)
    decreases |e.nodes| - s.cursor, 4
  {
    var n := e.nodes[s.cursor];
    match n.kind
    case ElementNode => DocumentElementOf(e, s)
    case TextNode =>
      if s.hierarchy == [] then Run(Fail(TopOfEmptyHierarchy), s) else ReadOf(e, s)
    case EndElementNode =>
      if s.hierarchy == [] then Run(Fail(TopOfEmptyHierarchy), s)
      else ThenRead(e, CloseTagOf(Finalized(s, if Top(s) == Some(PAGE) then Some(FinalizePage) else None), TagNameToType(n.name)))
    case OtherNode(_) => ReadOf(e, s)
  }

  /** The elements of a document: pages and audio; title, preview and unknown tags are skipped. */
  function DocumentElementOf(e: Env, s: PState): (r: Run)
    requires OnNode(e, s)
    ensures Advanced(e, s, r)
    decreases |e.nodes| - s.cursor, 3
  {
    var o := OpenTagOf(e.nodes[s.cursor], s);
    if o.0 == PAGE then PageRun(e, o.1)
    else if o.0 == AUDIO then AudioRun(e, o.1)
    else ReadOf(e, o.1)
  }

  /** A page: an empty one is finalized at once, otherwise its children are parsed. */
  function PageRun(e: Env, s: PState): (r: Run)
    requires OnNode(e, s)
    ensures Advanced(e, s, r)
    decreases |e.nodes| - s.cursor, 2
  {
    var n := e.nodes[s.cursor];
    var s1 := PageTagOf(e, n, s);
    Resume(e, s, if n.isEmpty then ReadNext(Log(s1, FinalizePage)) else Children(s1, PageChild))
  }

  function AudioRun(e: Env, s: PState): (r: Run)
    requires OnNode(e, s)
    ensures Advanced(e, s, r)
    decreases |e.nodes| - s.cursor, 2
  {
    Resume(e, s, ReadNext(AudioTagOf(e, e.nodes[s.cursor], s)))
  }

  /** `processPageChildNode`: a closing layer tag finalizes the layer. */
  function PageChildOf(e: Env, s: PState): (r: Run)
    requires OnNode(e, s)
    ensures Advanced(e, s, r)
    decreases |e.nodes| - s.cursor, 4
  {
    var n := e.nodes[s.cursor];
    match n.kind
    case ElementNode => PageElementOf(e, s)
    case EndElementNode =>
      if s.hierarchy == [] then Run(Fail(TopOfEmptyHierarchy), s)
      else ThenRead(e, CloseTagOf(Finalized(s, if Top(s) == Some(LAYER) then Some(FinalizeLayer) else None), TagNameToType(n.name)))
    case _ => ReadOf(e, s)
  }

  /** The elements of a page: backgrounds and layers. */
  function PageElementOf(e: Env, s: PState): (r: Run)
    requires OnNode(e, s)
    ensures Advanced(e, s, r)
    decreases |e.nodes| - s.cursor, 3
  {
    var o := OpenTagOf(e.nodes[s.cursor], s);
    if o.0 == BACKGROUND then BackgroundRun(e, o.1)
    else if o.0 == LAYER then LayerRun(e, o.1)
    else ReadOf(e, o.1)
  }

  function BackgroundRun(e: Env, s: PState): (r: Run)
    requires OnNode(e, s)
    ensures Advanced(e, s, r)
    decreases |e.nodes| - s.cursor, 2
  {
    Resume(e, s, ReadNext(BackgroundTagOf(e, e.nodes[s.cursor], s)))
  }

  /** A layer: an empty one is finalized at once, otherwise its children are parsed. */
  function LayerRun(e: Env, s: PState): (r: Run)
    requires OnNode(e, s)
    ensures Advanced(e, s, r)
    decreases |e.nodes| - s.cursor, 2
  {
    var n := e.nodes[s.cursor];
    var s1 := LayerTagOf(n, s);
    Resume(e, s, if n.isEmpty then ReadNext(Log(s1, FinalizeLayer)) else Children(s1, LayerChild))
  }

  /** The call that finalizes the element of tag `t` at its closing tag in a layer, if any. */
  function LayerFinalizer(t: TagType): Option<Call>
  {
    if t == STROKE then Some(FinalizeStroke)
    else if t == TEXT then Some(FinalizeText)
    else if t == IMAGE then Some(FinalizeImage)
    else if t == TEXIMAGE then Some(FinalizeTexImage)
    else None
  }

  /** The text of an element of tag `t` in a layer, handed to the builder. */
  function LayerTextOf(e: Env, n: ReaderNode, s: PState, t: TagType): (r: PState)
    ensures r.cursor == s.cursor && r.hierarchy == s.hierarchy
  {
    if t == STROKE then StrokeTextOf(e, n, s)
    else if t == TEXT then Log(s, SetTextContents(n.value))
    else if t == IMAGE then Log(s, SetImageData(e.ex.base64(n.value)))
    else if t == TEXIMAGE then Log(s, SetTexImageData(e.ex.base64(n.value)))
    else s
  }

  /**
   * `processLayerChildNode`: the text of a stroke, text, image or TeX image
   * goes to the builder; a closing tag finalizes its element.
   */
  function LayerChildOf(e: Env, s: PState): (r: Run)
    requires OnNode(e, s)
    ensures Advanced(e, s, r)
    decreases |e.nodes| - s.cursor, 4
  {
    var n := e.nodes[s.cursor];
    match n.kind
    case ElementNode => LayerElementOf(e, s)
    case TextNode =>
      if s.hierarchy == [] then Run(Fail(TopOfEmptyHierarchy), s) else LayerTextRun(e, s)
    case EndElementNode =>
      if s.hierarchy == [] then Run(Fail(TopOfEmptyHierarchy), s)
      else ThenRead(e, CloseTagOf(Finalized(s, LayerFinalizer(Top(s).value)), TagNameToType(n.name)))
    case OtherNode(_) => ReadOf(e, s)
  }

  /** A text node in a layer, under the innermost open tag. */
  function LayerTextRun(e: Env, s: PState): (r: Run)
    requires OnNode(e, s) && s.hierarchy != []
    ensures Advanced(e, s, r)
    decreases |e.nodes| - s.cursor, 3
  {
    Resume(e, s, ReadNext(LayerTextOf(e, e.nodes[s.cursor], s, Top(s).value)))
  }

  /**
   * The elements of a layer: timestamps, strokes, texts, images and TeX
   * images, each finalized at once when empty or else at its closing tag.
   */
  function LayerElementOf(e: Env, s: PState): (r: Run)
    requires OnNode(e, s)
    ensures Advanced(e, s, r)
    decreases |e.nodes| - s.cursor, 3
  {
    var o := OpenTagOf(e.nodes[s.cursor], s);
    if o.0 == TIMESTAMP then TimestampRun(e, o.1)
    else if o.0 == STROKE then StrokeRun(e, o.1)
    else if o.0 == TEXT then TextRun(e, o.1)
    else if o.0 == IMAGE then ImageRun(e, o.1)
    else if o.0 == TEXIMAGE then TexImageRun(e, o.1)
    else ReadOf(e, o.1)
  }

  function TimestampRun(e: Env, s: PState): (r: Run)
    requires OnNode(e, s)
    ensures Advanced(e, s, r)
    decreases |e.nodes| - s.cursor, 2
  {
    Resume(e, s, ReadNext(TimestampTagOf(e, e.nodes[s.cursor], s)))
  }

  function StrokeRun(e: Env, s: PState): (r: Run)
    requires OnNode(e, s)
    ensures Advanced(e, s, r)
    decreases |e.nodes| - s.cursor, 2
  {
    var n := e.nodes[s.cursor];
    var s1 := StrokeTagOf(e, n, s);
    Resume(e, s, ReadNext(Finalized(s1, if n.isEmpty then Some(FinalizeStroke) else None)))
  }

  function TextRun(e: Env, s: PState): (r: Run)
    requires OnNode(e, s)
    ensures Advanced(e, s, r)
    decreases |e.nodes| - s.cursor, 2
  {
    var n := e.nodes[s.cursor];
    var s1 := TextTagOf(e, n, s);
    Resume(e, s, ReadNext(Finalized(s1, if n.isEmpty then Some(FinalizeText) else None)))
  }

  /** An image: an empty one is finalized at once, otherwise its attachment is parsed. */
  function ImageRun(e: Env, s: PState): (r: Run)
    requires OnNode(e, s)
    ensures Advanced(e, s, r)
    decreases |e.nodes| - s.cursor, 2
  {
    var n := e.nodes[s.cursor];
    var s1 := ImageTagOf(e, n, s);
    Resume(e, s, if n.isEmpty then ReadNext(Log(s1, FinalizeImage)) else Children(s1, Attachment))
  }

  /**
   * The TeX image case of `processLayerChildNode`: an empty TeX image is
   * finalized, and, as there is no `break` after that (unlike the image
   * case), `parse(processAttachment)` runs in both cases. After an empty
   * TeX image it runs from the next node, so the siblings that follow go to
   * the attachment node function (see `TexImageRunCorrected`).
   */
  function TexImageRun(e: Env, s: PState): (r: Run)
    requires OnNode(e, s)
    ensures Advanced(e, s, r)
    decreases |e.nodes| - s.cursor, 2
  {
    var n := e.nodes[s.cursor];
    var s1 := TexImageTagOf(e, n, s);
    Resume(e, s, Children(if n.isEmpty then Log(s1, FinalizeTexImage) else s1, Attachment))
  }

  /** The TeX image case with the `break` the image case has: after an empty TeX image the parser reads on. */
  function TexImageRunCorrected(e: Env, s: PState): (r: Run)
    requires OnNode(e, s)
    ensures Advanced(e, s, r)
  {
    var n := e.nodes[s.cursor];
    var s1 := TexImageTagOf(e, n, s);
    Resume(e, s, if n.isEmpty then ReadNext(Log(s1, FinalizeTexImage)) else Children(s1, Attachment))
  }

  /** `processAttachment`: the attachment of an image or TeX image. */
  function AttachmentChildOf(e: Env, s: PState): (r: Run)
    requires OnNode(e, s)
    ensures Advanced(e, s, r)
    decreases |e.nodes| - s.cursor, 4
  {
    var n := e.nodes[s.cursor];
    match n.kind
    case ElementNode => AttachmentElementOf(e, s)
    case EndElementNode => ThenRead(e, CloseTagOf(Finalized(s, None), TagNameToType(n.name)))
    case _ => ReadOf(e, s)
  }

  function AttachmentElementOf(e: Env, s: PState): (r: Run)
    requires OnNode(e, s)
    ensures Advanced(e, s, r)
    decreases |e.nodes| - s.cursor, 3
  {
    var o := OpenTagOf(e.nodes[s.cursor], s);
    if o.0 == ATTACHMENT then AttachmentRun(e, o.1) else ReadOf(e, o.1)
  }

  function AttachmentRun(e: Env, s: PState): (r: Run)
    requires OnNode(e, s)
    ensures Advanced(e, s, r)
    decreases |e.nodes| - s.cursor, 2
  {
    Resume(e, s, Then(AttachmentOf(e, e.nodes[s.cursor], s)))
  }

  // ---------------------------------------------------------------------
  // The parser object

  /**
   * `XmlParser`: the reader (its nodes and its position), the builder (the
   * log of calls), the hierarchy stack, whether the PDF background has been
   * loaded, and the pending audio pair and pressures.
   *
   * Every change of a field other than the cursor and the hierarchy goes
   * through one of the small methods `LogCall`, `Finalize`, `SetAudio`,
   * `SetPressures` and `MarkPdfLoaded`.
   */
  class Parser {
    const nodes: seq<ReaderNode>
    const readFails: bool
    const ex: Extractors
    var cursor: int
    var hierarchy: seq<TagType>
    var pdfFilenameParsed: bool
    var tempTimestamp: SizeT
    var tempFilename: string
    var pressureBuffer: seq<real>
    var calls: seq<Call>

    function E(): Env
    {
      Env(nodes, readFails, ex)
    }

    function St(): PState
      reads this
    {
      PState(cursor, hierarchy, pdfFilenameParsed, tempTimestamp, tempFilename, pressureBuffer, calls)
    }

    /** `XmlParser::XmlParser`, with the reader given as its nodes. */
    constructor (nodes: seq<ReaderNode>, readFails: bool, ex: Extractors)
      ensures E() == Env(nodes, readFails, ex) && St() == Initial()
    {
      this.nodes := nodes;
      this.readFails := readFails;
      this.ex := ex;
      cursor := -1;
      hierarchy := [];
      pdfFilenameParsed := false;
      tempTimestamp := 0;
      tempFilename := "";
      pressureBuffer := [];
      calls := [];
    }

    /** A call into the builder. */
    method LogCall(c: Call)
      modifies this
      ensures St() == Log(old(St()), c)
    {
      calls := calls + [c];
    }

    /** The finalizing call of an element, if there is one. */
    method Finalize(finalizer: Option<Call>)
      modifies this
      ensures St() == Finalized(old(St()), finalizer)
    {
      if finalizer.Some? {
        calls := calls + [finalizer.value];
      }
    }

    /** `tempFilename` and `tempTimestamp`. */
    method SetAudio(filename: string, timestamp: SizeT)
      modifies this
      ensures St() == old(St()).(tempFilename := filename, tempTimestamp := timestamp)
    {
      tempFilename, tempTimestamp := filename, timestamp;
    }

    method SetPressures(pressures: seq<real>)
      modifies this
      ensures St() == old(St()).(pressureBuffer := pressures)
    {
      pressureBuffer := pressures;
    }

    /** `loadBackgroundPDF` with `pdfFilenameParsed` set. */
    method MarkPdfLoaded(attach: bool, filename: string)
      modifies this
      ensures St() == Log(old(St()).(pdfFilenameParsed := true), LoadBgPdf(attach, filename))
    {
      pdfFilenameParsed, calls := true, calls + [LoadBgPdf(attach, filename)];
    }

    /** `xmlTextReaderRead`. */
    method Read() returns (res: int)
      requires Positioned(E(), St())
      modifies this
      ensures Run(Ok(res), St()) == ReadOf(E(), old(St()))
    {
      if cursor < |nodes| {
        cursor := cursor + 1;
      }
      res := if cursor < |nodes| then 1 else if readFails then -1 else 0;
    }

    /** The read that ends a node function, as its outcome. */
    method ReadOn() returns (out: Outcome)
      requires Positioned(E(), St())
      modifies this
      ensures Run(out, St()) == ReadOf(E(), old(St()))
    {
      var res := Read();
      out := Ok(res);
    }

    /** The end of a node function after a step that may throw: the next read, or the exception. */
    method ReadUnless(err: Option<ParseError>) returns (out: Outcome)
      requires Positioned(E(), St())
      modifies this
      ensures Run(out, St()) == ThenRead(E(), SteppedOf(err, old(St())))
    {
      if err.Some? {
        return Fail(err.value);
      }
      out := ReadOn();
    }

    /** `getAttributeMap`: the attributes of the element `n`, in document order, into a map. */
    method GetAttributeMap(n: ReaderNode) returns (m: AttributeMap)
      ensures m == AttributeMapOf(n.attributes)
    {
      var rest := n.attributes;
      m := map[];
      while rest != []
        invariant AttributesInto(m, rest) == AttributeMapOf(n.attributes)
        decreases |rest|
      {
        m, rest := m[rest[0].0 := rest[0].1], rest[1..];
      }
    }

    /** `openTag` on the current node `n`. */
    method OpenTag(n: ReaderNode) returns (t: TagType)
      modifies this
      ensures (t, St()) == OpenTagOf(n, old(St()))
    {
      t := TagNameToType(n.name);
      if !n.isEmpty {
        hierarchy := hierarchy + [t];
      }
    }

    /** `closeTag`: the exception, if one is thrown. */
    method CloseTag(t: TagType) returns (err: Option<ParseError>)
      modifies this
      ensures SteppedOf(err, St()) == CloseTagOf(old(St()), t)
    {
      if hierarchy == [] {
        err := Some(ClosingAtRoot(t));
      } else if hierarchy[|hierarchy| - 1] != t {
        err := Some(ClosingMismatch(t, hierarchy[|hierarchy| - 1]));
      } else {
        hierarchy, err := hierarchy[..|hierarchy| - 1], None;
      }
    }

    method ParseXournalTag(n: ReaderNode)
      modifies this
      ensures St() == XournalTagOf(E(), n, old(St()))
    {
      var m := GetAttributeMap(n);
      LogCall(AddXournal(XournalCreator(m), Mandatory("fileversion", m, ex.integer, 1, true)));
    }

    method ParseMrWriterTag(n: ReaderNode)
      modifies this
      ensures St() == MrWriterTagOf(n, old(St()))
    {
      var m := GetAttributeMap(n);
      LogCall(AddMrWriter(MrWriterCreator(m)));
    }

    method ParsePageTag(n: ReaderNode)
      modifies this
      ensures St() == PageTagOf(E(), n, old(St()))
    {
      var m := GetAttributeMap(n);
      var width := Mandatory("width", m, ex.number, 0.0, true);
      var height := Mandatory("height", m, ex.number, 0.0, true);
      LogCall(AddPage(width, height));
    }

    method ParseAudioTag(n: ReaderNode)
      modifies this
      ensures St() == AudioTagOf(E(), n, old(St()))
    {
      var m := GetAttributeMap(n);
      LogCall(AddAudioAttachment(Mandatory("fn", m, ex.path, "", true)));
    }

    method ParseBgSolid(m: AttributeMap)
      modifies this
      ensures St() == BgSolidOf(E(), m, old(St()))
    {
      LogCall(SetBgSolid(Str("style", m), Mandatory("config", m, StringExtractor(), "", false), ex.color(m, White, true)));
    }

    method ParseBgPixmap(m: AttributeMap)
      modifies this
      ensures St() == BgPixmapOf(E(), m, old(St()))
    {
      var domain := Mandatory("domain", m, ex.domain, ABSOLUTE, true);
      if domain != CLONE {
        LogCall(SetBgPixmap(domain == ATTACH, Mandatory("filename", m, StringExtractor(), "", true)));
      } else {
        LogCall(SetBgPixmapCloned(Mandatory("filename", m, ex.size, 0, true)));
      }
    }

    method ParseBgPdf(m: AttributeMap)
      modifies this
      ensures St() == BgPdfOf(E(), m, old(St()))
    {
      if !pdfFilenameParsed {
        var domain := Mandatory("domain", m, ex.domain, ABSOLUTE, true);
        if domain == CLONE {
          domain := ABSOLUTE;
        }
        var filename := Mandatory("filename", m, StringExtractor(), "", true);
        if filename != "" {
          MarkPdfLoaded(domain == ATTACH, filename);
        }
      }
      LogCall(SetBgPdf(PdfPageIndex(Mandatory("pageno", m, ex.size, 1, true))));
    }

    method ParseBackgroundTag(n: ReaderNode)
      modifies this
      ensures St() == BackgroundTagOf(E(), n, old(St()))
    {
      var m := GetAttributeMap(n);
      var name := Str("name", m);
      if name.Some? {
        LogCall(SetBgName(name.value));
      }
      var optType := Str("type", m);
      if optType == Some("solid") {
        ParseBgSolid(m);
      } else if optType == Some("pixmap") {
        ParseBgPixmap(m);
      } else if optType == Some("pdf") {
        ParseBgPdf(m);
      }
    }

    method ParseLayerTag(n: ReaderNode)
      modifies this
      ensures St() == LayerTagOf(n, old(St()))
    {
      var m := GetAttributeMap(n);
      LogCall(AddLayer(Str("name", m)));
    }

    method ParseTimestampTag(n: ReaderNode)
      modifies this
      ensures St() == TimestampTagOf(E(), n, old(St()))
    {
      var m := GetAttributeMap(n);
      SetAudio(Mandatory("fn", m, StringExtractor(), "", true), Mandatory("ts", m, ex.size, 0, true));
    }

    /** The audio attributes of a stroke or text tag. */
    method TakeAudio(m: AttributeMap)
      modifies this
      ensures St() == AudioOf(E(), m, old(St()))
    {
      var optFilename := Str("fn", m);
      if optFilename.Some? && optFilename.value != "" {
        SetAudio(optFilename.value, Mandatory("ts", m, ex.size, 0, true));
      }
    }

    /** `parseStrokeTag`. */
    method ParseStrokeTag(n: ReaderNode)
      modifies this
      ensures St() == StrokeTagOf(E(), n, old(St()))
    {
      var m := GetAttributeMap(n);
      var tool := Mandatory("tool", m, ex.tool, PEN, true);
      var color := ex.color(m, Black, false);
      var width := ex.strtod(WidthText(m)).value;
      var pressures := ReadNumbers(ex.strtod, PressureText(E(), m));
      SetPressures(pressureBuffer + pressures);
      var fill := Mandatory("fill", m, ex.integer, -1, false);
      var capStyle := Mandatory("capStyle", m, ex.capStyle, ROUND, false);
      var lineStyle := GetAttrib("style", m, ex.lineStyle).value;
      TakeAudio(m);
      LogCall(AddStroke(tool, color, width, fill, capStyle, lineStyle, tempFilename, tempTimestamp));
      SetAudio(tempFilename, 0);
    }

    /** `parseStrokeText`: the coordinate pairs and the buffered pressures go to the builder. */
    method ParseStrokeText(n: ReaderNode)
      modifies this
      ensures St() == StrokeTextOf(E(), n, old(St()))
    {
      var points := ReadPairs(ex.strtod, n.value);
      LogCall(SetStrokePoints(points, pressureBuffer));
      SetPressures([]);
    }

    method ParseTextTag(n: ReaderNode)
      modifies this
      ensures St() == TextTagOf(E(), n, old(St()))
    {
      var m := GetAttributeMap(n);
      var font := Mandatory("font", m, StringExtractor(), "Sans", true);
      var size := Mandatory("size", m, ex.number, 12.0, true);
      var x := Mandatory("x", m, ex.number, 0.0, true);
      var y := Mandatory("y", m, ex.number, 0.0, true);
      var color := ex.color(m, Black, false);
      TakeAudio(m);
      LogCall(AddText(font, size, x, y, color, tempFilename, tempTimestamp));
      SetAudio(tempFilename, 0);
    }

    method ParseImageTag(n: ReaderNode)
      modifies this
      ensures St() == ImageTagOf(E(), n, old(St()))
    {
      var m := GetAttributeMap(n);
      var b := Box(E(), m);
      LogCall(AddImage(b.0, b.1, b.2, b.3));
    }

    method ParseTexImageTag(n: ReaderNode)
      modifies this
      ensures St() == TexImageTagOf(E(), n, old(St()))
    {
      var m := GetAttributeMap(n);
      var b := Box(E(), m);
      LogCall(AddTexImage(b.0, b.1, b.2, b.3, Mandatory("text", m, StringExtractor(), "", true)));
    }

    /** `parseAttachment`: the exception, if one is thrown. */
    method ParseAttachment(n: ReaderNode) returns (err: Option<ParseError>)
      modifies this
      ensures SteppedOf(err, St()) == AttachmentOf(E(), n, old(St()))
    {
      hide Mandatory, AttributeMapOf;
      var m := GetAttributeMap(n);
      var path := Mandatory("path", m, ex.path, "", true);
      if hierarchy == [] {
        return Some(TopOfEmptyHierarchy);
      }
      var t := hierarchy[|hierarchy| - 1];
      if t == IMAGE {
        LogCall(SetImageAttachment(path));
      } else if t == TEXIMAGE {
        LogCall(SetTexImageAttachment(path));
      }
      err := None;
    }

    /** `parse`: the loop over the nodes at or below the first node's depth. */
    method Parse(ctx: Context) returns (out: Outcome)
      requires -1 <= cursor < |nodes|
      modifies this
      ensures Run(out, St()) == ParseOf(E(), old(St()), ctx)
      decreases |nodes| - cursor, 0
    {
      ghost var s0 := St();
      var res := Read();
      if res == 1 && nodes[cursor].kind != ElementNode {
        return Ok(res);
      }
      var startDepth := if res == 1 then nodes[cursor].depth else 0;
      ghost var goal := LoopOf(E(), St(), ctx, startDepth, res);
      while res == 1
        invariant Positioned(E(), St()) && (res == 1 <==> OnNode(E(), St())) && Result(E(), res)
        invariant s0.cursor < cursor
        invariant LoopOf(E(), St(), ctx, startDepth, res) == goal
        decreases |nodes| - cursor
      {
        if nodes[cursor].depth >= startDepth {
          out := Process(ctx);
          if out.Fail? {
            return;
          }
          res := out.res;
        } else {
          return Ok(res);
        }
      }
      if res < 0 {
        return Fail(ReadFailed);
      }
      return Ok(res);
    }

    /** The node function of `ctx`. */
    method Process(ctx: Context) returns (out: Outcome)
      requires OnNode(E(), St())
      modifies this
      ensures Run(out, St()) == ProcessOf(E(), old(St()), ctx)
      decreases |nodes| - cursor, 5
    {
      match ctx
      case Root => out := ProcessRootNode();
      case DocumentChild => out := ProcessDocumentChildNode();
      case PageChild => out := ProcessPageChildNode();
      case LayerChild => out := ProcessLayerChildNode();
      case Attachment => out := ProcessAttachment();
    }

    /** A closing tag: the finalizing call, if any, then `closeTag` and a read. */
    method CloseElement(finalizer: Option<Call>, t: TagType) returns (out: Outcome)
      requires Positioned(E(), St())
      modifies this
      ensures Run(out, St()) == ThenRead(E(), CloseTagOf(Finalized(old(St()), finalizer), t))
    {
      Finalize(finalizer);
      var err := CloseTag(t);
      out := ReadUnless(err);
    }

    method ProcessRootNode() returns (out: Outcome)
      requires OnNode(E(), St())
      modifies this
      ensures Run(out, St()) == RootNodeOf(E(), old(St()))
      decreases |nodes| - cursor, 4
    {
      var n := nodes[cursor];
      if n.isEmpty {
        out := Fail(EmptyRoot);
      } else if n.kind == ElementNode {
        var t := OpenTag(n);
        if t == XOURNAL {
          out := ProcessXournal();
        } else if t == MRWRITER {
          out := ProcessMrWriter();
        } else {
          out := Parse(DocumentChild);
        }
      } else if n.kind == EndElementNode {
        out := CloseElement(Some(FinalizeDocument), TagNameToType(n.name));
      } else {
        out := ReadOn();
      }
    }

    method ProcessXournal() returns (out: Outcome)
      requires OnNode(E(), St())
      modifies this
      ensures Run(out, St()) == XournalRun(E(), old(St()))
      decreases |nodes| - cursor, 2
    {
      ParseXournalTag(nodes[cursor]);
      out := Parse(DocumentChild);
    }

    method ProcessMrWriter() returns (out: Outcome)
      requires OnNode(E(), St())
      modifies this
      ensures Run(out, St()) == MrWriterRun(E(), old(St()))
      decreases |nodes| - cursor, 2
    {
      ParseMrWriterTag(nodes[cursor]);
      out := Parse(DocumentChild);
    }

    method ProcessDocumentChildNode() returns (out: Outcome)
      requires OnNode(E(), St())
      modifies this
      ensures Run(out, St()) == DocumentChildOf(E(), old(St()))
      decreases |nodes| - cursor, 4
    {
      var n := nodes[cursor];
      match n.kind
      case ElementNode =>
        var t := OpenTag(n);
        if t == PAGE {
          out := ProcessPage();
        } else if t == AUDIO {
          out := ProcessAudio();
        } else {
          out := ReadOn();
        }
      case TextNode =>
        if hierarchy == [] {
          out := Fail(TopOfEmptyHierarchy);
        } else {
          out := ReadOn();
        }
      case EndElementNode =>
        if hierarchy == [] {
          out := Fail(TopOfEmptyHierarchy);
        } else {
          out := CloseElement(if hierarchy[|hierarchy| - 1] == PAGE then Some(FinalizePage) else None, TagNameToType(n.name));
        }
      case OtherNode(_) =>
        out := ReadOn();
    }

    method ProcessPage() returns (out: Outcome)
      requires OnNode(E(), St())
      modifies this
      ensures Run(out, St()) == PageRun(E(), old(St()))
      decreases |nodes| - cursor, 2
    {
      var n := nodes[cursor];
      ParsePageTag(n);
      if n.isEmpty {
        LogCall(FinalizePage);
        out := ReadOn();
      } else {
        out := Parse(PageChild);
      }
    }

    method ProcessAudio() returns (out: Outcome)
      requires OnNode(E(), St())
      modifies this
      ensures Run(out, St()) == AudioRun(E(), old(St()))
    {
      ParseAudioTag(nodes[cursor]);
      out := ReadOn();
    }

    method ProcessPageChildNode() returns (out: Outcome)
      requires OnNode(E(), St())
      modifies this
      ensures Run(out, St()) == PageChildOf(E(), old(St()))
      decreases |nodes| - cursor, 4
    {
      var n := nodes[cursor];
      match n.kind
      case ElementNode =>
        var t := OpenTag(n);
        if t == BACKGROUND {
          out := ProcessBackground();
        } else if t == LAYER {
          out := ProcessLayer();
        } else {
          out := ReadOn();
        }
      case EndElementNode =>
        if hierarchy == [] {
          out := Fail(TopOfEmptyHierarchy);
        } else {
          out := CloseElement(if hierarchy[|hierarchy| - 1] == LAYER then Some(FinalizeLayer) else None, TagNameToType(n.name));
        }
      case _ =>
        out := ReadOn();
    }

    method ProcessBackground() returns (out: Outcome)
      requires OnNode(E(), St())
      modifies this
      ensures Run(out, St()) == BackgroundRun(E(), old(St()))
    {
      ParseBackgroundTag(nodes[cursor]);
      out := ReadOn();
    }

    method ProcessLayer() returns (out: Outcome)
      requires OnNode(E(), St())
      modifies this
      ensures Run(out, St()) == LayerRun(E(), old(St()))
      decreases |nodes| - cursor, 2
    {
      var n := nodes[cursor];
      ParseLayerTag(n);
      if n.isEmpty {
        LogCall(FinalizeLayer);
        out := ReadOn();
      } else {
        out := Parse(LayerChild);
      }
    }

    method ProcessLayerChildNode() returns (out: Outcome)
      requires OnNode(E(), St())
      modifies this
      ensures Run(out, St()) == LayerChildOf(E(), old(St()))
      decreases |nodes| - cursor, 4
    {
      var n := nodes[cursor];
      match n.kind
      case ElementNode =>
        var t := OpenTag(n);
        if t == TIMESTAMP {
          out := ProcessTimestamp();
        } else if t == STROKE {
          out := ProcessStroke();
        } else if t == TEXT {
          out := ProcessText();
        } else if t == IMAGE {
          out := ProcessImage();
        } else if t == TEXIMAGE {
          out := ProcessTexImage();
        } else {
          out := ReadOn();
        }
      case TextNode =>
        if hierarchy == [] {
          out := Fail(TopOfEmptyHierarchy);
        } else {
          out := ProcessLayerText();
        }
      case EndElementNode =>
        if hierarchy == [] {
          out := Fail(TopOfEmptyHierarchy);
        } else {
          out := CloseElement(LayerFinalizer(hierarchy[|hierarchy| - 1]), TagNameToType(n.name));
        }
      case OtherNode(_) =>
        out := ReadOn();
    }

    /**
     * A text node in a layer goes to the innermost open element:
     * `parseStrokeText`, `parseTextText`, `parseImageText`,
     * `parseTexImageText`.
     */
    method ProcessLayerText() returns (out: Outcome)
      requires OnNode(E(), St()) && hierarchy != []
      modifies this
      ensures Run(out, St()) == LayerTextRun(E(), old(St()))
    {
      var n := nodes[cursor];
      var t := hierarchy[|hierarchy| - 1];
      if t == STROKE {
        ParseStrokeText(n);
      } else if t == TEXT {
        LogCall(SetTextContents(n.value));
      } else if t == IMAGE {
        LogCall(SetImageData(ex.base64(n.value)));
      } else if t == TEXIMAGE {
        LogCall(SetTexImageData(ex.base64(n.value)));
      }
      out := ReadOn();
    }

    method ProcessTimestamp() returns (out: Outcome)
      requires OnNode(E(), St())
      modifies this
      ensures Run(out, St()) == TimestampRun(E(), old(St()))
    {
      ParseTimestampTag(nodes[cursor]);
      out := ReadOn();
    }

    method ProcessStroke() returns (out: Outcome)
      requires OnNode(E(), St())
      modifies this
      ensures Run(out, St()) == StrokeRun(E(), old(St()))
    {
      var n := nodes[cursor];
      ParseStrokeTag(n);
      Finalize(if n.isEmpty then Some(FinalizeStroke) else None);
      out := ReadOn();
    }

    method ProcessText() returns (out: Outcome)
      requires OnNode(E(), St())
      modifies this
      ensures Run(out, St()) == TextRun(E(), old(St()))
    {
      var n := nodes[cursor];
      ParseTextTag(n);
      Finalize(if n.isEmpty then Some(FinalizeText) else None);
      out := ReadOn();
    }

    method ProcessImage() returns (out: Outcome)
      requires OnNode(E(), St())
      modifies this
      ensures Run(out, St()) == ImageRun(E(), old(St()))
      decreases |nodes| - cursor, 2
    {
      var n := nodes[cursor];
      ParseImageTag(n);
      if n.isEmpty {
        LogCall(FinalizeImage);
        out := ReadOn();
      } else {
        out := Parse(Attachment);
      }
    }

    /** The TeX image branch: no `break` after an empty TeX image, so the attachment loop runs either way. */
    method ProcessTexImage() returns (out: Outcome)
      requires OnNode(E(), St())
      modifies this
      ensures Run(out, St()) == TexImageRun(E(), old(St()))
      decreases |nodes| - cursor, 2
    {
      var n := nodes[cursor];
      ParseTexImageTag(n);
      if n.isEmpty {
        LogCall(FinalizeTexImage);
      }
      out := Parse(Attachment);
    }

    method ProcessAttachment() returns (out: Outcome)
      requires OnNode(E(), St())
      modifies this
      ensures Run(out, St()) == AttachmentChildOf(E(), old(St()))
      decreases |nodes| - cursor, 4
    {
      var n := nodes[cursor];
      match n.kind
      case ElementNode =>
        var t := OpenTag(n);
        if t == ATTACHMENT {
          out := ProcessAttachmentTag();
        } else {
          out := ReadOn();
        }
      case EndElementNode =>
        out := CloseElement(None, TagNameToType(n.name));
      case _ =>
        out := ReadOn();
    }

    method ProcessAttachmentTag() returns (out: Outcome)
      requires OnNode(E(), St())
      modifies this
      ensures Run(out, St()) == AttachmentRun(E(), old(St()))
    {
      var err := ParseAttachment(nodes[cursor]);
      out := ReadUnless(err);
    }
  }
}
