/**
 * Properties of the `.xopp` event parser: how `parse` starts and stops, what
 * closing tags finalize, what empty elements do, the creator and version
 * rules of the document tag, the pending audio pair, the pressures of a
 * stroke, and the PDF background.
 */
module XmlParserProps {

  import opened Chars
  import opened Document
  import opened XmlParserHelper
  import opened Numbers
  import opened XmlParser

  // ---------------------------------------------------------------------
  // Attributes

  /** No attribute of the list is called `name`. */
  predicate Missing(attrs: seq<(string, string)>, name: string)
  {
    forall i :: 0 <= i < |attrs| ==> attrs[i].0 != name
  }

  /** A string attribute reads as the value of its last occurrence, and as nothing when it does not occur. */
  lemma StrOfAttributes(attrs: seq<(string, string)>, name: string)
    ensures forall i :: LastOccurrence(attrs, name, i) ==> Str(name, AttributeMapOf(attrs)) == Some(attrs[i].1)
    ensures Missing(attrs, name) ==> Str(name, AttributeMapOf(attrs)) == None
  {
    AttributeMapLastWins(attrs, name);
    StringIsVerbatim(name, AttributeMapOf(attrs));
  }

  /** A mandatory attribute that does not occur takes its default. */
  lemma MissingIsDefault<T>(attrs: seq<(string, string)>, name: string, extract: Extractor<T>, default: T, warn: bool)
    requires Missing(attrs, name)
    ensures Mandatory(name, AttributeMapOf(attrs), extract, default, warn) == default
  {
    AttributeMapLastWins(attrs, name);
  }

  // ---------------------------------------------------------------------
  // parse

  /** `parse` returns the read result at once when the first node is not an element. */
  lemma ParseFirstNotElement(e: Env, s: PState, ctx: Context)
    requires -1 <= s.cursor && s.cursor + 1 < |e.nodes| && e.nodes[s.cursor + 1].kind != ElementNode
    ensures ParseOf(e, s, ctx) == Run(Ok(1), s.(cursor := s.cursor + 1))
  {
  }

  /** `parse` started on an element loops over the nodes at its depth or deeper. */
  lemma ParseFromElement(e: Env, s: PState, ctx: Context)
    requires -1 <= s.cursor && s.cursor + 1 < |e.nodes| && e.nodes[s.cursor + 1].kind == ElementNode
    ensures ParseOf(e, s, ctx) == LoopOf(e, s.(cursor := s.cursor + 1), ctx, e.nodes[s.cursor + 1].depth, 1)
  {
  }

  /**
   * The loop of `parse` returns 1, leaving the reader where it is, at the
   * first node shallower than its start; at the end of the nodes it returns
   * 0, or throws when the end is a read error.
   */
  lemma LoopStops(e: Env, s: PState, ctx: Context, startDepth: nat)
    requires Positioned(e, s)
    ensures OnNode(e, s) && e.nodes[s.cursor].depth < startDepth ==> LoopOf(e, s, ctx, startDepth, 1) == Run(Ok(1), s)
    ensures !OnNode(e, s) && e.readFails ==> LoopOf(e, s, ctx, startDepth, -1) == Run(Fail(ReadFailed), s)
    ensures !OnNode(e, s) && !e.readFails ==> LoopOf(e, s, ctx, startDepth, 0) == Run(Ok(0), s)
  {
  }

  /** A node at the start depth or deeper goes to the node function of the context and the loop goes on after it. */
  lemma LoopDispatches(e: Env, s: PState, ctx: Context, startDepth: nat)
    requires OnNode(e, s) && e.nodes[s.cursor].depth >= startDepth
    ensures var r1 := ProcessOf(e, s, ctx);
            LoopOf(e, s, ctx, startDepth, 1) == if r1.out.Fail? then r1 else LoopOf(e, r1.state, ctx, startDepth, r1.out.res)
  {
  }

  /**
   * A whole document: parsing from a new parser either throws, or ends with
   * 0 at the end of the nodes, or with 1 on a node that was left unread.
   * A read error is reported only when the nodes end in one.
   */
  lemma DocumentParse(e: Env)
    ensures var r := ParseOf(e, Initial(), Root);
            && (r.out.Ok? ==> r.out.res in {0, 1} && (r.out.res == 0 <==> r.state.cursor == |e.nodes|))
            && (r.out == Fail(ReadFailed) ==> e.readFails)
  {
  }

  // ---------------------------------------------------------------------
  // Closing tags

  /**
   * A closing tag first logs `finalizer`, then closes: it pops its own tag
   * and reads on when that tag is the innermost open one, and otherwise
   * throws (at the root, or on a mismatch) with the finalizer already logged.
   */
  predicate ClosesWith(e: Env, s: PState, r: Run, finalizer: seq<Call>)
    requires OnNode(e, s)
  {
    var t := TagNameToType(e.nodes[s.cursor].name);
    && r.state.calls == s.calls + finalizer
    && (Top(s) == Some(t) ==> r.out.Ok? && r.state.hierarchy + [t] == s.hierarchy && r.state.cursor == s.cursor + 1)
    && (Top(s) != Some(t) ==> r.out == Fail(if s.hierarchy == [] then ClosingAtRoot(t) else ClosingMismatch(t, Top(s).value)))
  }

  /** The closing tag of a step that may throw, read on from. */
  lemma ThenReadClose(e: Env, s: PState, finalizer: Option<Call>, fin: seq<Call>)
    requires OnNode(e, s)
    requires fin == if finalizer.Some? then [finalizer.value] else []
    ensures ClosesWith(e, s, ThenRead(e, CloseTagOf(Finalized(s, finalizer), TagNameToType(e.nodes[s.cursor].name))), fin)
  {
  }

  /** The root's closing tag finalizes the document before it is closed. */
  lemma RootClose(e: Env, s: PState)
    requires OnNode(e, s) && e.nodes[s.cursor].kind == EndElementNode && !e.nodes[s.cursor].isEmpty
    ensures ClosesWith(e, s, RootNodeOf(e, s), [FinalizeDocument])
  {
    ThenReadClose(e, s, Some(FinalizeDocument), [FinalizeDocument]);
  }

  /** The root throws on an empty element, whatever its kind. */
  lemma EmptyRootThrows(e: Env, s: PState)
    requires OnNode(e, s) && e.nodes[s.cursor].isEmpty
    ensures RootNodeOf(e, s) == Run(Fail(EmptyRoot), s)
  {
  }

  /** In a document, the closing tag of a page finalizes it; other closing tags finalize nothing. */
  lemma DocumentClose(e: Env, s: PState)
    requires OnNode(e, s) && e.nodes[s.cursor].kind == EndElementNode && s.hierarchy != []
    ensures Top(s) == Some(PAGE) ==> ClosesWith(e, s, DocumentChildOf(e, s), [FinalizePage])
    ensures Top(s) != Some(PAGE) ==> ClosesWith(e, s, DocumentChildOf(e, s), [])
  {
    if Top(s) == Some(PAGE) {
      ThenReadClose(e, s, Some(FinalizePage), [FinalizePage]);
    } else {
      ThenReadClose(e, s, None, []);
    }
  }

  /** In a page, the closing tag of a layer finalizes it; other closing tags finalize nothing. */
  lemma PageClose(e: Env, s: PState)
    requires OnNode(e, s) && e.nodes[s.cursor].kind == EndElementNode && s.hierarchy != []
    ensures Top(s) == Some(LAYER) ==> ClosesWith(e, s, PageChildOf(e, s), [FinalizeLayer])
    ensures Top(s) != Some(LAYER) ==> ClosesWith(e, s, PageChildOf(e, s), [])
  {
    if Top(s) == Some(LAYER) {
      ThenReadClose(e, s, Some(FinalizeLayer), [FinalizeLayer]);
    } else {
      ThenReadClose(e, s, None, []);
    }
  }

  /**
   * In a layer, a closing tag finalizes the stroke, text, image or TeX image
   * that is innermost open, and nothing else.
   */
  lemma LayerClose(e: Env, s: PState)
    requires OnNode(e, s) && e.nodes[s.cursor].kind == EndElementNode && s.hierarchy != []
    ensures Top(s) == Some(STROKE) ==> ClosesWith(e, s, LayerChildOf(e, s), [FinalizeStroke])
    ensures Top(s) == Some(TEXT) ==> ClosesWith(e, s, LayerChildOf(e, s), [FinalizeText])
    ensures Top(s) == Some(IMAGE) ==> ClosesWith(e, s, LayerChildOf(e, s), [FinalizeImage])
    ensures Top(s) == Some(TEXIMAGE) ==> ClosesWith(e, s, LayerChildOf(e, s), [FinalizeTexImage])
    ensures Top(s).value !in {STROKE, TEXT, IMAGE, TEXIMAGE} ==> ClosesWith(e, s, LayerChildOf(e, s), [])
  {
    var f := LayerFinalizer(Top(s).value);
    ThenReadClose(e, s, f, if f.Some? then [f.value] else []);
  }

  /** In an image or TeX image, a closing tag finalizes nothing. */
  lemma AttachmentClose(e: Env, s: PState)
    requires OnNode(e, s) && e.nodes[s.cursor].kind == EndElementNode
    ensures ClosesWith(e, s, AttachmentChildOf(e, s), [])
  {
    ThenReadClose(e, s, None, []);
  }

  // ---------------------------------------------------------------------
  // Empty elements

  /** A tag function that logs one call and leaves the reader and the hierarchy alone. */
  predicate AddsOne(s: PState, r: PState)
  {
    r.cursor == s.cursor && r.hierarchy == s.hierarchy && |r.calls| == |s.calls| + 1 && r.calls[..|s.calls|] == s.calls
  }

  /** A stroke tag adds one stroke. */
  lemma StrokeTagAdds(e: Env, n: ReaderNode, s: PState)
    ensures AddsOne(s, StrokeTagOf(e, n, s)) && StrokeTagOf(e, n, s).calls[|s.calls|].AddStroke?
  {
  }

  /** A text tag adds one text. */
  lemma TextTagAdds(e: Env, n: ReaderNode, s: PState)
    ensures AddsOne(s, TextTagOf(e, n, s)) && TextTagOf(e, n, s).calls[|s.calls|].AddText?
  {
  }

  /**
   * An empty element was handled in full: the reader moved on, nothing was
   * left open, and its two calls (the one that adds it and `finalizer`)
   * were logged.
   */
  predicate FinalizedAtOnce(e: Env, s: PState, r: Run, finalizer: Call)
  {
    && r.out.Ok? && r.state.cursor == s.cursor + 1 && r.state.hierarchy == s.hierarchy
    && |r.state.calls| == |s.calls| + 2 && r.state.calls[..|s.calls|] == s.calls
    && r.state.calls[|s.calls| + 1] == finalizer
  }

  /** An element that is read on from once the call that adds it and its finalizer are logged. */
  lemma ReadOnFinalized(e: Env, s: PState, s1: PState, finalizer: Call)
    requires OnNode(e, s) && AddsOne(s, s1)
    ensures FinalizedAtOnce(e, s, ReadOf(e, Log(s1, finalizer)), finalizer)
  {
    assert (s1.calls + [finalizer])[..|s.calls|] == s1.calls[..|s.calls|];
  }

  /** The node functions hand an element to the run of its tag, from the state after `openTag`. */
  lemma DocumentDispatch(e: Env, s: PState)
    requires OnNode(e, s) && e.nodes[s.cursor].kind == ElementNode && TagNameToType(e.nodes[s.cursor].name) == PAGE
    ensures DocumentChildOf(e, s) == PageRun(e, OpenTagOf(e.nodes[s.cursor], s).1)
  {
  }

  lemma PageDispatch(e: Env, s: PState)
    requires OnNode(e, s) && e.nodes[s.cursor].kind == ElementNode && TagNameToType(e.nodes[s.cursor].name) == LAYER
    ensures PageChildOf(e, s) == LayerRun(e, OpenTagOf(e.nodes[s.cursor], s).1)
  {
  }

  lemma LayerChildElement(e: Env, s: PState)
    requires OnNode(e, s) && e.nodes[s.cursor].kind == ElementNode
    ensures LayerChildOf(e, s) == LayerElementOf(e, s)
  {
  }

  lemma LayerDispatch(e: Env, s: PState)
    requires OnNode(e, s)
    ensures var n := e.nodes[s.cursor];
            var t := TagNameToType(n.name);
            var s1 := OpenTagOf(n, s).1;
            && (t == STROKE ==> LayerElementOf(e, s) == StrokeRun(e, s1))
            && (t == TEXT ==> LayerElementOf(e, s) == TextRun(e, s1))
            && (t == IMAGE ==> LayerElementOf(e, s) == ImageRun(e, s1))
            && (t == TEXIMAGE ==> LayerElementOf(e, s) == TexImageRun(e, s1))
  {
  }

  /** The runs of empty elements read on after the finalizer. */
  lemma EmptyRuns(e: Env, s: PState)
    requires OnNode(e, s) && e.nodes[s.cursor].isEmpty
    ensures var n := e.nodes[s.cursor];
            && PageRun(e, s) == ReadOf(e, Log(PageTagOf(e, n, s), FinalizePage))
            && LayerRun(e, s) == ReadOf(e, Log(LayerTagOf(n, s), FinalizeLayer))
            && ImageRun(e, s) == ReadOf(e, Log(ImageTagOf(e, n, s), FinalizeImage))
            && TexImageRunCorrected(e, s) == ReadOf(e, Log(TexImageTagOf(e, n, s), FinalizeTexImage))
  {
  }

  lemma EmptyStrokeOrText(e: Env, s: PState)
    requires OnNode(e, s) && e.nodes[s.cursor].isEmpty
    ensures StrokeRun(e, s) == ReadOf(e, Log(StrokeTagOf(e, e.nodes[s.cursor], s), FinalizeStroke))
    ensures TextRun(e, s) == ReadOf(e, Log(TextTagOf(e, e.nodes[s.cursor], s), FinalizeText))
  {
  }

  /** An empty page is added and finalized at once. */
  lemma EmptyPage(e: Env, s: PState)
    requires OnNode(e, s) && e.nodes[s.cursor].kind == ElementNode && e.nodes[s.cursor].isEmpty
    requires TagNameToType(e.nodes[s.cursor].name) == PAGE
    ensures FinalizedAtOnce(e, s, DocumentChildOf(e, s), FinalizePage)
  {
    DocumentDispatch(e, s);
    EmptyRuns(e, s);
    ReadOnFinalized(e, s, PageTagOf(e, e.nodes[s.cursor], s), FinalizePage);
  }

  /** An empty layer is added and finalized at once. */
  lemma EmptyLayer(e: Env, s: PState)
    requires OnNode(e, s) && e.nodes[s.cursor].kind == ElementNode && e.nodes[s.cursor].isEmpty
    requires TagNameToType(e.nodes[s.cursor].name) == LAYER
    ensures FinalizedAtOnce(e, s, PageChildOf(e, s), FinalizeLayer)
  {
    PageDispatch(e, s);
    EmptyRuns(e, s);
    ReadOnFinalized(e, s, LayerTagOf(e.nodes[s.cursor], s), FinalizeLayer);
  }

  /**
   * Empty strokes, texts and images are added and finalized at once (an
   * empty TeX image is not: see `TexImageSwallowsNext`).
   */
  lemma EmptyLayerElement(e: Env, s: PState)
    requires OnNode(e, s) && e.nodes[s.cursor].kind == ElementNode && e.nodes[s.cursor].isEmpty
    ensures TagNameToType(e.nodes[s.cursor].name) == STROKE ==> FinalizedAtOnce(e, s, LayerChildOf(e, s), FinalizeStroke)
    ensures TagNameToType(e.nodes[s.cursor].name) == TEXT ==> FinalizedAtOnce(e, s, LayerChildOf(e, s), FinalizeText)
    ensures TagNameToType(e.nodes[s.cursor].name) == IMAGE ==> FinalizedAtOnce(e, s, LayerChildOf(e, s), FinalizeImage)
  {
    var n := e.nodes[s.cursor];
    var t := TagNameToType(n.name);
    LayerChildElement(e, s);
    LayerDispatch(e, s);
    if t == STROKE {
      EmptyStrokeOrText(e, s);
      StrokeTagAdds(e, n, s);
      ReadOnFinalized(e, s, StrokeTagOf(e, n, s), FinalizeStroke);
    } else if t == TEXT {
      EmptyStrokeOrText(e, s);
      TextTagAdds(e, n, s);
      ReadOnFinalized(e, s, TextTagOf(e, n, s), FinalizeText);
    } else if t == IMAGE {
      EmptyRuns(e, s);
      ReadOnFinalized(e, s, ImageTagOf(e, n, s), FinalizeImage);
    }
  }

  /** The run of a non-empty stroke or text reads on with its tag's call logged. */
  lemma OpenStrokeOrText(e: Env, s: PState)
    requires OnNode(e, s) && !e.nodes[s.cursor].isEmpty
    ensures StrokeRun(e, s) == ReadOf(e, StrokeTagOf(e, e.nodes[s.cursor], s))
    ensures TextRun(e, s) == ReadOf(e, TextTagOf(e, e.nodes[s.cursor], s))
  {
  }

  /** A non-empty stroke or text is added and left open for its text and its closing tag. */
  lemma OpenLayerElement(e: Env, s: PState)
    requires OnNode(e, s) && e.nodes[s.cursor].kind == ElementNode && !e.nodes[s.cursor].isEmpty
    requires TagNameToType(e.nodes[s.cursor].name) in {STROKE, TEXT}
    ensures var r := LayerChildOf(e, s);
            && r.out.Ok? && r.state.cursor == s.cursor + 1
            && r.state.hierarchy == s.hierarchy + [TagNameToType(e.nodes[s.cursor].name)]
            && |r.state.calls| == |s.calls| + 1 && r.state.calls[..|s.calls|] == s.calls
            && (r.state.calls[|s.calls|].AddStroke? || r.state.calls[|s.calls|].AddText?)
  {
    var n := e.nodes[s.cursor];
    var s1 := OpenTagOf(n, s).1;
    LayerChildElement(e, s);
    LayerDispatch(e, s);
    OpenStrokeOrText(e, s1);
    if TagNameToType(n.name) == STROKE {
      StrokeTagAdds(e, n, s1);
    } else {
      TextTagAdds(e, n, s1);
    }
  }

  // ---------------------------------------------------------------------
  // Finding: an empty TeX image swallows its siblings

  /** The attachment node function skips an element that is not an attachment. */
  lemma AttachmentSkips(e: Env, s: PState)
    requires OnNode(e, s) && e.nodes[s.cursor].kind == ElementNode && e.nodes[s.cursor].isEmpty
    requires TagNameToType(e.nodes[s.cursor].name) != ATTACHMENT
    ensures AttachmentChildOf(e, s) == ReadOf(e, s)
  {
  }

  /** The loop of `parse(processAttachment)` on a last node that is an empty non-attachment element skips it and ends. */
  lemma AttachmentLoopEnds(e: Env, s: PState, startDepth: nat)
    requires s.cursor == |e.nodes| - 1 && OnNode(e, s) && !e.readFails
    requires e.nodes[s.cursor].kind == ElementNode && e.nodes[s.cursor].isEmpty && e.nodes[s.cursor].depth >= startDepth
    requires TagNameToType(e.nodes[s.cursor].name) != ATTACHMENT
    ensures LoopOf(e, s, Attachment, startDepth, 1) == Run(Ok(0), s.(cursor := |e.nodes|))
  {
    AttachmentSkips(e, s);
  }

  /**
   * As written, an empty TeX image followed by one last element that is not
   * an attachment: that element goes to the attachment node function and
   * `parse` ends at the end of the nodes with only the TeX image's calls.
   */
  lemma TexImageSwallowsNext(e: Env, s: PState)
    requires 0 <= s.cursor && s.cursor + 2 == |e.nodes| && !e.readFails && e.nodes[s.cursor].isEmpty
    requires e.nodes[s.cursor + 1].kind == ElementNode && e.nodes[s.cursor + 1].isEmpty
    requires TagNameToType(e.nodes[s.cursor + 1].name) != ATTACHMENT
    ensures var r := TexImageRun(e, s);
            r.out == Ok(0) && r.state.calls == TexImageTagOf(e, e.nodes[s.cursor], s).calls + [FinalizeTexImage]
  {
    var s1 := Log(TexImageTagOf(e, e.nodes[s.cursor], s), FinalizeTexImage);
    ParseFromElement(e, s1, Attachment);
    AttachmentLoopEnds(e, s1.(cursor := s.cursor + 1), e.nodes[s.cursor + 1].depth);
  }

  /**
   * As corrected, the TeX image's node function stops on the next element,
   * and when that is an empty stroke the layer's node function then adds and
   * finalizes it.
   */
  lemma TexImageLeavesNext(e: Env, s: PState)
    requires 0 <= s.cursor && s.cursor + 2 == |e.nodes| && !e.readFails && e.nodes[s.cursor].isEmpty
    requires e.nodes[s.cursor + 1].kind == ElementNode && e.nodes[s.cursor + 1].isEmpty
    requires TagNameToType(e.nodes[s.cursor + 1].name) == STROKE
    ensures var r := TexImageRunCorrected(e, s);
            && r.out == Ok(1) && r.state.cursor == s.cursor + 1
            && r.state.calls == TexImageTagOf(e, e.nodes[s.cursor], s).calls + [FinalizeTexImage]
            && FinalizedAtOnce(e, r.state, LayerChildOf(e, r.state), FinalizeStroke)
  {
    EmptyRuns(e, s);
    var r := TexImageRunCorrected(e, s);
    EmptyLayerElement(e, r.state);
  }

  // ---------------------------------------------------------------------
  // The document tags

  /**
   * The creator of a Xournal document is its `creator` attribute, else
   * "Xournal " followed by its `version` attribute, else "Unknown"; the file
   * version defaults to 1.
   */
  lemma XournalTagRule(e: Env, n: ReaderNode, s: PState)
    ensures var attrs := n.attributes;
            var r := XournalTagOf(e, n, s);
            && |r.calls| == |s.calls| + 1 && r.calls[..|s.calls|] == s.calls && r.calls[|s.calls|].AddXournal?
            && (forall i :: LastOccurrence(attrs, "creator", i) ==> r.calls[|s.calls|].creator == attrs[i].1)
            && (Missing(attrs, "creator") ==> forall j :: LastOccurrence(attrs, "version", j) ==> r.calls[|s.calls|].creator == "Xournal " + attrs[j].1)
            && (Missing(attrs, "creator") && Missing(attrs, "version") ==> r.calls[|s.calls|].creator == "Unknown")
            && (Missing(attrs, "fileversion") ==> r.calls[|s.calls|].fileVersion == 1)
  {
    StrOfAttributes(n.attributes, "creator");
    StrOfAttributes(n.attributes, "version");
    AttributeMapLastWins(n.attributes, "fileversion");
  }

  /** The creator of a MrWriter document is "MrWriter " followed by its `version` attribute, else "Unknown". */
  lemma MrWriterTagRule(n: ReaderNode, s: PState)
    ensures var attrs := n.attributes;
            var r := MrWriterTagOf(n, s);
            && |r.calls| == |s.calls| + 1 && r.calls[..|s.calls|] == s.calls && r.calls[|s.calls|].AddMrWriter?
            && (forall j :: LastOccurrence(attrs, "version", j) ==> r.calls[|s.calls|].creator == "MrWriter " + attrs[j].1)
            && (Missing(attrs, "version") ==> r.calls[|s.calls|].creator == "Unknown")
  {
    StrOfAttributes(n.attributes, "version");
  }

  /** A page without `width` or `height` attributes has that size 0. */
  lemma PageSizeDefault(e: Env, n: ReaderNode, s: PState)
    ensures var r := PageTagOf(e, n, s);
            && |r.calls| == |s.calls| + 1 && r.calls[|s.calls|].AddPage?
            && (Missing(n.attributes, "width") ==> r.calls[|s.calls|].width == 0.0)
            && (Missing(n.attributes, "height") ==> r.calls[|s.calls|].height == 0.0)
  {
    AttributeMapLastWins(n.attributes, "width");
    AttributeMapLastWins(n.attributes, "height");
  }

  // ---------------------------------------------------------------------
  // The pending audio pair

  /**
   * The audio pair a stroke or text tag hands to the builder: its own
   * non-empty `fn` attribute with its `ts`, else the pending pair.
   */
  ghost predicate TakesAudio(attrs: seq<(string, string)>, s: PState, filename: string)
  {
    && (Missing(attrs, "fn") ==> filename == s.tempFilename)
    && (forall i :: LastOccurrence(attrs, "fn", i) ==> filename == if attrs[i].1 != "" then attrs[i].1 else s.tempFilename)
  }

  /** The timestamp that goes with the filename of `TakesAudio`. */
  ghost predicate TakesTime(e: Env, attrs: seq<(string, string)>, s: PState, timestamp: SizeT)
  {
    && (Missing(attrs, "fn") ==> timestamp == s.tempTimestamp)
    && (forall i :: LastOccurrence(attrs, "fn", i) ==>
          timestamp == if attrs[i].1 != "" then Mandatory<SizeT>("ts", AttributeMapOf(attrs), e.ex.size, 0, true) else s.tempTimestamp)
  }

  /** The audio pair of a tag, read from its attributes. */
  lemma AudioOfAttributes(e: Env, attrs: seq<(string, string)>, s: PState)
    ensures TakesAudio(attrs, s, AudioOf(e, AttributeMapOf(attrs), s).tempFilename)
    ensures TakesTime(e, attrs, s, AudioOf(e, AttributeMapOf(attrs), s).tempTimestamp)
  {
    StrOfAttributes(attrs, "fn");
  }

  /** A stroke tag adds a stroke with the audio pair it takes; the file stays pending and the time is cleared. */
  lemma StrokeAudio(e: Env, n: ReaderNode, s: PState)
    ensures var r := StrokeTagOf(e, n, s);
            && |r.calls| == |s.calls| + 1 && r.calls[..|s.calls|] == s.calls && r.calls[|s.calls|].AddStroke?
            && TakesAudio(n.attributes, s, r.calls[|s.calls|].filename)
            && TakesTime(e, n.attributes, s, r.calls[|s.calls|].timestamp)
            && r.tempFilename == r.calls[|s.calls|].filename && r.tempTimestamp == 0
  {
    AudioOfAttributes(e, n.attributes, s.(pressureBuffer := s.pressureBuffer + Tokens(e.ex.strtod, PressureText(e, AttributeMapOf(n.attributes)))));
  }

  /** A text tag adds a text with the audio pair it takes; the file stays pending and the time is cleared. */
  lemma TextAudio(e: Env, n: ReaderNode, s: PState)
    ensures var r := TextTagOf(e, n, s);
            && |r.calls| == |s.calls| + 1 && r.calls[..|s.calls|] == s.calls && r.calls[|s.calls|].AddText?
            && TakesAudio(n.attributes, s, r.calls[|s.calls|].filename)
            && TakesTime(e, n.attributes, s, r.calls[|s.calls|].timestamp)
            && r.tempFilename == r.calls[|s.calls|].filename && r.tempTimestamp == 0
  {
    AudioOfAttributes(e, n.attributes, s);
  }

  /**
   * A timestamp tag makes its `fn` and `ts` attributes the pending pair,
   * whatever was pending; a stroke without `fn` that follows hands them on.
   */
  lemma TimestampThenStroke(e: Env, t: ReaderNode, n: ReaderNode, s: PState)
    requires Missing(n.attributes, "fn")
    ensures var s1 := TimestampTagOf(e, t, s);
            var r := StrokeTagOf(e, n, s1);
            && (forall i :: LastOccurrence(t.attributes, "fn", i) ==> r.calls[|s.calls|].filename == t.attributes[i].1)
            && (Missing(t.attributes, "fn") ==> r.calls[|s.calls|].filename == "")
            && (Missing(t.attributes, "ts") ==> r.calls[|s.calls|].timestamp == 0)
  {
    var s1 := TimestampTagOf(e, t, s);
    StrokeAudio(e, n, s1);
    AttributeMapLastWins(t.attributes, "fn");
    AttributeMapLastWins(t.attributes, "ts");
  }

  /** As written, a stroke without `fn` hands on the pending file and leaves it pending, with time 0. */
  lemma AsWrittenKeepsFile(e: Env, n: ReaderNode, s: PState)
    requires Missing(n.attributes, "fn")
    ensures var r := StrokeTagOf(e, n, s);
            && |r.calls| == |s.calls| + 1 && r.calls[|s.calls|].AddStroke?
            && r.calls[|s.calls|].filename == s.tempFilename && r.calls[|s.calls|].timestamp == s.tempTimestamp
            && r.tempFilename == s.tempFilename && r.tempTimestamp == 0
  {
    StrokeAudio(e, n, s);
    AudioOfAttributes(e, n.attributes, s);
  }

  /**
   * As written, the pending filename outlives the stroke that used it: a
   * second stroke without `fn` gets the same file again, with time 0. As
   * corrected it gets no file.
   */
  lemma PendingFilenameLeaks(e: Env, n1: ReaderNode, n2: ReaderNode, s: PState)
    requires Missing(n1.attributes, "fn") && Missing(n2.attributes, "fn") && s.tempFilename != ""
    ensures var r := StrokeTagOf(e, n2, StrokeTagOf(e, n1, s));
            |r.calls| == |s.calls| + 2 && r.calls[|s.calls| + 1].AddStroke? && r.calls[|s.calls| + 1].filename == s.tempFilename && r.calls[|s.calls| + 1].timestamp == 0
    ensures var r := StrokeTagCorrected(e, n2, StrokeTagCorrected(e, n1, s));
            |r.calls| == |s.calls| + 2 && r.calls[|s.calls| + 1].AddStroke? && r.calls[|s.calls| + 1].filename == "" && r.calls[|s.calls| + 1].timestamp == 0
  {
    AsWrittenKeepsFile(e, n1, s);
    AsWrittenKeepsFile(e, n2, StrokeTagOf(e, n1, s));
    StrokeAudio(e, n1, s);
    StrokeAudio(e, n2, StrokeTagCorrected(e, n1, s));
  }

  // ---------------------------------------------------------------------
  // Stroke width and pressures

  /** The width of a stroke is the first number of its `width` attribute, "1" when missing. */
  lemma StrokeWidth(e: Env, n: ReaderNode, s: PState)
    ensures var attrs := n.attributes;
            var r := StrokeTagOf(e, n, s);
            && |r.calls| == |s.calls| + 1 && r.calls[|s.calls|].AddStroke?
            && r.calls[|s.calls|].width == e.ex.strtod(WidthText(AttributeMapOf(attrs))).value
            && (Missing(attrs, "width") ==> WidthText(AttributeMapOf(attrs)) == "1")
            && (forall i :: LastOccurrence(attrs, "width", i) ==> WidthText(AttributeMapOf(attrs)) == attrs[i].1)
  {
    StrokeTagAdds(e, n, s);
    AttributeMapLastWins(n.attributes, "width");
  }

  /** The pressures of a stroke tag join the buffer. */
  lemma StrokeBuffer(e: Env, n: ReaderNode, s: PState)
    ensures StrokeTagOf(e, n, s).pressureBuffer == s.pressureBuffer + Tokens(e.ex.strtod, PressureText(e, AttributeMapOf(n.attributes)))
  {
  }

  /** The pressures are the numbers of `pressures` when present, else the numbers that follow the width. */
  lemma StrokePressures(e: Env, n: ReaderNode, s: PState)
    ensures var attrs := n.attributes;
            var r := StrokeTagOf(e, n, s);
            && (forall i :: LastOccurrence(attrs, "pressures", i) ==> r.pressureBuffer == s.pressureBuffer + Tokens(e.ex.strtod, attrs[i].1))
            && (Missing(attrs, "pressures") ==>
                  var w := WidthText(AttributeMapOf(attrs));
                  r.pressureBuffer == s.pressureBuffer + Tokens(e.ex.strtod, w[e.ex.strtod(w).used..]))
  {
    StrokeBuffer(e, n, s);
    StrOfAttributes(n.attributes, "pressures");
  }

  /**
   * The stroke's text hands its coordinate pairs and the pressures of its
   * tag to the builder, and empties the buffer.
   */
  lemma StrokePointsCarryPressures(e: Env, n: ReaderNode, t: ReaderNode, s: PState)
    requires s.pressureBuffer == []
    ensures var s1 := StrokeTagOf(e, n, s);
            var r := StrokeTextOf(e, t, s1);
            && r.pressureBuffer == []
            && r.calls == s1.calls + [SetStrokePoints(Pairs(e.ex.strtod, t.value), Tokens(e.ex.strtod, PressureText(e, AttributeMapOf(n.attributes))))]
  {
    StrokeBuffer(e, n, s);
    var p := Tokens(e.ex.strtod, PressureText(e, AttributeMapOf(n.attributes)));
    assert s.pressureBuffer + p == p;
  }

  // ---------------------------------------------------------------------
  // The PDF background

  /** At most one `loadBgPdf` call, and only once the filename is recorded as parsed. */
  predicate PdfOnce(s: PState)
  {
    && (forall i :: 0 <= i < |s.calls| && s.calls[i].LoadBgPdf? ==> s.pdfFilenameParsed)
    && (forall i, j :: 0 <= i < j < |s.calls| && s.calls[i].LoadBgPdf? ==> !s.calls[j].LoadBgPdf?)
  }

  /**
   * A PDF background loads the PDF only if none was loaded before and its
   * filename is not empty, as attached or (for `clone` too) absolute; it
   * then sets its page, `pageno - 1`, with `pageno` 1 when missing. It
   * keeps `PdfOnce`.
   */
  lemma BgPdfRule(e: Env, attrs: seq<(string, string)>, s: PState)
    requires PdfOnce(s)
    ensures var m := AttributeMapOf(attrs);
            var r := BgPdfOf(e, m, s);
            var filename := Mandatory("filename", m, StringExtractor(), "", true);
            var loads := !s.pdfFilenameParsed && filename != "";
            && PdfOnce(r)
            && r.pdfFilenameParsed == (s.pdfFilenameParsed || filename != "")
            && r.calls[..|s.calls|] == s.calls
            && |r.calls| == |s.calls| + (if loads then 2 else 1)
            && (loads ==> r.calls[|s.calls|] == LoadBgPdf(Mandatory("domain", m, e.ex.domain, ABSOLUTE, true) == ATTACH, filename))
            && r.calls[|r.calls| - 1].SetBgPdf?
            && (Missing(attrs, "pageno") ==> r.calls[|r.calls| - 1].pageNr == 0)
            && (forall i :: LastOccurrence(attrs, "filename", i) ==> filename == attrs[i].1)
  {
    var m := AttributeMapOf(attrs);
    AttributeMapLastWins(attrs, "pageno");
    StrOfAttributes(attrs, "filename");
    StringIsVerbatim("filename", m);
    BgPdfKeepsOnce(e, m, s);
    var r := BgPdfOf(e, m, s);
    assert r.calls[..|s.calls|] == s.calls;
  }

  /** A PDF background keeps `PdfOnce`. */
  lemma BgPdfKeepsOnce(e: Env, m: AttributeMap, s: PState)
    requires PdfOnce(s)
    ensures PdfOnce(BgPdfOf(e, m, s))
  {
  }

  /** A sequence of PDF backgrounds, as the pages of a document read them. */
  function BgPdfs(e: Env, ms: seq<AttributeMap>, s: PState): PState
    decreases |ms|
  {
    if ms == [] then s else BgPdfs(e, ms[1..], BgPdfOf(e, ms[0], s))
  }

  /** However many PDF backgrounds a document has, the PDF is loaded at most once. */
  lemma {:induction false} PdfLoadedOnce(e: Env, ms: seq<AttributeMap>, s: PState)
    requires PdfOnce(s)
    ensures PdfOnce(BgPdfs(e, ms, s))
    decreases |ms|
  {
    if ms != [] {
      var r := BgPdfOf(e, ms[0], s);
      BgPdfKeepsOnce(e, ms[0], s);
      PdfLoadedOnce(e, ms[1..], r);
    }
  }

  /** The PDF page index is the inverse of the `pageno` the saver writes. */
  lemma PdfPageRoundTrip(pageNr: SizeT)
    requires pageNr < 0xFFFF_FFFF_FFFF_FFFF
    ensures PdfPageIndex(pageNr + 1) == pageNr
  {
  }
}
