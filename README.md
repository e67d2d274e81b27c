# Xournal++ document loading, modelled in Dafny

This project models how Xournal++ reads and writes its `.xoj` / `.xopp` XML
documents (`src/core/control/xojfile`). It covers five parts:

- **`oxml::Reader`**: the streaming, in-situ XML tokenizer.
  - It refills its buffer from a read callback, moving the unconsumed data to the front or doubling the buffer.
  - It shifts the string views of the node being read by the distance the data moved.
  - It decodes character references in place: the predefined entities of section 4.6 of XML 1.0, and the numeric references of section 4.1, re-encoded as UTF-8 per section 3 of RFC 3629.
  - It hands out opening, closing, text and end nodes.
- **`XmlParser`**: the depth-scoped event parser.
  - It runs nested `parse(processNodeFunction)` loops over the root, document, page, layer and attachment contexts.
  - Its tag hierarchy is checked by `openTag` / `closeTag`.
  - It makes per-tag attribute decisions: creator, PDF loaded once, stroke width and pressures, pending audio.
- **`XmlParserHelper`**: attribute lookup with its warnings and defaults.
- **`LoadHandler`**: the builder side.
  - `finalizePage`, the image geometry, `setStrokePoints`, the pressure repair `fixNullPressureValues`, the audio attributes, the legacy position state machine `parserEndElement`, and the legacy stroke text.
- **`SaveHandler`**: the attribute values the saver writes.
  - Colors, stroke width plus pressures, audio, fill, cap style, PDF and image backgrounds, `bg_N.png` numbering, and the `prepareSave` resets.

## Layout

Code that updates state step by step is a class with `modifies` clauses.
Each method is proved to compute a pure function of the old state (`St()`
is the tuple of its fields), and the properties are lemmas about those
functions.

| file | module | contents |
|---|---|---|
| `chars.dfy` | `Chars` | C-locale character classes, `Option` |
| `utf8.dfy` | `Utf8` | `std::from_chars`, the UTF-8 encoder standing in for `g_unichar_to_utf8`, and a decoder for the round trip |
| `oxml_nodes.dfy` | `OxmlNodes` | views as (start, size), the four node kinds, view shifting |
| `oxml_spec.dfy` | `OxmlSpec` | reference semantics of the tokenizer on the flat text: what each operation should read, independent of buffering |
| `oxml_tags.dfy` | `OxmlTags` | markup written out as text, and what the reference reader makes of each piece |
| `oxml_state.dfy` | `OxmlState` | the reader's state, the chunked byte source, `refillBuffer` |
| `oxml_steps.dfy` | `OxmlSteps` | `peek`, `skipWhitespace` and the raw scan, proved against `OxmlSpec` |
| `oxml_decode.dfy` | `OxmlDecode` | the decoding scan as intended, proved against `OxmlSpec.ScanDecoded` |
| `oxml_parse.dfy` | `OxmlParse` | the tokenizer as written, one function per operation |
| `oxml_agree.dfy` | `OxmlAgree` | the tokenizer as written against `OxmlSpec`, on text without references |
| `oxml.dfy` | `Oxml` | `class Reader`, whose methods compute the `OxmlParse` functions |
| `oxml_findings.dfy` | `OxmlFindings` | the four tokenizer defects, each on a concrete input |
| `numbers.dfy` | `Numbers` | the number-list loops of stroke parsing |
| `xml_parser_helper.dfy` | `XmlParserHelper` | `getAttrib`, `getAttribMandatory` |
| `xml_parser.dfy` | `XmlParser` | parser functions and `class Parser` |
| `xml_parser_props.dfy` | `XmlParserProps` | properties of the parser |
| `document.dfy` | `Document` | pages, layers, strokes and backgrounds, as values |
| `pressure_portions.dfy` | `PressurePortions` | the cutting half of `fixNullPressureValues` |
| `load_handler.dfy` | `LoadHandler` | builder functions and `class Handler` |
| `save_handler.dfy` | `SaveHandler` | saver functions, `class Images`, `class Saver` |

The read callback becomes a sequence of chunks held by the reader. Each chunk is some characters, or a failure (a negative count). Once the sequence is used up, every read returns 0. The libxml2 reader under `XmlParser` becomes a sequence of nodes with kind, depth, name, emptiness, attributes and value, plus whether the read after the last node fails. Calls into `LoadHandler` from `XmlParser` are a log of builder calls.

The tokenizer's reference semantics (`OxmlSpec`) are stated on the text the source delivers, as one flat string. The raw scan, `peek` and `skipWhitespace` agree with them whatever the chunking (`OxmlSteps.RawSpec`, `PeekSpec`, `SkipSpec`). So does the decoding scan as intended (`OxmlDecode.DecSpec`). The reader as written does not: see "## Findings". On text without '&' it does, operation by operation up to `readNode` (`OxmlAgree`), with one exception: the '>' of an empty tag is left unread when the '/' ends the buffer. What the reference semantics read from markup written out — tag names, attributes in document order, the empty flag, how far a comment, CDATA section or declaration reaches, and where text and stray characters are allowed — is stated in `OxmlTags`.

## Model

| member | source | states |
|---|---|---|
| OxmlNodes.TypeOf | src/core/control/xojfile/oxml.h:25-93 | `getType` names each of the four node kinds, and each kind by exactly one name |
| OxmlNodes.RenderMoved | src/core/control/xojfile/oxml.cpp:17-31 | when the characters under a node reappear `d` places further, the node shifted by `d` (non-empty views moved, empty views kept) shows the same name, attributes and text; with `d == 0`, writes elsewhere leave the node's text alone |
| OxmlNodes.ShiftTwice | src/core/control/xojfile/oxml.cpp:17-31 | shifting a node by `a` then `b` is shifting it by `a + b` |
| OxmlNodes.ShiftZero | src/core/control/xojfile/oxml.cpp:17-31 | shifting a node by 0 leaves it unchanged |
| OxmlNodes.ViewText | src/core/control/xojfile/oxml.h:39-93 | the text of a view in the buffer has the view's size |
| OxmlState.AvailableEmpty | src/core/control/xojfile/oxml.cpp:92-100 | the source has nothing to deliver exactly when it is used up or fails next |
| OxmlState.AfterReadFacts | src/core/control/xojfile/oxml.cpp:92-100 | a read delivers the first characters the source had, and what remains is the rest of them, with the same failure ahead |
| OxmlState.ReadFacts | src/core/control/xojfile/oxml.cpp:92-100 | the read callback returns a negative count exactly on a failure, 0 exactly when the source is used up, and otherwise puts the characters it returns into the room given |
| OxmlState.MovedToFront | src/core/control/xojfile/oxml.cpp:67-74 | the `memmove` to the front: the moved range is copied to index 0 and the rest of the buffer stays |
| OxmlState.WrittenAt | src/core/control/xojfile/oxml.cpp:151-174 | writing characters over the buffer changes exactly the positions written |
| OxmlState.MakeRoomOf | src/core/control/xojfile/oxml.cpp:60-90 | after making room, there is room after the data |
| OxmlState.MakeRoomMoves | src/core/control/xojfile/oxml.cpp:60-90 | making room moves the data from `dataStart` to index 0 unchanged, shifts `currentPos` and `dataEnd` by the same distance, keeps or doubles the buffer size, and changes nothing else |
| OxmlState.RefillThrows | src/core/control/xojfile/oxml.cpp:92-95 | `refillBuffer` throws "Read error occurred" exactly when the source fails next |
| OxmlState.RefillDone | src/core/control/xojfile/oxml.cpp:60-103 | a refill that returns keeps every unconsumed character in order, moves the node in flight and `tempAttrName` by the returned shift, and brings in more data or marks the data as ended |
| OxmlState.RefillFine | src/core/control/xojfile/oxml.cpp:60-103 | `RefillDone` for any views the reader holds: nothing unconsumed is lost and the positions stay ordered |
| OxmlState.PeekValue | src/core/control/xojfile/oxml.cpp:105-110 | once the current character is in the buffer or the data has ended, `peek` returns what the reference `Peek` returns |
| OxmlState.AdvanceConsumes | src/core/control/xojfile/oxml.cpp:112-116 | `advance` consumes exactly the current character, and nothing at the end of the data |
| OxmlState.AdvanceHead | src/core/control/xojfile/oxml.cpp:112-116 | the character at `currentPos` heads the unconsumed text, and `advance` drops it |
| OxmlState.UnscannedIs | src/core/control/xojfile/oxml.h:95-200 | the text still to read is the buffer from `currentPos` to `dataEnd`, followed by what the source still has |
| OxmlSpec.Peek | src/core/control/xojfile/oxml.cpp:105-110 | the next character, or '\0' at the end of the data; a read error only at the end with a failing source |
| OxmlSpec.Advance | src/core/control/xojfile/oxml.cpp:112-116 | drops exactly one character when there is one |
| OxmlSpec.SkipSpace | src/core/control/xojfile/oxml.cpp:118-122 | drops a prefix of white space and stops at a non-space character or the end; fails only when all the rest is white space and the source fails |
| OxmlSpec.SkipAtPeek | src/core/control/xojfile/oxml.cpp:118-122 | `skipWhitespace` decides on the character `peek` returns: stop, fail, or drop it and go on |
| OxmlSpec.ScanRaw | src/core/control/xojfile/oxml.h:251-266 | the scan with `ignoreCR` set: the longest prefix whose characters all continue the scan, followed by a character that does not; otherwise "Unexpected end of data", or the read error |
| OxmlSpec.EntityFrom | src/core/control/xojfile/oxml.cpp:151-174 | the character of a predefined entity exactly when its name is in the table |
| OxmlSpec.Reference | src/core/control/xojfile/oxml.cpp:136-174 | a predefined entity becomes its one character, an unknown name stays `&name;`, and a numeric reference becomes at most as many characters as the reference took |
| OxmlSpec.NumericReference | src/core/control/xojfile/oxml.cpp:140-149 | the UTF-8 bytes of a numeric reference fit in the room its digits took |
| OxmlSpec.ScanDecoded | src/core/control/xojfile/oxml.h:251-277 | the decoding scan as intended: it stops in front of a character that does not continue it, and consumes no more than the text |
| OxmlSpec.Attributes | src/core/control/xojfile/oxml.cpp:202-215 | the attribute loop keeps the attributes already read, in document order, and stops on '/' or '>' |
| OxmlSpec.ParseOpening | src/core/control/xojfile/oxml.cpp:195-226 | an opening tag read as intended, with the '>' peeked, gives an opening node and consumes at least one character |
| OxmlSpec.ParseClosing | src/core/control/xojfile/oxml.cpp:228-238 | a closing tag gives a closing node and consumes at least one character |
| OxmlSpec.ParseText | src/core/control/xojfile/oxml.cpp:240-253 | text runs to the next '<', and a text of white space only gives no node |
| OxmlSpec.IgnoreNodeEnd | src/core/control/xojfile/oxml.cpp:278-281 | skips through the first '>' and no further: the last character it consumes is '>', and none before it is |
| OxmlSpec.CommentBody | src/core/control/xojfile/oxml.cpp:255-276 | the comment loop as intended, over raw text: it consumes at least one character |
| OxmlSpec.IgnoreSpecial | src/core/control/xojfile/oxml.cpp:255-276 | a comment, CDATA section or declaration is skipped, consuming at least one character |
| OxmlSpec.ReadStep | src/core/control/xojfile/oxml.cpp:283-317 | one turn of `readNode` consumes at least one character and never hands out the end node. Where no text may stand, a character other than '<' or '\0' is "Unexpected character". A closing node comes only after "</". An opening node comes only after '<' and a character other than '/', '?' and '!'. A text node comes only where text may stand, and never from '<'. Markup is skipped only after "<?" (the flag kept) or "<!", or as white-space text where text may stand (the flag cleared) |
| OxmlSpec.ReadNode | src/core/control/xojfile/oxml.cpp:283-317 | the end node comes only once all the text is consumed; any other node sets `lastNodeWasOpening` exactly when it is an opening node |
| OxmlSpec.ReadStart | src/core/control/xojfile/oxml.cpp:285-289 | white space is skipped unless text may follow an opening node; it fails only when the data runs out on a failing source |
| OxmlTags.AttributesRead | src/core/control/xojfile/oxml.cpp:202-215 | the attribute loop reads every attribute written out as ` name="value"` (a name, a value without '"' or '&'), in document order after those already read, and stops in front of the '/' or '>' that follows |
| OxmlTags.OpeningRead | src/core/control/xojfile/oxml.cpp:195-226 | `parseOpeningNode` on an opening tag written out gives its name, its attributes in document order, and `empty` exactly when the tag ends in "/>"; it stops right after the '>' |
| OxmlTags.ClosingRead | src/core/control/xojfile/oxml.cpp:228-238 | `parseClosingNode` on a closing tag written out gives its name and stops right after the '>' |
| OxmlTags.CommentBodyRead | src/core/control/xojfile/oxml.cpp:261-266 | the comment loop and the `ignoreNodeEnd` after it, on a comment body without '>', stop right after the '>' of the closing `-->` |
| OxmlTags.CommentRead | src/core/control/xojfile/oxml.cpp:255-267 | `ignoreSpecialXML` skips a comment through its `-->` and reports that text may follow |
| OxmlTags.CdataRead | src/core/control/xojfile/oxml.cpp:268-271 | `ignoreSpecialXML` skips a CDATA section whose body holds no '>' through its `]]>`, and text may follow only as before |
| OxmlTags.DeclarationRead | src/core/control/xojfile/oxml.cpp:272-275 | `ignoreSpecialXML` skips any other declaration through its '>' |
| OxmlTags.ReadsOpening | src/core/control/xojfile/oxml.cpp:306 | `readNode` on an opening tag written out hands out that opening node and sets `lastNodeWasOpening` |
| OxmlTags.ReadsClosing | src/core/control/xojfile/oxml.cpp:299-300 | `readNode` on a closing tag written out hands out that closing node and clears `lastNodeWasOpening` |
| OxmlTags.SkipsInstruction | src/core/control/xojfile/oxml.cpp:301-302 | `readNode` skips a processing instruction such as the prolog and goes on with the flag unchanged |
| OxmlTags.SkipsComment | src/core/control/xojfile/oxml.cpp:303-304 | `readNode` skips a comment and goes on as if text may follow |
| OxmlTags.SkipsCdata | src/core/control/xojfile/oxml.cpp:303-304 | `readNode` skips a CDATA section and goes on with the flag unchanged |
| OxmlTags.SkipsDeclaration | src/core/control/xojfile/oxml.cpp:303-304 | `readNode` skips a declaration and goes on with the flag unchanged |
| OxmlTags.ReadsText | src/core/control/xojfile/oxml.cpp:308-312 | after an opening node, text without '<' or '&' that is not all white space is handed out as a text node up to the next '<', and the flag is cleared |
| OxmlTags.DropsSpace | src/core/control/xojfile/oxml.cpp:308-312 | after an opening node, text of white space alone is dropped, and reading goes on as if no text may follow |
| OxmlTags.StrayCharacter | src/core/control/xojfile/oxml.cpp:313-314 | where no text may stand, a character other than white space, '<' and '\0' throws "Unexpected character" |
| OxmlTags.ReadsEnd | src/core/control/xojfile/oxml.cpp:285-293 | at the end of the data, after white space only where no text may stand, `readNode` hands out the end node with the flag unchanged, or the read error of a failing source |
| OxmlTags.SkipSpaces | src/core/control/xojfile/oxml.cpp:118-122 | `skipWhitespace` drops any run of white space in front of the rest |
| OxmlSteps.PeekSpec | src/core/control/xojfile/oxml.cpp:105-110 | `peek` on the buffered reader returns what `OxmlSpec.Peek` returns on the flat text, throws exactly when it does, and consumes nothing |
| OxmlSteps.PeekFine | src/core/control/xojfile/oxml.cpp:105-110 | `peek` with a node in flight: the positions stay ordered and the node moves by the distance the data moved |
| OxmlSteps.SkipSpec | src/core/control/xojfile/oxml.cpp:118-122 | `skipWhitespace` on the buffered reader consumes what `OxmlSpec.SkipSpace` consumes, and throws exactly when it does |
| OxmlSteps.SkipFine | src/core/control/xojfile/oxml.cpp:118-122 | `skipWhitespace` with a node in flight keeps the positions ordered and moves the node with the data |
| OxmlSteps.AdvanceMoves | src/core/control/xojfile/oxml.cpp:112-116 | `advance` in the buffer moves `currentPos` by one and keeps the reader sound |
| OxmlSteps.RefillMoves | src/core/control/xojfile/oxml.cpp:60-103 | a refill with more data to come keeps the reader sound, moves `currentPos` by the shift, and makes progress |
| OxmlSteps.RawSpec | src/core/control/xojfile/oxml.h:251-266 | the scan with `ignoreCR` set consumes what `OxmlSpec.ScanRaw` consumes, throws exactly when it does, and returns a view of what it consumed, moved with every refill |
| OxmlDecode.DecSpec | src/core/control/xojfile/oxml.h:251-277 | the decoding scan, corrected, agrees with `OxmlSpec.ScanDecoded` whatever the chunking: same text consumed, same error, and its view shows the decoded text |
| OxmlDecode.ReplaceSpec | src/core/control/xojfile/oxml.cpp:151-174 | `replaceCharacterReference`, corrected, consumes the reference through its ';' and shows `OxmlSpec.Reference` of its name |
| OxmlDecode.ReplaceThrown | src/core/control/xojfile/oxml.cpp:151-174 | the corrected replacement throws exactly when the scan for the ';' does |
| OxmlDecode.MoveOffsetFacts | src/core/control/xojfile/oxml.cpp:124-134 | `moveOffsetData` moves the characters from `firstOffset` to `currentPos` back by `readingOffset`, and leaves everything else |
| OxmlDecode.WriteFacts | src/core/control/xojfile/oxml.cpp:151-174 | rewriting a reference puts its replacement where the '&' was, less the offset, and grows `readingOffset` by what it saved |
| OxmlDecode.WriteEntity | src/core/control/xojfile/oxml.cpp:158-162 | a predefined entity is rewritten as its one character |
| OxmlDecode.WriteUnicode | src/core/control/xojfile/oxml.cpp:140-149 | a numeric reference is rewritten as the UTF-8 bytes of its code point |
| OxmlDecode.UnicodeWritten | src/core/control/xojfile/oxml.cpp:140-149 | `replaceUnicodeReference` writes its bytes in place, and they fit before the ';' |
| OxmlDecode.DecFinished | src/core/control/xojfile/oxml.h:267-277 | at its end, the corrected scan moves the offset data back, returns a view of length `currentPos - readingOffset - start`, and resets `readingOffset` to 0 |
| OxmlParse.PeekFacts | src/core/control/xojfile/oxml.cpp:105-110 | `peek` consumes nothing; a refill only reads; the value is the current character or '\0' |
| OxmlParse.SkipFacts | src/core/control/xojfile/oxml.cpp:118-122 | `skipWhitespace` only moves forward and leaves the next character at hand |
| OxmlParse.AdvanceFacts | src/core/control/xojfile/oxml.cpp:112-116 | `advance` only moves forward, and consumes one character in the buffer |
| OxmlParse.RefillFacts | src/core/control/xojfile/oxml.cpp:60-103 | a refill that returns only moves forward, consumes a read while more data may come, and leaves the next character at hand |
| OxmlParse.ShiftedFacts | src/core/control/xojfile/oxml.cpp:49-58 | `addressShift` shifts only the node in flight and `tempAttrName`; buffer, positions and text are unchanged |
| OxmlParse.MoveOf | src/core/control/xojfile/oxml.cpp:124-134 | `moveOffsetData` as written only moves data behind the current position, keeping `readingOffset` |
| OxmlParse.MoveAgrees | src/core/control/xojfile/oxml.cpp:124-134 | with consistent offsets, `moveOffsetData` as written is the corrected `MoveOffsetOf` |
| OxmlParse.WriteOf | src/core/control/xojfile/oxml.cpp:151-174 | the rewriting as written only writes behind the current position, and never lowers `readingOffset` |
| OxmlParse.ScanOf | src/core/control/xojfile/oxml.h:251-277 | `parseWhileFrom` as written (every scan replaces references) stops on a character that does not continue it, and consumes at least one character when the first one continues it |
| OxmlParse.ScanEndOf | src/core/control/xojfile/oxml.h:258-277 | at the end of the buffer the scan refills and goes on, or throws once the data has ended |
| OxmlParse.FinishOf | src/core/control/xojfile/oxml.h:267-277 | the end of a decoding scan leaves `readingOffset` 0 |
| OxmlParse.ReplaceOf | src/core/control/xojfile/oxml.cpp:151-174 | `replaceCharacterReference` as written ends on the ';' of the reference, having consumed at least the '&' |
| OxmlParse.NamedOf | src/core/control/xojfile/oxml.cpp:151-174 | the name scan of a reference, as written, ends on the ';' |
| OxmlParse.RewriteOf | src/core/control/xojfile/oxml.cpp:151-174 | the rewriting followed by `addressShift(oldDataStart)` stays on the ';' |
| OxmlParse.ViewOf | src/core/control/xojfile/oxml.h:271-272 | a scan result becomes a view exactly when its length is not negative |
| OxmlParse.OpeningOf | src/core/control/xojfile/oxml.cpp:195-226 | `parseOpeningNode` as written hands out an opening node, releases the node in flight, and consumes what it read |
| OxmlParse.AttributesOf | src/core/control/xojfile/oxml.cpp:202-215 | the attribute loop keeps an opening node in flight and only moves forward |
| OxmlParse.AttributeOf | src/core/control/xojfile/oxml.cpp:205-214 | one attribute consumes at least one character |
| OxmlParse.QuotedOf | src/core/control/xojfile/oxml.cpp:207-210 | the quoted value only moves forward |
| OxmlParse.OpeningEndOf | src/core/control/xojfile/oxml.cpp:217-225 | the end of the tag hands out the node in flight with its name and attributes, moved by the distance `peek` shifted the data, and `empty` set exactly when `peek` finds '/' (or it was set already); it consumes what it skipped |
| OxmlParse.ClosingOf | src/core/control/xojfile/oxml.cpp:228-238 | `parseClosingNode` hands out a closing node and consumes what it read |
| OxmlParse.TextOf | src/core/control/xojfile/oxml.cpp:240-253 | `parseTextNode` hands out either no node or a text node in the buffer that is not all white space |
| OxmlParse.IgnoreEndOf | src/core/control/xojfile/oxml.cpp:278-281 | `ignoreNodeEnd` consumes at least the '>' |
| OxmlParse.SpecialOf | src/core/control/xojfile/oxml.cpp:255-276 | `ignoreSpecialXML` only moves forward |
| OxmlParse.DashOf | src/core/control/xojfile/oxml.cpp:257-267 | after `<!-` the comment branch only moves forward |
| OxmlParse.CdataOf | src/core/control/xojfile/oxml.cpp:268-271 | a CDATA section is skipped forward |
| OxmlParse.CommentOf | src/core/control/xojfile/oxml.cpp:261-264 | the comment loop as written only moves forward |
| OxmlParse.StartOf | src/core/control/xojfile/oxml.cpp:285-289 | the start of a `readNode` turn leaves the next character at hand |
| OxmlParse.TagOf | src/core/control/xojfile/oxml.cpp:297-307 | after '<' or '\0', on what `peek` finds: a closing node exactly on '/', clearing the flag; an opening node on any character but '/', '?' and '!', setting it; nothing handed out only on '?' (the flag kept) or '!' |
| OxmlParse.TurnOf | src/core/control/xojfile/oxml.cpp:285-316 | one turn of `readNode`: the end node only once nothing is left, with the flag unchanged; any other node sets the flag exactly when it is an opening node; a text node is never all white space; a turn without a node makes progress |
| OxmlParse.CharTurnOf | src/core/control/xojfile/oxml.cpp:295-315 | a turn on a character in the buffer keeps the same promises as `TurnOf`. Where no text may stand, a character other than '<' and '\0' throws "Unexpected character" and changes nothing. A text node comes only where text may stand, from a character other than '<' and '\0'. Tags come only from '<' or '\0' |
| OxmlParse.ReadNodeOf | src/core/control/xojfile/oxml.cpp:283-317 | `readNode` hands out the end node only at the end of the data; every other node comes with the flag the node implies, and no node is left in flight |
| OxmlParse.NullTerminateOf | src/core/control/xojfile/oxml.cpp:319-327 | `nullTerminate` succeeds exactly when the view starts in the buffer and ends before its last slot; it then writes '\0' right after the view and changes nothing else; otherwise it throws |
| Oxml.Reader.constructor | src/core/control/xojfile/oxml.cpp:34-45 | a 1 kB buffer with no data, no node in flight, the flag cleared, offset 0, and all of the source still to read |
| Oxml.Reader.Read | src/core/control/xojfile/oxml.cpp:92-95 | the read callback, as `OxmlState.ReadOf` |
| Oxml.Reader.AddressShift | src/core/control/xojfile/oxml.cpp:49-58 | the node in flight and `tempAttrName` shifted by `dataStart` less the old one, which is returned |
| Oxml.Reader.MakeRoom | src/core/control/xojfile/oxml.cpp:60-90 | the compaction and doubling of `refillBuffer`, as `MakeRoomOf` |
| Oxml.Reader.RefillBuffer | src/core/control/xojfile/oxml.cpp:60-103 | computes `RefillOf`: drop the consumed prefix when no node is in flight, make room, read, end the data on 0, throw on a negative count, shift the node |
| Oxml.Reader.ReadDone | src/core/control/xojfile/oxml.cpp:96-102 | a count of 0 ends the data; otherwise `dataEnd` moves past what was read; the shift is returned |
| Oxml.Reader.Peek | src/core/control/xojfile/oxml.cpp:105-110 | computes `PeekOf` |
| Oxml.Reader.Advance | src/core/control/xojfile/oxml.cpp:112-116 | computes `AdvanceOf` |
| Oxml.Reader.SkipWhitespace | src/core/control/xojfile/oxml.cpp:118-122 | computes `SkipOf` by its loop |
| Oxml.Reader.MoveOffsetData | src/core/control/xojfile/oxml.cpp:124-134 | computes `MoveOf` |
| Oxml.Reader.ReplaceUnicodeReference | src/core/control/xojfile/oxml.cpp:140-149 | writes the UTF-8 bytes of the code point where the reference was |
| Oxml.Reader.WriteReference | src/core/control/xojfile/oxml.cpp:156-172 | rewrites a reference name held apart from the buffer |
| Oxml.Reader.WriteReferenceAt | src/core/control/xojfile/oxml.cpp:156-172 | computes `WriteOf` on the name the scan returned |
| Oxml.Reader.WriteNamed | src/core/control/xojfile/oxml.cpp:156-172 | computes `WriteNamedOf` |
| Oxml.Reader.ReplaceCharacterReference | src/core/control/xojfile/oxml.cpp:151-174 | computes `ReplaceOf`, as written |
| Oxml.Reader.ReplaceName | src/core/control/xojfile/oxml.cpp:153-157 | computes `NamedOf` |
| Oxml.Reader.Rewrite | src/core/control/xojfile/oxml.cpp:158-173 | computes `RewriteOf` |
| Oxml.Reader.ScanLoop | src/core/control/xojfile/oxml.h:252-257 | the loop of `parseWhileFrom`, as `ScanOf` |
| Oxml.Reader.ScanStep | src/core/control/xojfile/oxml.h:253-256 | one turn of that loop |
| Oxml.Reader.ParseWhileFrom | src/core/control/xojfile/oxml.h:251-277 | computes `ScanOf` |
| Oxml.Reader.ScanEnd | src/core/control/xojfile/oxml.h:258-277 | computes `ScanEndOf` |
| Oxml.Reader.Finish | src/core/control/xojfile/oxml.h:267-277 | computes `FinishOf` |
| Oxml.Reader.ParseOpeningNode | src/core/control/xojfile/oxml.cpp:195-226 | computes `OpeningOf`, and sets `lastNodeWasOpening` when it returns |
| Oxml.Reader.ParseAttributes | src/core/control/xojfile/oxml.cpp:202-215 | computes `AttributesOf` |
| Oxml.Reader.ParseAttribute | src/core/control/xojfile/oxml.cpp:205-214 | computes `AttributeOf` |
| Oxml.Reader.ParseQuoted | src/core/control/xojfile/oxml.cpp:207-210 | computes `QuotedOf` |
| Oxml.Reader.ParseOpeningEnd | src/core/control/xojfile/oxml.cpp:217-225 | computes `OpeningEndOf` |
| Oxml.Reader.ParseClosingNode | src/core/control/xojfile/oxml.cpp:228-238 | computes `ClosingOf` |
| Oxml.Reader.ParseTextNode | src/core/control/xojfile/oxml.cpp:240-253 | computes `TextOf` |
| Oxml.Reader.IgnoreNodeEnd | src/core/control/xojfile/oxml.cpp:278-281 | computes `IgnoreEndOf` |
| Oxml.Reader.IgnoreSpecialXML | src/core/control/xojfile/oxml.cpp:255-276 | computes `SpecialOf` |
| Oxml.Reader.IgnoreDashes | src/core/control/xojfile/oxml.cpp:257-267 | computes `DashOf` |
| Oxml.Reader.SkipComment | src/core/control/xojfile/oxml.cpp:261-264 | computes `CommentOf` by its do-while loop |
| Oxml.Reader.IgnoreCdata | src/core/control/xojfile/oxml.cpp:268-271 | computes `CdataOf` |
| Oxml.Reader.ReadNode | src/core/control/xojfile/oxml.cpp:283-317 | computes `ReadNodeOf`, with the flag it leaves |
| Oxml.Reader.ReadTurn | src/core/control/xojfile/oxml.cpp:285-316 | computes `TurnOf` |
| Oxml.Reader.CharTurn | src/core/control/xojfile/oxml.cpp:295-315 | computes `CharTurnOf` |
| Oxml.Reader.TagTurn | src/core/control/xojfile/oxml.cpp:297-307 | computes `TagOf` |
| OxmlAgree.DecodedIsRaw | src/core/control/xojfile/oxml.h:251-277 | on text without '&' the decoding scan reads what the raw scan reads: the same text, the same rest, the same error |
| OxmlAgree.ScanIsRaw | src/core/control/xojfile/oxml.h:251-277 | `parseWhileFrom` as written, whose every scan replaces references, is the scan with `ignoreCR` set while no '&' lies ahead: the same view, the same new state, the same error |
| OxmlAgree.ScanAgrees | src/core/control/xojfile/oxml.h:251-277 | on text without '&' the scan as written consumes what `OxmlSpec.ScanRaw` consumes and throws exactly the error it raises. It keeps the node in flight and the text it shows. With a node in flight it returns a view of exactly the characters scanned, from where the scan began, moved with the data |
| OxmlAgree.PeekMoves | src/core/control/xojfile/oxml.cpp:105-110 | `peek` returns what `OxmlSpec.Peek` returns and throws exactly when it does. It consumes nothing, leaves the current character in the buffer unless the data has ended, and keeps the node in flight and its text |
| OxmlAgree.AdvanceStep | src/core/control/xojfile/oxml.cpp:112-116 | `advance` consumes the current character when the buffer holds it, and nothing otherwise; the node in flight keeps its text |
| OxmlAgree.SkipMoves | src/core/control/xojfile/oxml.cpp:118-122 | `skipWhitespace` consumes what `OxmlSpec.SkipSpace` consumes and throws exactly when it does; the node in flight keeps its text |
| OxmlAgree.IgnoreEndAgrees | src/core/control/xojfile/oxml.cpp:278-281 | on text without '&', `ignoreNodeEnd` as written skips exactly what `OxmlSpec.IgnoreNodeEnd` skips, through the first '>', and throws exactly its error |
| OxmlAgree.CommentAgrees | src/core/control/xojfile/oxml.cpp:261-264 | on text without '&', the do-while loop of the comment branch skips exactly what `OxmlSpec.CommentBody` skips: up to a "--" or to the end of the buffered data |
| OxmlAgree.DashAgrees | src/core/control/xojfile/oxml.cpp:257-267 | on text without '&', after "<!" and a '-' the reader skips exactly what `OxmlSpec.IgnoreComment` skips, and reports a comment exactly when it does |
| OxmlAgree.CdataAgrees | src/core/control/xojfile/oxml.cpp:268-271 | on text without '&', after "<![" the reader skips through the first ']' and then through the next '>', and throws exactly the error of that reading |
| OxmlAgree.SpecialAgrees | src/core/control/xojfile/oxml.cpp:255-276 | on text without '&', `ignoreSpecialXML` as written skips exactly what `OxmlSpec.IgnoreSpecial` skips and marks a comment exactly when it does |
| OxmlAgree.ClosingAgrees | src/core/control/xojfile/oxml.cpp:228-238 | on text without '&', `parseClosingNode` as written hands out a closing node whose name shows exactly the name `OxmlSpec.ParseClosing` reads, consumes what it consumes, and throws exactly its error |
| OxmlAgree.TextAgrees | src/core/control/xojfile/oxml.cpp:240-253 | on text without '&', `parseTextNode` as written hands out a node exactly when `OxmlSpec.ParseText` has one, showing the same text, and stops at the same '<' |
| OxmlAgree.QuotedAgrees | src/core/control/xojfile/oxml.cpp:207-210 | the quoted value as written is a view the node in flight can keep. It shows the text between the quote `peek` finds and the same quote, and the closing quote is consumed; the attribute name held keeps its text |
| OxmlAgree.AttributeAgrees | src/core/control/xojfile/oxml.cpp:205-214 | one turn of the attribute loop as written reads the name and value `OxmlSpec.Attribute` reads and appends them to the node in flight, which still shows its name and earlier attributes |
| OxmlAgree.AttributesAgrees | src/core/control/xojfile/oxml.cpp:202-215 | the attribute loop as written appends, in document order, exactly the attributes `OxmlSpec.Attributes` reads, throws exactly its error, and stops with the '/' or '>' in the buffer |
| OxmlAgree.OpeningEndAgrees | src/core/control/xojfile/oxml.cpp:217-225 | the end of an opening tag as written marks the node empty exactly on '/' and hands it out. It consumes what `OxmlSpec.ParseOpening` consumes, except the '>' when the '/' ended the buffer. Where the reference fails reading that '>', the node is still handed out, with nothing left |
| OxmlAgree.OpeningAgrees | src/core/control/xojfile/oxml.cpp:195-226 | on text without '&', `parseOpeningNode` as written hands out the name, attributes and empty flag `OxmlSpec.ParseOpening` reads, and throws only its errors. It consumes the same characters, except the '>' of an empty tag whose '/' ended the buffer |
| OxmlAgree.StartAgrees | src/core/control/xojfile/oxml.cpp:285-289 | the start of a `readNode` turn skips exactly what `OxmlSpec.ReadStart` skips, throws exactly when it does, and leaves the next character in the buffer unless the data has ended |
| OxmlAgree.TagAgrees | src/core/control/xojfile/oxml.cpp:297-307 | after a '<' the dispatch as written reads the closing or opening node, or skips the prolog or declaration, that the reference's step after '<' does |
| OxmlAgree.CharTurnAgrees | src/core/control/xojfile/oxml.cpp:295-315 | a turn on a character in the buffer agrees with `OxmlSpec.ReadStep`: the same node, the same markup skipped with the same flag, the same error |
| OxmlAgree.TurnAgrees | src/core/control/xojfile/oxml.cpp:285-316 | one turn of `readNode` as written agrees with the reference's turn, the end node included |
| OxmlAgree.ReadNodeAgrees | src/core/control/xojfile/oxml.cpp:283-317 | on text without '&', `readNode` as written hands out the node `OxmlSpec.ReadNode` reads, with the same flag, and throws only its errors. It consumes the same characters, except the '>' of an empty tag whose '/' ended the buffer; where the reference fails reading that '>', it hands out the empty node |
| OxmlAgree.ReaderReadsOpening | src/core/control/xojfile/oxml.cpp:306 | `readNode` as written on an opening tag written out, with no '&' ahead, hands out that opening node and sets the flag; the rest is left, behind the '>' when the '/' ended the buffer |
| OxmlAgree.ReaderReadsClosing | src/core/control/xojfile/oxml.cpp:299-300 | `readNode` as written on a closing tag written out, with no '&' ahead, hands out that closing node, clears the flag and leaves the rest |
| OxmlAgree.ReaderReadsText | src/core/control/xojfile/oxml.cpp:308-312 | `readNode` as written after an opening node, on text without '<' that is not all white space, with no '&' ahead, hands out that text node, clears the flag and leaves the '<' |
| Oxml.Reader.NullTerminate | src/core/control/xojfile/oxml.cpp:319-327 | computes `NullTerminateOf` on the buffer |
| OxmlFindings.EntitiesGarbled | src/core/control/xojfile/oxml.cpp:181-183 | as written, the text of `<t>&lt;&gt;</t>` reads as `<&gt&gt;` |
| OxmlFindings.EntitiesDecoded | src/core/control/xojfile/oxml.h:251-277 | corrected, the same text reads as `<>` |
| OxmlFindings.DoubleShift | src/core/control/xojfile/oxml.cpp:151-174 | as written, a reference replaced across a refill shifts the node in flight twice: its name view starts before the buffer |
| OxmlFindings.ShiftedOnce | src/core/control/xojfile/oxml.cpp:151-174 | corrected, the node shifts once and still reads `<a b=…` |
| OxmlFindings.SlashAtBufferEnd | src/core/control/xojfile/oxml.cpp:217-226 | as written, a '/' last in the buffer ends the tag, and the skip meant for the '>' skips nothing |
| OxmlFindings.GtLeftUnread | src/core/control/xojfile/oxml.cpp:217-226 | as written, `<a/` followed by `>\n<b>` in the next read gives the empty node `a` and leaves `>\n<b>` unread |
| OxmlFindings.GtSkipped | src/core/control/xojfile/oxml.cpp:217-226 | intended: the '>' is peeked and skipped, and `\n<b>` is what remains |
| OxmlFindings.RunsOut | src/core/control/xojfile/oxml.h:251-266 | a scan for `t` that meets neither `t` nor '&' before the data ends throws "Unexpected end of data" |
| OxmlFindings.CommentRunsOut | src/core/control/xojfile/oxml.cpp:255-276 | as written, `<!-- a & b -->` with no later ';' throws |
| OxmlFindings.CommentSkipped | src/core/control/xojfile/oxml.cpp:255-276 | intended: the comment is skipped through its `-->` |
| Utf8.DigitRun | src/core/control/xojfile/oxml.cpp:140-149 | the digits `from_chars` reads: the longest prefix of digits of the base |
| Utf8.FromChars | src/core/control/xojfile/oxml.cpp:140-149 | the code point parsed from the digits; 0 when there are none or their value does not fit in 32 bits, as `from_chars` leaves the `gunichar` untouched |
| Utf8.Encode | src/core/control/xojfile/oxml.cpp:140-149 | the UTF-8 bytes of a code point, as many as `EncodedLength` says |
| Utf8.DecodeEncode | src/core/control/xojfile/oxml.cpp:140-149 | decoding the UTF-8 encoding of a code point gives it back |
| Utf8.ContinuationRoundTrip | src/core/control/xojfile/oxml.cpp:140-149 | continuation bytes decode to the low bits they carry |
| Utf8.FromCharsFits | src/core/control/xojfile/oxml.cpp:140-149 | the encoding of a numeric reference with `k` digits takes at most `k + 1` bytes, so it fits where the reference stood |
| XmlParserHelper.GetAttrib | src/core/control/xojfile/XmlParserHelper.h:80-100 | a value exactly when the attribute is present and can be read, and then the value read |
| XmlParserHelper.AttribWarnings | src/core/control/xojfile/XmlParserHelper.h:80-100 | at most one warning, and none exactly when the attribute is absent or read entirely |
| XmlParserHelper.AbsentIsSilent | src/core/control/xojfile/XmlParserHelper.h:82-83 | a missing attribute gives nothing and no warning |
| XmlParserHelper.FailureIsLogged | src/core/control/xojfile/XmlParserHelper.h:92-96 | an unreadable value gives nothing and one warning with its raw text |
| XmlParserHelper.PartialIsKept | src/core/control/xojfile/XmlParserHelper.h:87-91 | a value read in part is returned, with a "not entirely parsed" warning |
| XmlParserHelper.MandatoryWarnings | src/core/control/xojfile/XmlParserHelper.h:102-117 | `getAttribMandatory` gives the `getAttrib` value or else the default, with `getAttrib`'s warnings plus one "not found" warning exactly when the default is used and `warn` is set |
| XmlParserHelper.SilentDefault | src/core/control/xojfile/XmlParserHelper.h:102-117 | a missing attribute with `warn == false` gives the default and logs nothing |
| XmlParserHelper.StringIsVerbatim | src/core/control/xojfile/XmlParserHelper.h:44-47 | read as a string, an attribute is its raw value, with no warning |
| Numbers.PairUp | src/core/control/xojfile/XmlParser.cpp:614-637 | consecutive numbers taken two at a time, an odd last one dropped |
| Numbers.PairsAreTokens | src/core/control/xojfile/XmlParser.cpp:614-637 | reading x y pairs until one fails gives the pairs of the number list read until a number fails |
| Numbers.TokensBound | src/core/control/xojfile/XmlParser.cpp:574-583 | there are no more numbers than characters |
| Numbers.ReadNumbers | src/core/control/xojfile/XmlParser.cpp:574-583 | the pressure loop reads the numbers of the text up to the first that cannot be read |
| Numbers.ReadPairs | src/core/control/xojfile/XmlParser.cpp:614-637 | the `parseStrokeText` loop reads the pairs of the text up to the first that cannot be read |
| XmlParser.TagNameToType | src/core/control/xojfile/XmlParser.cpp:765-797 | each known name gives its tag, and any other string gives UNKNOWN |
| XmlParser.TagNamesRoundTrip | src/core/control/xojfile/XmlParser.cpp:765-797 | every known tag is found again from its name |
| XmlParser.KnownTagsDistinct | src/core/control/xojfile/XmlParser.cpp:765-797 | the fourteen known names give fourteen different tags |
| XmlParser.AttributeMapLastWins | src/core/control/xojfile/XmlParser.cpp:725-736 | the attribute map holds exactly the names that occur, each with the value of its last occurrence |
| XmlParser.ReadOf | src/core/control/xojfile/XmlParser.cpp:76 | the read gives 1 on a node, 0 at the end, -1 on a read error |
| XmlParser.OpenTagOf | src/core/control/xojfile/XmlParser.cpp:739-747 | the node's tag, pushed exactly when the element is not empty |
| XmlParser.CloseTagOf | src/core/control/xojfile/XmlParser.cpp:749-763 | throws on an empty hierarchy or a mismatched top, and otherwise pops exactly that tag |
| XmlParser.XournalTagOf | src/core/control/xojfile/XmlParser.cpp:390-410 | logs one `addXournal` call and leaves the reader and hierarchy alone |
| XmlParser.MrWriterTagOf | src/core/control/xojfile/XmlParser.cpp:412-424 | logs one `addMrWriter` call |
| XmlParser.PageTagOf | src/core/control/xojfile/XmlParser.cpp:426-433 | logs one `addPage` call |
| XmlParser.AudioTagOf | src/core/control/xojfile/XmlParser.cpp:435-441 | logs one `addAudioAttachment` call |
| XmlParser.PdfPageIndex | src/core/control/xojfile/XmlParser.cpp:500-524 | `pageno - 1` in `size_t`: page 0 wraps around to the largest value |
| XmlParser.BackgroundTagOf | src/core/control/xojfile/XmlParser.cpp:443-498 | the background name, then the background of its type; an unknown type sets none |
| XmlParser.LayerTagOf | src/core/control/xojfile/XmlParser.cpp:526-532 | logs one `addLayer` call |
| XmlParser.TimestampTagOf | src/core/control/xojfile/XmlParser.cpp:534-547 | the pending audio file and time are overwritten |
| XmlParser.StrokeTagOf | src/core/control/xojfile/XmlParser.cpp:549-612 | `parseStrokeTag` as written: one stroke added, the time cleared, the filename left pending |
| XmlParser.StrokeTagCorrected | src/core/control/xojfile/XmlParser.cpp:596-611 | intended: the filename is moved from, so nothing stays pending |
| XmlParser.StrokeTextOf | src/core/control/xojfile/XmlParser.cpp:614-637 | the pairs and buffered pressures go to the builder, and the buffer is emptied |
| XmlParser.TextTagOf | src/core/control/xojfile/XmlParser.cpp:639-662 | `parseTextTag` as written: one text added, the filename left pending |
| XmlParser.TextTagCorrected | src/core/control/xojfile/XmlParser.cpp:651-661 | intended: the filename is moved from |
| XmlParser.ImageTagOf | src/core/control/xojfile/XmlParser.cpp:669-678 | logs one `addImage` call |
| XmlParser.TexImageTagOf | src/core/control/xojfile/XmlParser.cpp:686-699 | logs one `addTexImage` call |
| XmlParser.AttachmentOf | src/core/control/xojfile/XmlParser.cpp:707-722 | the path goes to the image or TeX image that is innermost open |
| XmlParser.TexImageRun | src/core/control/xojfile/XmlParser.cpp:295-308 | as written, the empty-TeX-image case falls through into `parse(processAttachment)` |
| XmlParser.TexImageRunCorrected | src/core/control/xojfile/XmlParser.cpp:283-308 | intended: like the image case, an empty TeX image reads on |
| XmlParser.Parser.constructor | src/core/control/xojfile/XmlParser.cpp:60-73 | a parser over the given nodes: nothing read, empty hierarchy, no call logged, nothing pending |
| XmlParser.Parser.Parse | src/core/control/xojfile/XmlParser.cpp:75-108 | computes `ParseOf`, the depth-scoped loop |
| XmlParser.Parser.Process | src/core/control/xojfile/XmlParser.cpp:75-108 | the node function of a context |
| XmlParser.Parser.CloseElement | src/core/control/xojfile/XmlParser.cpp:333-349 | the finalizing call, then `closeTag` and a read |
| XmlParser.Parser.Read | src/core/control/xojfile/XmlParser.cpp:76 | computes `ReadOf` |
| XmlParser.Parser.ReadOn | src/core/control/xojfile/XmlParser.cpp:75-108 | the read that ends a node function |
| XmlParser.Parser.ReadUnless | src/core/control/xojfile/XmlParser.cpp:75-108 | the read, or the exception of the step before it |
| XmlParser.Parser.LogCall | src/core/control/xojfile/XmlParser.cpp:390-722 | appends one builder call to the log |
| XmlParser.Parser.Finalize | src/core/control/xojfile/XmlParser.cpp:333-349 | logs the finalizing call of a tag, if it has one |
| XmlParser.Parser.SetAudio | src/core/control/xojfile/XmlParser.cpp:534-547 | sets `tempFilename` and `tempTimestamp` |
| XmlParser.Parser.SetPressures | src/core/control/xojfile/XmlParser.cpp:581 | sets `pressureBuffer` |
| XmlParser.Parser.MarkPdfLoaded | src/core/control/xojfile/XmlParser.cpp:512-514 | logs `loadBgPdf` and sets `pdfFilenameParsed` |
| XmlParser.Parser.TakeAudio | src/core/control/xojfile/XmlParser.cpp:596-611 | the audio pair a stroke or text tag hands on |
| XmlParser.Parser.GetAttributeMap | src/core/control/xojfile/XmlParser.cpp:725-736 | computes the attribute map of the current node |
| XmlParser.Parser.OpenTag | src/core/control/xojfile/XmlParser.cpp:739-747 | computes `OpenTagOf` |
| XmlParser.Parser.CloseTag | src/core/control/xojfile/XmlParser.cpp:749-763 | computes `CloseTagOf` |
| XmlParser.Parser.ParseXournalTag | src/core/control/xojfile/XmlParser.cpp:390-410 | computes `XournalTagOf` |
| XmlParser.Parser.ParseMrWriterTag | src/core/control/xojfile/XmlParser.cpp:412-424 | computes `MrWriterTagOf` |
| XmlParser.Parser.ParsePageTag | src/core/control/xojfile/XmlParser.cpp:426-433 | computes `PageTagOf` |
| XmlParser.Parser.ParseAudioTag | src/core/control/xojfile/XmlParser.cpp:435-441 | computes `AudioTagOf` |
| XmlParser.Parser.ParseBgSolid | src/core/control/xojfile/XmlParser.cpp:469-482 | a solid background |
| XmlParser.Parser.ParseBgPixmap | src/core/control/xojfile/XmlParser.cpp:484-498 | an image background |
| XmlParser.Parser.ParseBgPdf | src/core/control/xojfile/XmlParser.cpp:500-524 | a PDF background, loading the PDF at most once |
| XmlParser.Parser.ParseBackgroundTag | src/core/control/xojfile/XmlParser.cpp:443-467 | computes `BackgroundTagOf` |
| XmlParser.Parser.ParseLayerTag | src/core/control/xojfile/XmlParser.cpp:526-532 | computes `LayerTagOf` |
| XmlParser.Parser.ParseTimestampTag | src/core/control/xojfile/XmlParser.cpp:534-547 | computes `TimestampTagOf` |
| XmlParser.Parser.ParseStrokeTag | src/core/control/xojfile/XmlParser.cpp:549-612 | computes `StrokeTagOf`, as written |
| XmlParser.Parser.ParseStrokeText | src/core/control/xojfile/XmlParser.cpp:614-637 | computes `StrokeTextOf` |
| XmlParser.Parser.ParseTextTag | src/core/control/xojfile/XmlParser.cpp:639-662 | computes `TextTagOf`, as written |
| XmlParser.Parser.ParseImageTag | src/core/control/xojfile/XmlParser.cpp:669-678 | computes `ImageTagOf` |
| XmlParser.Parser.ParseTexImageTag | src/core/control/xojfile/XmlParser.cpp:686-699 | computes `TexImageTagOf` |
| XmlParser.Parser.ParseAttachment | src/core/control/xojfile/XmlParser.cpp:707-722 | computes `AttachmentOf` |
| XmlParser.Parser.ProcessRootNode | src/core/control/xojfile/XmlParser.cpp:111-149 | computes `RootNodeOf` |
| XmlParser.Parser.ProcessXournal | src/core/control/xojfile/XmlParser.cpp:111-149 | the Xournal root: its tag, then its children |
| XmlParser.Parser.ProcessMrWriter | src/core/control/xojfile/XmlParser.cpp:111-149 | the MrWriter root: its tag, then its children |
| XmlParser.Parser.ProcessDocumentChildNode | src/core/control/xojfile/XmlParser.cpp:151-207 | computes `DocumentChildOf` |
| XmlParser.Parser.ProcessPage | src/core/control/xojfile/XmlParser.cpp:151-207 | a page: finalized at once when empty, otherwise its children parsed |
| XmlParser.Parser.ProcessAudio | src/core/control/xojfile/XmlParser.cpp:151-207 | an audio attachment |
| XmlParser.Parser.ProcessPageChildNode | src/core/control/xojfile/XmlParser.cpp:209-249 | computes `PageChildOf` |
| XmlParser.Parser.ProcessBackground | src/core/control/xojfile/XmlParser.cpp:209-249 | a background tag, then a read |
| XmlParser.Parser.ProcessLayer | src/core/control/xojfile/XmlParser.cpp:209-249 | a layer: finalized at once when empty, otherwise its children parsed |
| XmlParser.Parser.ProcessLayerChildNode | src/core/control/xojfile/XmlParser.cpp:251-357 | computes `LayerChildOf` |
| XmlParser.Parser.ProcessLayerText | src/core/control/xojfile/XmlParser.cpp:312-331 | text goes to the innermost open stroke, text, image or TeX image |
| XmlParser.Parser.ProcessTimestamp | src/core/control/xojfile/XmlParser.cpp:262-264 | a timestamp tag, then a read |
| XmlParser.Parser.ProcessStroke | src/core/control/xojfile/XmlParser.cpp:265-273 | a stroke, finalized at once when empty |
| XmlParser.Parser.ProcessText | src/core/control/xojfile/XmlParser.cpp:274-282 | a text, finalized at once when empty |
| XmlParser.Parser.ProcessImage | src/core/control/xojfile/XmlParser.cpp:283-294 | an image, finalized at once when empty, otherwise its attachment parsed |
| XmlParser.Parser.ProcessTexImage | src/core/control/xojfile/XmlParser.cpp:295-308 | computes `TexImageRun`, as written |
| XmlParser.Parser.ProcessAttachment | src/core/control/xojfile/XmlParser.cpp:359-387 | computes `AttachmentChildOf` |
| XmlParser.Parser.ProcessAttachmentTag | src/core/control/xojfile/XmlParser.cpp:359-387 | an attachment tag, then a read |
| XmlParserProps.StrOfAttributes | src/core/control/xojfile/XmlParser.cpp:725-736 | a string attribute reads as its last occurrence, and as nothing when absent |
| XmlParserProps.MissingIsDefault | src/core/control/xojfile/XmlParserHelper.h:102-117 | an absent mandatory attribute takes its default |
| XmlParserProps.ParseFirstNotElement | src/core/control/xojfile/XmlParser.cpp:75-84 | `parse` returns at once when the first node is not an element |
| XmlParserProps.ParseFromElement | src/core/control/xojfile/XmlParser.cpp:75-108 | otherwise it loops from the first node's depth |
| XmlParserProps.LoopStops | src/core/control/xojfile/XmlParser.cpp:87-107 | the loop returns 1 at the first shallower node, 0 at the end of the nodes, and throws on a read error |
| XmlParserProps.LoopDispatches | src/core/control/xojfile/XmlParser.cpp:87-97 | a node at the start depth or deeper goes to the node function, and the loop goes on after it |
| XmlParserProps.DocumentParse | src/core/control/xojfile/XmlParser.cpp:75-149 | parsing a whole document throws, ends with 0 at the end of the nodes, or ends with 1 on a node left unread; a read error is reported only when the nodes end in one |
| XmlParserProps.RootClose | src/core/control/xojfile/XmlParser.cpp:139-144 | the root's closing tag finalizes the document and then closes the tag |
| XmlParserProps.EmptyRootThrows | src/core/control/xojfile/XmlParser.cpp:112-115 | an empty root element throws, whatever its tag |
| XmlParserProps.DocumentClose | src/core/control/xojfile/XmlParser.cpp:170-177 | in a document, a closing page tag finalizes the page; other closing tags finalize nothing |
| XmlParserProps.PageClose | src/core/control/xojfile/XmlParser.cpp:224-230 | in a page, a closing layer tag finalizes the layer; other closing tags finalize nothing |
| XmlParserProps.LayerClose | src/core/control/xojfile/XmlParser.cpp:333-349 | in a layer, a closing tag finalizes the innermost open stroke, text, image or TeX image, and nothing else |
| XmlParserProps.AttachmentClose | src/core/control/xojfile/XmlParser.cpp:359-387 | in an image or TeX image, a closing tag finalizes nothing |
| XmlParserProps.StrokeTagAdds | src/core/control/xojfile/XmlParser.cpp:549-612 | a stroke tag adds exactly one stroke |
| XmlParserProps.TextTagAdds | src/core/control/xojfile/XmlParser.cpp:639-662 | a text tag adds exactly one text |
| XmlParserProps.EmptyPage | src/core/control/xojfile/XmlParser.cpp:151-207 | an empty page is added and finalized at once |
| XmlParserProps.EmptyLayer | src/core/control/xojfile/XmlParser.cpp:209-249 | an empty layer is added and finalized at once |
| XmlParserProps.EmptyLayerElement | src/core/control/xojfile/XmlParser.cpp:262-294 | empty strokes, texts and images are added and finalized at once |
| XmlParserProps.OpenLayerElement | src/core/control/xojfile/XmlParser.cpp:265-282 | a non-empty stroke or text is added and left open for its text and closing tag |
| XmlParserProps.AttachmentSkips | src/core/control/xojfile/XmlParser.cpp:359-387 | the attachment node function skips an element that is not an attachment |
| XmlParserProps.AttachmentLoopEnds | src/core/control/xojfile/XmlParser.cpp:359-387 | the attachment loop on a last empty non-attachment element skips it and ends |
| XmlParserProps.TexImageSwallowsNext | src/core/control/xojfile/XmlParser.cpp:295-308 | as written, an empty TeX image followed by one last element that is not an attachment: that element is swallowed, and only the TeX image's calls are logged |
| XmlParserProps.TexImageLeavesNext | src/core/control/xojfile/XmlParser.cpp:283-308 | corrected, the next element (an empty stroke, say) is added and finalized |
| XmlParserProps.XournalTagRule | src/core/control/xojfile/XmlParser.cpp:390-410 | the creator is `creator`, else "Xournal " + `version`, else "Unknown"; the file version defaults to 1 |
| XmlParserProps.MrWriterTagRule | src/core/control/xojfile/XmlParser.cpp:412-424 | the creator is "MrWriter " + `version`, else "Unknown" |
| XmlParserProps.PageSizeDefault | src/core/control/xojfile/XmlParser.cpp:426-433 | a page without `width` or `height` gets that size 0 |
| XmlParserProps.AudioOfAttributes | src/core/control/xojfile/XmlParser.cpp:596-611 | the audio pair of a tag is its `fn` and `ts`, when `fn` is present and not empty |
| XmlParserProps.StrokeAudio | src/core/control/xojfile/XmlParser.cpp:596-611 | a stroke gets the audio pair it takes; the file stays pending and the time is cleared |
| XmlParserProps.TextAudio | src/core/control/xojfile/XmlParser.cpp:648-661 | the same for a text |
| XmlParserProps.TimestampThenStroke | src/core/control/xojfile/XmlParser.cpp:534-611 | a timestamp tag's `fn` and `ts` become pending, and a following stroke without `fn` receives them |
| XmlParserProps.AsWrittenKeepsFile | src/core/control/xojfile/XmlParser.cpp:596-611 | as written, a stroke without `fn` hands on the pending file and leaves it pending, with time 0 |
| XmlParserProps.PendingFilenameLeaks | src/core/control/xojfile/XmlParser.cpp:596-611 | as written, a second stroke without `fn` gets the same file again; as corrected it gets none |
| XmlParserProps.StrokeWidth | src/core/control/xojfile/XmlParser.cpp:558-563 | the width is the first number of `width`, read from "1" when it is missing |
| XmlParserProps.StrokeBuffer | src/core/control/xojfile/XmlParser.cpp:565-583 | the pressures join the buffer |
| XmlParserProps.StrokePressures | src/core/control/xojfile/XmlParser.cpp:565-583 | the pressures are the numbers of `pressures` if present, else the numbers after the width |
| XmlParserProps.StrokePointsCarryPressures | src/core/control/xojfile/XmlParser.cpp:614-637 | the stroke's text hands its pairs and the tag's pressures to the builder and empties the buffer |
| XmlParserProps.BgPdfRule | src/core/control/xojfile/XmlParser.cpp:500-524 | the PDF is loaded only if none was before and the name is not empty, `clone` read as absolute; the page set is `pageno - 1`, `pageno` 1 when missing |
| XmlParserProps.BgPdfKeepsOnce | src/core/control/xojfile/XmlParser.cpp:500-524 | a PDF background keeps "at most one load" |
| XmlParserProps.PdfLoadedOnce | src/core/control/xojfile/XmlParser.cpp:500-524 | over any sequence of PDF background tags (`BgPdfOf` steps), the PDF is loaded at most once |
| XmlParserProps.PdfPageRoundTrip | src/core/control/xojfile/XmlParser.cpp:500-524 | the page index read is the inverse of the `pageno` the saver writes |
| PressurePortions.NextPositive | src/core/control/xojfile/LoadHandler.cpp:1336-1361 | the first positive pressure from an index on, every one before it not positive |
| PressurePortions.NextNonPositive | src/core/control/xojfile/LoadHandler.cpp:1340-1341 | the first pressure from an index on that is not positive (or NaN), every one before it positive |
| PressurePortions.Weighted | src/core/control/xojfile/LoadHandler.cpp:1344-1349 | the points of a run, each with the pressure of its index |
| PressurePortions.Truncated | src/core/control/xojfile/LoadHandler.cpp:1330-1334 | the pressures cut to one fewer than the points |
| PressurePortions.PortionsFromCover | src/core/control/xojfile/LoadHandler.cpp:1336-1362 | from a positive pressure on, the portions are well cut and their pressured points are the points with positive pressure, in order |
| PressurePortions.KeptEmpty | src/core/control/xojfile/LoadHandler.cpp:1364-1369 | nothing is kept exactly when no pressure is positive |
| PressurePortions.PortionsFromRuns | src/core/control/xojfile/LoadHandler.cpp:1336-1362 | from the start of a maximal run of positive pressures on, every portion is the points of such a run, carrying their pressures, followed by the original point after it |
| PressurePortions.PortionsCover | src/core/control/xojfile/LoadHandler.cpp:1316-1369 | each portion is the points of a maximal run of positive pressures (the one before it and the one after it, if any, not positive), carrying them, followed by the original point after the run; together they are the positively pressured points in order; there are none exactly when no pressure is positive |
| PressurePortions.FindPositive | src/core/control/xojfile/LoadHandler.cpp:1336-1361 | the `find_if` for a positive pressure |
| PressurePortions.FindNonPositive | src/core/control/xojfile/LoadHandler.cpp:1340-1341 | the `find_if` for a pressure that is not positive |
| PressurePortions.WeightRun | src/core/control/xojfile/LoadHandler.cpp:1344-1349 | the `transform` of one run |
| PressurePortions.CutPortions | src/core/control/xojfile/LoadHandler.cpp:1329-1362 | the portion loop computes `Portions` |
| LoadHandler.FinalizedPageHasLayer | src/core/control/xojfile/LoadHandler.cpp:137-144 | a finalized page has its own layers, or exactly one empty layer when it had none; nothing else changes |
| LoadHandler.ImageBox | src/core/control/xojfile/LoadHandler.cpp:439-480 | an image or TeX image sits at (left, top) with size (right - left, bottom - top) |
| LoadHandler.AudioAttributes | src/core/control/xojfile/LoadHandler.cpp:1568-1595 | audio only for a non-empty filename; then a timestamp, and the file as given in a plain `.xoj` or the attachment's temporary file |
| LoadHandler.StrokeAudioGoesToText | src/core/control/xojfile/LoadHandler.cpp:361-377 | as written, a stroke with audio and no text held dereferences null; corrected, the stroke gets its file and timestamp |
| LoadHandler.StrokeAudioCorrected | src/core/control/xojfile/LoadHandler.cpp:361-377 | corrected, a new stroke keeps its style, has no points, takes the derived audio file and timestamp (none for an empty name), and the held text is untouched |
| LoadHandler.StrokeAudioReplacesTextFile | src/core/control/xojfile/LoadHandler.cpp:1568-1584 | as written, with a text held, the stroke's audio file replaces that text's file and the stroke gets none |
| LoadHandler.StrokeWithoutAudioAgrees | src/core/control/xojfile/LoadHandler.cpp:361-377 | without an audio file, `addStroke` as written does what is intended |
| LoadHandler.TextAudioAgrees | src/core/control/xojfile/LoadHandler.cpp:412-425 | for a text, as written and corrected agree |
| LoadHandler.FixedStrokes | src/core/control/xojfile/LoadHandler.cpp:1316-1381 | with no portion the stroke is deleted and the layer untouched; otherwise the strokes added, then the current one, carry the portions in order, all in the original style |
| LoadHandler.StrokePointsSet | src/core/control/xojfile/LoadHandler.cpp:379-402 | fewer than two points: untouched; too few or no pressures: the points as given; all positive: each point but the last carries its pressure; otherwise the repair |
| LoadHandler.EndElementMovesUp | src/core/control/xojfile/LoadHandler.cpp:1272-1314 | an end tag changes nothing unless it closes the current element; then the position moves one level up, the root to finished |
| LoadHandler.EndElementAddsToLayer | src/core/control/xojfile/LoadHandler.cpp:1290-1313 | closing an element moves it to the end of the layer and touches nothing else; a deleted stroke adds nothing |
| LoadHandler.EndLayerAddsToPage | src/core/control/xojfile/LoadHandler.cpp:1290-1292 | closing a layer hands it to the open page |
| LoadHandler.PairedIsPairUp | src/core/control/xojfile/LoadHandler.cpp:1398-1420 | the legacy stroke text's points are the pairs of its numbers |
| LoadHandler.StrokeTextPointCount | src/core/control/xojfile/LoadHandler.cpp:1391-1439 | one point per two numbers, without pressure; fails exactly on fewer than four numbers or an odd count; on success the buffer is emptied |
| LoadHandler.ReadStrokeText | src/core/control/xojfile/LoadHandler.cpp:1398-1414 | the number loop adds a point at every second number |
| LoadHandler.Handler.constructor | src/core/control/xojfile/LoadHandler.cpp:615-624 | the state `parseXml` sets before the first element: not started, nothing open, no pages, file version 1 |
| LoadHandler.Handler.FinalizePage | src/core/control/xojfile/LoadHandler.cpp:137-144 | computes `FinalizePageOf` |
| LoadHandler.Handler.AddImage | src/core/control/xojfile/LoadHandler.cpp:439-447 | computes `AddImageOf` |
| LoadHandler.Handler.AddTexImage | src/core/control/xojfile/LoadHandler.cpp:470-480 | computes `AddTexImageOf` |
| LoadHandler.Handler.AddStroke | src/core/control/xojfile/LoadHandler.cpp:361-377 | computes `AddStrokeOf`, as written; fails where the source dereferences null |
| LoadHandler.Handler.AddText | src/core/control/xojfile/LoadHandler.cpp:412-425 | computes `AddTextOf` |
| LoadHandler.Handler.SetAudioAttributes | src/core/control/xojfile/LoadHandler.cpp:1568-1595 | the file and timestamp to give, as `AudioAttributes` states |
| LoadHandler.Handler.FinalizeStroke | src/core/control/xojfile/LoadHandler.cpp:404-410 | a stroke not deleted goes to the layer |
| LoadHandler.Handler.Split | src/core/control/xojfile/LoadHandler.cpp:1371-1380 | the first portion stays in the stroke, each later one becomes a restyled copy, the previous stroke going to the layer |
| LoadHandler.Handler.FixNullPressureValues | src/core/control/xojfile/LoadHandler.cpp:1316-1381 | computes `FixedOf` |
| LoadHandler.Handler.ApplyPressures | src/core/control/xojfile/LoadHandler.cpp:388-401 | the pressure step of `setStrokePoints` |
| LoadHandler.Handler.SetStrokePoints | src/core/control/xojfile/LoadHandler.cpp:379-402 | computes `SetStrokePointsOf` |
| LoadHandler.Handler.ParserEndElement | src/core/control/xojfile/LoadHandler.cpp:1272-1314 | computes `EndElementOf` |
| LoadHandler.Handler.MoveTo | src/core/control/xojfile/LoadHandler.cpp:1280-1313 | the position moves |
| LoadHandler.Handler.CloseLayer | src/core/control/xojfile/LoadHandler.cpp:1290-1292 | the layer goes to the open page |
| LoadHandler.Handler.CloseText | src/core/control/xojfile/LoadHandler.cpp:1303-1305 | the text goes to the layer |
| LoadHandler.Handler.CloseImage | src/core/control/xojfile/LoadHandler.cpp:1306-1309 | the image goes to the layer |
| LoadHandler.Handler.CloseTexImage | src/core/control/xojfile/LoadHandler.cpp:1310-1312 | the TeX image goes to the layer |
| LoadHandler.Handler.ParserStrokeText | src/core/control/xojfile/LoadHandler.cpp:1391-1439 | computes `StrokeTextOf` |
| SaveHandler.Hex | src/core/control/xojfile/SaveHandler.cpp:85-90 | the last `n` lowercase hexadecimal digits |
| SaveHandler.HexRoundTrip | src/core/control/xojfile/SaveHandler.cpp:85-90 | the digits read back give the number when it fits |
| SaveHandler.ColorBits | src/core/control/xojfile/SaveHandler.cpp:85-90 | `(color << 8) | alpha` in 32 bits |
| SaveHandler.ColorStrRoundTrip | src/core/control/xojfile/SaveHandler.cpp:85-90 | "#" and eight lowercase hex digits that read back as the red, green and blue bytes and then the alpha |
| SaveHandler.Decimal | src/core/control/xojfile/SaveHandler.cpp:261-270 | the decimal text of an integer |
| SaveHandler.DecimalRoundTrip | src/core/control/xojfile/SaveHandler.cpp:261-270 | the decimal text reads back as its sign and magnitude |
| SaveHandler.DecimalInjective | src/core/control/xojfile/SaveHandler.cpp:261-270 | different integers have different texts |
| SaveHandler.ToolAlpha | src/core/control/xojfile/SaveHandler.cpp:103-118 | alpha 0x7f for a highlighter, 0xff otherwise |
| SaveHandler.StrokeNodeAttributes | src/core/control/xojfile/SaveHandler.cpp:100-160 | the tool name (unknown as pen), the color with the tool's alpha, the fill exactly when not -1, the cap style always (unknown as round), the style exactly when dashed |
| SaveHandler.StrokeNodeAudio | src/core/control/xojfile/SaveHandler.cpp:92-107 | `ts` and `fn` are written exactly for a pen with an audio file, both of them |
| SaveHandler.StrokeAttr | src/core/control/xojfile/SaveHandler.cpp:100-160 | the value of one attribute of a stroke node |
| SaveHandler.WidthRoundTrip | src/core/control/xojfile/SaveHandler.cpp:124-132 | for a stroke of two or more points whose pressures, but the last, are all positive: the `width` values are one per point, and read back as width then pressures, `setStrokePoints` restores every point but the last, which comes back without pressure |
| SaveHandler.LayerNode | src/core/control/xojfile/SaveHandler.cpp:162-212 | the layer's name if it has one, and one node per element, in order |
| SaveHandler.ImageRoundTrip | src/core/control/xojfile/SaveHandler.cpp:162-212 | an image's corners read back through `addImage` / `addTexImage` give the same box |
| SaveHandler.BackgroundOf | src/core/control/xojfile/SaveHandler.cpp:219-287 | the `background` node of a page and the saver state after it |
| SaveHandler.PageNodeOf | src/core/control/xojfile/SaveHandler.cpp:214-299 | the `page` node of a page and the state after it |
| SaveHandler.PdfBackground | src/core/control/xojfile/SaveHandler.cpp:225-261 | a PDF background's source and page number |
| SaveHandler.PixmapBackground | src/core/control/xojfile/SaveHandler.cpp:262-285 | an image background: a clone of an earlier page, an attachment `bg_N.png`, or the path |
| SaveHandler.PageNoRoundTrip | src/core/control/xojfile/SaveHandler.cpp:225-261 | the `pageno` written reads back as the page |
| SaveHandler.Saved | src/core/control/xojfile/SaveHandler.cpp:73-76 | the nodes of the first `n` pages, written in order |
| SaveHandler.Cleared | src/core/control/xojfile/SaveHandler.cpp:68-71 | `clearSaveState` on every page's image |
| SaveHandler.ClearedClears | src/core/control/xojfile/SaveHandler.cpp:68-71 | afterwards no image has a clone id |
| SaveHandler.SavePages | src/core/control/xojfile/SaveHandler.cpp:214-299 | every page is written, in order, with its size, background and layers, or one empty layer when it has none |
| SaveHandler.SavePdfPage | src/core/control/xojfile/SaveHandler.cpp:225-261 | only the first PDF page of a save names the PDF; every PDF page writes its number plus one |
| SaveHandler.SaveImagePage | src/core/control/xojfile/SaveHandler.cpp:262-285 | an image already shown is written as a clone of the first page that showed it; an image shown first is attached or referred to by path |
| SaveHandler.SaveAttachedNames | src/core/control/xojfile/SaveHandler.cpp:262-285 | the attached images are named `bg_1.png`, `bg_2.png`, … in the order met, all different |
| SaveHandler.AttachedDistinct | src/core/control/xojfile/SaveHandler.cpp:272 | the names given differ |
| SaveHandler.Images.ClearSaveState | src/core/control/xojfile/SaveHandler.cpp:68-71 | the image forgets its clone id |
| SaveHandler.Images.SetFilepath | src/core/control/xojfile/SaveHandler.cpp:275 | the image's path is replaced |
| SaveHandler.Images.SetCloneId | src/core/control/xojfile/SaveHandler.cpp:280-284 | the image's clone id is replaced |
| SaveHandler.Saver.constructor | src/core/control/xojfile/SaveHandler.cpp:43-46 | no PDF page visited, attachment number 1 |
| SaveHandler.Saver.VisitPage | src/core/control/xojfile/SaveHandler.cpp:214-299 | computes `PageNodeOf`, updating the PDF flag, the attachments and the image |
| SaveHandler.Saver.WriteBackground | src/core/control/xojfile/SaveHandler.cpp:219-318 | computes `BackgroundOf` |
| SaveHandler.Saver.WriteImageBackground | src/core/control/xojfile/SaveHandler.cpp:262-285 | the image case of `BackgroundOf` |
| SaveHandler.Saver.PrepareSave | src/core/control/xojfile/SaveHandler.cpp:48-77 | resets the flag and counter, clears every image's save state, and writes the pages in order (`Saved`) |
| SaveHandler.Saver.StartSave | src/core/control/xojfile/SaveHandler.cpp:48-71 | a new root, and no page's image saved |
| SaveHandler.Saver.WritePages | src/core/control/xojfile/SaveHandler.cpp:73-76 | the pages written in order, each from the state the previous left |

## Left out

- Buffer storage: the reader's buffer is a `seq<char>` field that `refillBuffer` reassigns, not an `array<char>`. The in-place `memmove` and the `vector` resize are captured by their results (`MovedToFront`, doubling); the aliasing of one array is not.
- Read and close callbacks: the read callback is a sequence of chunks, so reads are deterministic. The close callback and the destructor are left out.
- Oxml.Reader.IgnoreSpecialXML: `lastNodeWasOpening` is set after `ignoreNodeEnd` rather than before; the two differ only when `ignoreNodeEnd` throws.
- Oxml.Reader.ReadNode: the value of `lastNodeWasOpening` after an exception is not stated.
- OxmlSpec.ParseOpening: its contract states the node kind and progress; the name, the attributes in document order and the empty flag it reads from an opening tag written out are stated by `OxmlTags.OpeningRead`.
- OxmlSpec.ParseClosing: its contract states the node kind and progress; the name it reads from a closing tag written out is stated by `OxmlTags.ClosingRead`.
- OxmlSpec.IgnoreSpecial: its contract states progress; how far a comment, CDATA section or declaration is skipped is stated by `OxmlTags.CommentRead`, `CdataRead` and `DeclarationRead`.
- OxmlSpec.ReadNode: its contract states the end node and the flag; which node markup written out yields, and the "Unexpected character" error, are stated by the `Reads…`, `Skips…`, `DropsSpace` and `StrayCharacter` lemmas of `OxmlTags`, and the dispatch of one turn by `OxmlSpec.ReadStep`.
- OxmlAgree.ReadNodeAgrees: every agreement lemma of `OxmlAgree` assumes that no '&' lies anywhere in the text not yet read, not only in the node at hand. With an '&' ahead the scans as written replace references where the reference does not; see "## Findings".
- OxmlParse.ScanOf: its own contract states where the scan stops and progress; what it reads is stated by `OxmlAgree.ScanIsRaw` and `ScanAgrees` on text without '&' only.
- OxmlParse.OpeningOf: its own contract states the node kind and progress; the name, attributes and empty flag it reads are stated by `OxmlAgree.OpeningAgrees` on text without '&' only.
- OxmlParse.AttributesOf: its own contract states forward motion; the attributes it appends are stated by `OxmlAgree.AttributesAgrees` on text without '&' only.
- OxmlParse.AttributeOf: its own contract states progress; the name and value it reads are stated by `OxmlAgree.AttributeAgrees` on text without '&' only.
- OxmlParse.QuotedOf: its own contract states forward motion; the value it reads is stated by `OxmlAgree.QuotedAgrees` on text without '&' only.
- OxmlParse.ClosingOf: its own contract states the node kind and progress; the name it reads is stated by `OxmlAgree.ClosingAgrees` on text without '&' only.
- OxmlParse.TextOf: its own contract states that a text node lies in the buffer and is not all white space; the text it reads is stated by `OxmlAgree.TextAgrees` on text without '&' only.
- OxmlParse.IgnoreEndOf: its own contract states progress; that it stops right after the first '>' is stated by `OxmlAgree.IgnoreEndAgrees` on text without '&' only.
- OxmlParse.SpecialOf: its own contract states forward motion; how far it skips is stated by `OxmlAgree.SpecialAgrees` on text without '&' only (with an '&' in a comment it differs, see "## Findings").
- OxmlParse.DashOf: its own contract states forward motion; how far it skips is stated by `OxmlAgree.DashAgrees` on text without '&' only.
- OxmlParse.CdataOf: its own contract states forward motion; how far it skips is stated by `OxmlAgree.CdataAgrees` on text without '&' only.
- OxmlParse.CommentOf: its own contract states forward motion; how far it skips is stated by `OxmlAgree.CommentAgrees` on text without '&' only.
- OxmlParse.TurnOf: its own contract states the end node, the flag and progress; the node of a turn is stated by `OxmlAgree.TurnAgrees` on text without '&' only.
- OxmlParse.ReadNodeOf: its own contract states the end node and the flag; the node it hands out is stated by `OxmlAgree.ReadNodeAgrees` on text without '&' only, up to the '>' of an empty tag whose '/' ended the buffer.
- Oxml.Reader.ScanLoop: computes `ScanOf`, with the same limit.
- Oxml.Reader.ParseWhileFrom: computes `ScanOf`, with the same limit.
- Oxml.Reader.ParseOpeningNode: computes `OpeningOf`, with the same limit.
- Oxml.Reader.ParseAttributes: computes `AttributesOf`, with the same limit.
- Oxml.Reader.ParseAttribute: computes `AttributeOf`, with the same limit.
- Oxml.Reader.ParseQuoted: computes `QuotedOf`, with the same limit.
- Oxml.Reader.ParseClosingNode: computes `ClosingOf`, with the same limit.
- Oxml.Reader.ParseTextNode: computes `TextOf`, with the same limit.
- Oxml.Reader.IgnoreNodeEnd: computes `IgnoreEndOf`, with the same limit.
- Oxml.Reader.IgnoreSpecialXML: computes `SpecialOf`, with the same limit.
- Oxml.Reader.IgnoreDashes: computes `DashOf`, with the same limit.
- Oxml.Reader.SkipComment: computes `CommentOf`, with the same limit.
- Oxml.Reader.IgnoreCdata: computes `CdataOf`, with the same limit.
- Oxml.Reader.ReadTurn: computes `TurnOf`, with the same limit.
- Oxml.Reader.ReadNode: computes `ReadNodeOf`, with the same limit.
- OxmlParse.ReplaceOf: positions are indices, so a refill during the scan for the reference's name that resizes the buffer (oxml.cpp:80-89) shifts by 0, while in C++ the reallocation moves every address; the second shift that `addressShift` at oxml.cpp:173 then applies to the node in flight is not captured. The double shift is a finding for the refill that moves the data to the front only.
- OxmlParse.RewriteOf: the same limit as `ReplaceOf`: after a refill that resizes the buffer, `addressShift(oldDataStart)` is 0 here, where oxml.cpp:173 shifts the node again.
- Oxml.Reader.ReplaceCharacterReference: computes `ReplaceOf`, with the same limit.
- Oxml.Reader.Rewrite: computes `RewriteOf`, with the same limit.
- Document.Restyled: `applyStyleFrom` is taken to copy the style of the stroke and no audio file or timestamp; its body is not part of this model.
- LoadHandler.Handler.Split: the copies it makes rest on the same assumption about `applyStyleFrom`, and so does the audio clause of `LoadHandler.FixedStrokes`.
- LoadHandler.TempFileFor: the error that `getTempFileForPath` records for an unknown attachment (LoadHandler.cpp:1590) is not modelled; the handler's error slot is not part of the state.
- LoadHandler.Handler.SetAudioAttributes: the same error, recorded through `getTempFileForPath`, is not modelled.
- Debug-only code: the `#ifndef NDEBUG` reset of `firstOffset` is left out.
- `g_warning` and `g_message`: their text is left out. Warnings that matter to `XmlParserHelper` are values.
- libxml2: the `xmlTextReader` is a node sequence, and a read error is a flag at its end.
- Number parsing: numbers are reals, not IEEE doubles, and `g_ascii_strtod` / `serdes_stream` reading is an abstract reader of one number.
  - Float formatting in the saver is left out: widths and pressures are written as reals.
  - NaN is "not positive".
- Color parsing: `getAttribColorMandatory` and its parsers are left out; colors are given.
- Other helpers whose bodies are not part of this model:
  - `PageTypeHandler`, `StrokeStyle` and `decodeBase64`;
  - the `getAttrib<std::string>` specialisation, assumed to return the raw value with no warning;
  - `Stroke::setPressure` and `Stroke::hasPressure`, assumed to set each point's pressure and to test the first point's, used by `LoadHandler.WithPressures`;
  - `BackgroundImage::clearSaveState`, assumed to reset the clone id.
- LoadHandler I/O: zip, gzip and file system calls are left out, and so are the timing code and the GMarkup driver. These include `openFile`, `readContentFile`, `parseXml`, `parseAudio`, `loadBgPdf` and `parseBgPixmap`. Of the legacy GMarkup parser only `parserEndElement` and the stroke branch of `parserText` are modelled.
- SaveHandler output: XML serialization, `writeOut`, image and PDF saving, and the output streams are left out. The saver's nodes are values holding the attribute values chosen.
- Concurrency: none.

## Findings

| source | as written | input that shows it | evidently intended | confidence | as-written member | corrected member |
|---|---|---|---|---|---|---|
| src/core/control/xojfile/oxml.cpp:181-183 | `parseUntilFrom` drops its `ignoreCR` argument, so the scan for a reference's name also replaces references. At its end it runs `moveOffsetData` and resets `readingOffset`, which loses the gap an earlier reference left | the text of `<t>&lt;&gt;</t>` | the text `<>` | not executed | OxmlFindings.EntitiesGarbled | OxmlFindings.EntitiesDecoded |
| src/core/control/xojfile/oxml.cpp:151-174 | `replaceCharacterReference` returns `addressShift(oldDataStart)` after `refillBuffer` has already shifted the node in flight, so the node moves twice. This row covers the refill that moves the data to the front of the buffer; the refill that doubles the buffer is modelled with a shift of 0 | `<a b='&lt;'/>`, with the data read as `z<a b='&l` and then `t;'/>` | the node moves once, with its data | not executed | OxmlFindings.DoubleShift | OxmlFindings.ShiftedOnce |
| src/core/control/xojfile/oxml.cpp:220-226 | the '>' after a '/' is skipped with `advance()` without a `peek()`; at the end of the buffer that skips nothing | `<a/>\n<b>` delivered as `<a/` and then `>\n<b>` | the '>' is read and skipped, leaving `\n<b>` | not executed | OxmlFindings.GtLeftUnread | OxmlFindings.GtSkipped |
| src/core/control/xojfile/oxml.cpp:262-268 | the comment loop scans with reference replacement, so an '&' in a comment starts a search for ';' | `<!-- a & b -->` with no ';' after it | the comment is skipped | not executed | OxmlFindings.CommentRunsOut | OxmlFindings.CommentSkipped |
| src/core/control/xojfile/XmlParser.cpp:596-611 | `std::move(tempFilename)` goes to a `const fs::path&` parameter, so the filename is not moved from and stays pending | `<timestamp fn="a" ts="5"/>` then two strokes without `fn` | the second stroke gets no audio file | not executed | XmlParserProps.PendingFilenameLeaks | XmlParser.StrokeTagCorrected |
| src/core/control/xojfile/XmlParser.cpp:295-308 | there is no `break` after an empty TeX image, so `parse(processAttachment)` runs and swallows the next sibling | `<teximage …/>` followed by `<stroke …/>` in a layer | the stroke is added | not executed | XmlParserProps.TexImageSwallowsNext | XmlParserProps.TexImageLeavesNext |
| src/core/control/xojfile/LoadHandler.cpp:1568-1584 | `setAudioAttributes` writes the file to `this->text` instead of the element it was given | a stroke tag with a non-empty `fn` attribute, read in a layer where no text is held | the stroke gets the file | not executed | LoadHandler.StrokeAudioGoesToText | LoadHandler.StrokeAudioCorrected |
