/**
 * The markup of a document written out as text, and what the reference
 * reader of module OxmlSpec makes of each piece: an opening tag gives its
 * name, its attributes in document order and whether it ends in "/>"; a
 * closing tag gives its name; a processing instruction, a comment, a CDATA
 * section and a declaration are skipped through the character that ends
 * them; text after an opening tag is a text node unless it is white space
 * alone; any other character where no text may stand is an error.
 */
module OxmlTags {

  import opened Chars
  import opened OxmlSpec

  /** A tag or attribute name: name characters, at least one. */
  predicate IsName(n: seq<char>)
  {
    n != [] && forall i :: 0 <= i < |n| ==> IsNameChar(n[i])
  }

  /** An attribute value written between '"' without a reference: neither '"' nor '&' occurs in it. */
  predicate IsPlain(v: seq<char>)
  {
    forall i :: 0 <= i < |v| ==> v[i] != '"' && v[i] != '&'
  }

  predicate PlainAttributes(attrs: seq<(seq<char>, seq<char>)>)
  {
    forall i :: 0 <= i < |attrs| ==> IsName(attrs[i].0) && IsPlain(attrs[i].1)
  }

  /** ` name="value"`. */
  function AttributeText(a: (seq<char>, seq<char>)): seq<char>
  {
    [' '] + a.0 + ['=', '"'] + a.1 + ['"']
  }

  /** Every attribute written out, in order. */
  function AttributesText(attrs: seq<(seq<char>, seq<char>)>): seq<char>
  {
    if attrs == [] then [] else AttributeText(attrs[0]) + AttributesText(attrs[1..])
  }

  /** `<name attributes>`, or `<name attributes/>` for an empty element. */
  function OpeningTag(name: seq<char>, empty: bool, attrs: seq<(seq<char>, seq<char>)>): seq<char>
  {
    ['<'] + name + AttributesText(attrs) + (if empty then ['/', '>'] else ['>'])
  }

  function ClosingTag(name: seq<char>): seq<char>
  {
    ['<', '/'] + name + ['>']
  }

  /** A scan over characters that all continue it, up to one that does not, reads exactly those characters. */
  lemma {:induction false} ScanRawOver(v: seq<char>, rest: seq<char>, fail: bool, u: Until)
    requires forall i :: 0 <= i < |v| ==> Continues(u, v[i])
    requires rest != [] && !Continues(u, rest[0])
    ensures ScanRaw(v + rest, fail, u) == Ok(v, rest)
  {
    if v != [] {
      assert (v + rest)[1..] == v[1..] + rest;
      ScanRawOver(v[1..], rest, fail, u);
      assert [v[0]] + v[1..] == v;
    }
  }

  /** The same holds for the decoding scan when no '&' is among the characters. */
  lemma {:induction false} ScanDecodedOver(v: seq<char>, rest: seq<char>, fail: bool, u: Until)
    requires forall i :: 0 <= i < |v| ==> Continues(u, v[i]) && v[i] != '&'
    requires rest != [] && !Continues(u, rest[0])
    ensures ScanDecoded(v + rest, fail, u) == Ok(v, rest)
  {
    if v != [] {
      assert (v + rest)[1..] == v[1..] + rest;
      ScanDecodedOver(v[1..], rest, fail, u);
      assert [v[0]] + v[1..] == v;
    }
  }

  /** `ignoreNodeEnd` on any tail of `k + ">" + rest` that still holds the '>', when `k` holds none, stops right after that '>'. */
  lemma NodeEndIn(k: seq<char>, rest: seq<char>, z: seq<char>, fail: bool)
    requires forall i :: 0 <= i < |k| ==> k[i] != '>'
    requires IsSuffix(z, k + ">" + rest) && |z| > |rest|
    ensures IgnoreNodeEnd(z, fail) == Ok((), rest)
  {
    var j := |k| + 1 + |rest| - |z|;
    assert z == k[j..] + (">" + rest);
    ScanRawOver(k[j..], ">" + rest, fail, Char('>'));
  }

  /** `skipWhitespace` in front of a character that is not white space. */
  lemma SkipNone(x: seq<char>, fail: bool)
    requires x != [] && !IsSpace(x[0])
    ensures SkipSpace(x, fail) == Ok((), x)
    ensures SkipSpace([' '] + x, fail) == Ok((), x)
  {
    assert ([' '] + x)[1..] == x;
  }

  /** A name character is neither white space nor one of the characters that end a tag. */
  lemma NameCharStops(c: char)
    requires IsNameChar(c)
    ensures !IsSpace(c) && c != '/' && c != '>' && c != '=' && c != '"' && c != '?' && c != '!'
  {
  }

  /** `parseName` reads the name characters up to the first other one. */
  lemma NameThen(n: seq<char>, y: seq<char>, fail: bool)
    requires forall i :: 0 <= i < |n| ==> IsNameChar(n[i])
    requires y != [] && !IsNameChar(y[0])
    ensures ParseName(n + y, fail) == Ok(n, y)
  {
    ScanDecodedOver(n, y, fail, Name);
  }

  /** One attribute written out, `name="value"`, then whatever white space follows. */
  lemma AttributeThen(a: (seq<char>, seq<char>), m: seq<char>, fail: bool)
    requires IsName(a.0) && IsPlain(a.1)
    ensures Attribute(a.0 + ['=', '"'] + a.1 + ['"'] + m, fail)
      == (match SkipSpace(m, fail) case Ok(_, r) => Ok(a, r) case Err(e) => Err(e))
  {
    var y := ['=', '"'] + a.1 + ['"'] + m;
    assert a.0 + ['=', '"'] + a.1 + ['"'] + m == a.0 + y;
    NameThen(a.0, y, fail);
    var r2 := ['"'] + a.1 + ['"'] + m;
    assert Advance(y) == r2;
    assert Advance(r2) == a.1 + (['"'] + m);
    ScanDecodedOver(a.1, ['"'] + m, fail, Char('"'));
    assert Advance(['"'] + m) == m;
  }

  /** The attribute loop stops in front of '/' or '>'. */
  lemma AttributesStop(x: seq<char>, fail: bool, acc: seq<(seq<char>, seq<char>)>)
    requires x != [] && (x[0] == '/' || x[0] == '>')
    ensures Attributes(x, fail, acc) == Ok(acc, x)
  {
  }

  /** In front of any other character, the attribute loop reads one attribute and goes on. */
  lemma AttributesGo(x: seq<char>, fail: bool, acc: seq<(seq<char>, seq<char>)>)
    requires x != [] && x[0] != '/' && x[0] != '>' && Attribute(x, fail).Ok?
    ensures Attributes(x, fail, acc) == Attributes(Attribute(x, fail).rest, fail, acc + [Attribute(x, fail).value])
  {
  }

  /** The attribute loop reads every attribute written out, in order, and stops in front of the end of the tag. */
  lemma {:induction false} AttributesRead(attrs: seq<(seq<char>, seq<char>)>, acc: seq<(seq<char>, seq<char>)>, end: seq<char>, fail: bool)
    requires PlainAttributes(attrs) && end != [] && (end[0] == '/' || end[0] == '>')
    ensures SkipSpace(AttributesText(attrs) + end, fail).Ok?
    ensures Attributes(SkipSpace(AttributesText(attrs) + end, fail).rest, fail, acc) == Ok(acc + attrs, end)
  {
    if attrs == [] {
      assert AttributesText(attrs) + end == end;
      SkipNone(end, fail);
      AttributesStop(end, fail, acc);
      assert acc + attrs == acc;
    } else {
      var a, t := attrs[0], attrs[1..];
      assert PlainAttributes(t) by {
        forall i | 0 <= i < |t| ensures IsName(t[i].0) && IsPlain(t[i].1) {
          assert t[i] == attrs[i + 1];
        }
      }
      assert IsName(a.0) && IsPlain(a.1);
      assert attrs == [a] + t;
      hide *;
      AttributesRead(t, acc + [a], end, fail);
      AttributesCons(a, t, acc, end, fail);
    }
  }

  /** The text of one more attribute in front, as the attribute loop sees it after the white space. */
  lemma AttributeShape(a: (seq<char>, seq<char>), t: seq<(seq<char>, seq<char>)>, end: seq<char>)
    requires a.0 != []
    ensures AttributesText([a] + t) + end == [' '] + (a.0 + ['=', '"'] + a.1 + ['"'] + (AttributesText(t) + end))
    ensures (a.0 + ['=', '"'] + a.1 + ['"'] + (AttributesText(t) + end))[0] == a.0[0]
  {
    assert ([a] + t)[0] == a && ([a] + t)[1..] == t;
    var w := AttributesText(t);
    assert AttributesText([a] + t) == AttributeText(a) + w;
    hide AttributesText;
    assert AttributeText(a) + w + end == [' '] + (a.0 + ['=', '"'] + a.1 + ['"'] + (w + end));
  }

  lemma SeqAssoc<T>(p: seq<T>, q: seq<T>, r: seq<T>)
    ensures p + q + r == p + (q + r)
  {
  }

  /** One more attribute in front: the loop reads it, then the rest as before. */
  lemma AttributesCons(a: (seq<char>, seq<char>), t: seq<(seq<char>, seq<char>)>, acc: seq<(seq<char>, seq<char>)>, end: seq<char>, fail: bool)
    requires IsName(a.0) && IsPlain(a.1) && end != [] && (end[0] == '/' || end[0] == '>')
    requires SkipSpace(AttributesText(t) + end, fail).Ok?
    requires Attributes(SkipSpace(AttributesText(t) + end, fail).rest, fail, acc + [a]) == Ok(acc + [a] + t, end)
    ensures SkipSpace(AttributesText([a] + t) + end, fail).Ok?
    ensures Attributes(SkipSpace(AttributesText([a] + t) + end, fail).rest, fail, acc) == Ok(acc + ([a] + t), end)
  {
    var m := AttributesText(t) + end;
    var x := a.0 + ['=', '"'] + a.1 + ['"'] + m;
    AttributeShape(a, t, end);
    assert x[0] == a.0[0] && IsNameChar(x[0]);
    SeqAssoc(acc, [a], t);
    hide *;
    NameCharStops(x[0]);
    var sm := SkipSpace(m, fail);
    SkipNone(x, fail);
    assert SkipSpace(AttributesText([a] + t) + end, fail) == Ok((), x);
    AttributeThen(a, m, fail);
    assert Attribute(x, fail) == Ok(a, sm.rest);
    AttributesGo(x, fail, acc);
    assert Attributes(x, fail, acc) == Attributes(sm.rest, fail, acc + [a]);
  }

  /** `parseOpeningNode` from the parts it reads: name, white space, attributes, then one character after an optional '/'. */
  lemma OpeningFrom(x: seq<char>, name: seq<char>, y: seq<char>, attrs: seq<(seq<char>, seq<char>)>, e: seq<char>, empty: bool, rest: seq<char>, fail: bool)
    requires ParseName(x, fail) == Ok(name, y) && SkipSpace(y, fail).Ok?
    requires Attributes(SkipSpace(y, fail).rest, fail, []) == Ok(attrs, e)
    requires e == (if empty then ['/', '>'] else ['>']) + rest
    ensures ParseOpening(x, fail) == Ok(Open(name, empty, attrs), rest)
  {
    TagEnd(e, empty, rest, fail);
    hide ParseName, SkipSpace, Attributes, Peek, Advance;
  }

  /** The end of an opening tag: an optional '/', then the '>' that is peeked and skipped. */
  lemma TagEnd(e: seq<char>, empty: bool, rest: seq<char>, fail: bool)
    requires e == (if empty then ['/', '>'] else ['>']) + rest
    ensures e != [] && (e[0] == '/') == empty
    ensures var r4 := if e[0] == '/' then Advance(e) else e;
      Peek(r4, fail) == Ok('>', r4) && Advance(r4) == rest
  {
    var r4 := if empty then Advance(e) else e;
    assert r4 == ['>'] + rest;
  }

  /** `parseOpeningNode` on an opening tag written out: its name, its attributes in document order, and `empty` exactly when it ends in "/>". */
  lemma OpeningRead(name: seq<char>, empty: bool, attrs: seq<(seq<char>, seq<char>)>, rest: seq<char>, fail: bool)
    requires IsName(name) && PlainAttributes(attrs)
    ensures ParseOpening(OpeningTag(name, empty, attrs)[1..] + rest, fail) == Ok(Open(name, empty, attrs), rest)
  {
    var end := (if empty then ['/', '>'] else ['>']) + rest;
    var x := AttributesText(attrs) + end;
    OpeningShape(name, empty, attrs, rest);
    assert !IsNameChar(x[0]);
    hide *;
    NameThen(name, x, fail);
    AttributesRead(attrs, [], end, fail);
    assert [] + attrs == attrs;
    OpeningFrom(name + x, name, x, attrs, end, empty, rest, fail);
  }

  /** An opening tag after its '<': the name, then a character that ends it. */
  lemma OpeningShape(name: seq<char>, empty: bool, attrs: seq<(seq<char>, seq<char>)>, rest: seq<char>)
    ensures var x := AttributesText(attrs) + ((if empty then ['/', '>'] else ['>']) + rest);
      OpeningTag(name, empty, attrs)[1..] + rest == name + x && (x[0] == ' ' || x[0] == '/' || x[0] == '>')
  {
  }

  /** `parseClosingNode` on a closing tag written out: its name. */
  lemma ClosingRead(name: seq<char>, rest: seq<char>, fail: bool)
    requires forall i :: 0 <= i < |name| ==> IsNameChar(name[i])
    ensures ParseClosing(ClosingTag(name)[1..] + rest, fail) == Ok(Close(name), rest)
  {
    var y := ['>'] + rest;
    assert Advance(ClosingTag(name)[1..] + rest) == name + y;
    NameThen(name, y, fail);
    assert Advance(y) == rest;
  }

  /** The scan of `ignoreSpecialXML` for '-' stops at the first '-'. */
  lemma DashScan(p: seq<char>, y: seq<char>, fail: bool)
    requires forall i :: 0 <= i < |p| ==> p[i] != '-'
    ensures ScanRaw(p + ['-'] + y, fail, Char('-')) == Ok(p, ['-'] + y)
    ensures Advance(['-'] + y) == y
  {
    assert p + ['-'] + y == p + (['-'] + y);
    ScanRawOver(p, ['-'] + y, fail, Char('-'));
  }

  /** One turn of the comment loop: after the '-' it reached, a second '-' stops it, anything else goes on. */
  lemma CommentTurn(p: seq<char>, y: seq<char>, fail: bool)
    requires forall i :: 0 <= i < |p| ==> p[i] != '-'
    requires y != []
    ensures CommentBody(p + ['-'] + y, fail) == if y[0] == '-' then Ok((), y) else CommentBody(y, fail)
  {
    DashScan(p, y, fail);
  }

  /** The comment loop, on a comment body without '>', stops where `ignoreNodeEnd` finds the '>' that follows the `--`. */
  lemma {:induction false} CommentBodyRead(body: seq<char>, rest: seq<char>, fail: bool)
    requires forall i :: 0 <= i < |body| ==> body[i] != '>'
    ensures CommentBody(body + ['-', '-', '>'] + rest, fail).Ok?
    ensures IgnoreNodeEnd(CommentBody(body + ['-', '-', '>'] + rest, fail).rest, fail) == Ok((), rest)
    decreases |body|
  {
    var s := body + ['-', '-', '>'] + rest;
    if i :| 0 <= i < |body| && body[i] == '-' {
      var m := FirstDash(body, i);
      var y := body[m + 1..] + ['-', '-', '>'] + rest;
      assert s == body[..m] + ['-'] + y;
      var k := body[m + 1..] + ['-', '-'];
      assert forall j :: 0 <= j < |k| ==> k[j] != '>';
      assert y == k + ['>'] + rest;
      hide *;
      CommentTurn(body[..m], y, fail);
      if y[0] == '-' {
        NodeEndIn(k, rest, y, fail);
      } else {
        CommentBodyRead(body[m + 1..], rest, fail);
      }
    } else {
      var y := ['-', '>'] + rest;
      assert s == body + ['-'] + y;
      assert y == ['-'] + ['>'] + rest;
      hide *;
      CommentTurn(body, y, fail);
      NodeEndIn(['-'], rest, y, fail);
    }
  }

  /** A sequence with a '-' at `j` has a first '-'. */
  lemma {:induction false} FirstDash(s: seq<char>, j: int) returns (m: int)
    requires 0 <= j < |s| && s[j] == '-'
    ensures 0 <= m <= j && s[m] == '-' && forall k :: 0 <= k < m ==> s[k] != '-'
    decreases j
  {
    if k :| 0 <= k < j && s[k] == '-' {
      m := FirstDash(s, k);
    } else {
      m := j;
    }
  }

  /** `ignoreSpecialXML` skips a comment through its `-->`, and marks it as text may follow. */
  lemma CommentRead(body: seq<char>, rest: seq<char>, fail: bool)
    requires forall i :: 0 <= i < |body| ==> body[i] != '>'
    ensures IgnoreSpecial(['!', '-', '-'] + body + ['-', '-', '>'] + rest, fail) == Ok(true, rest)
  {
    var c := body + ['-', '-', '>'] + rest;
    var s := ['!', '-', '-'] + body + ['-', '-', '>'] + rest;
    assert Advance(s) == ['-', '-'] + c;
    assert Advance(['-', '-'] + c) == ['-'] + c;
    assert Advance(['-'] + c) == c;
    CommentBodyRead(body, rest, fail);
  }

  const CdataOpen: seq<char> := ['!', '[', 'C', 'D', 'A', 'T', 'A', '[']

  /** `ignoreSpecialXML` skips a CDATA section through its `]]>`. */
  lemma CdataRead(body: seq<char>, rest: seq<char>, fail: bool)
    requires forall i :: 0 <= i < |body| ==> body[i] != '>'
    ensures IgnoreSpecial(CdataOpen + body + [']', ']', '>'] + rest, fail) == Ok(false, rest)
  {
    var s := CdataOpen + body + [']', ']', '>'] + rest;
    var r1 := s[1..];
    var k := CdataOpen[1..] + body + [']', ']'];
    assert r1 == k + ['>'] + rest;
    assert forall i :: 0 <= i < |k| ==> k[i] != '>';
    var at := |CdataOpen| - 1 + |body|;
    assert r1[at] == ']';
    var sc := ScanRaw(r1, fail, Char(']'));
    assert sc.Ok? && r1 == sc.value + sc.rest;
    assert |sc.value| <= at;
    assert IsSuffix(sc.rest, k + ['>'] + rest) && |sc.rest| > |rest|;
    hide *;
    NodeEndIn(k, rest, sc.rest, fail);
    CdataFrom(s, sc.rest, rest, fail);
  }

  /** `ignoreSpecialXML` on "![": the scan for ']', then `ignoreNodeEnd`. */
  lemma CdataFrom(s: seq<char>, z: seq<char>, rest: seq<char>, fail: bool)
    requires |s| > 1 && s[1] == '['
    requires ScanRaw(s[1..], fail, Char(']')).Ok? && z == ScanRaw(s[1..], fail, Char(']')).rest
    requires IgnoreNodeEnd(z, fail) == Ok((), rest)
    ensures IgnoreSpecial(s, fail) == Ok(false, rest)
  {
  }

  /** `ignoreSpecialXML` skips any other declaration through its '>'. */
  lemma DeclarationRead(body: seq<char>, rest: seq<char>, fail: bool)
    requires forall i :: 0 <= i < |body| ==> body[i] != '>'
    requires body == [] || (body[0] != '-' && body[0] != '[')
    ensures IgnoreSpecial(['!'] + body + ['>'] + rest, fail) == Ok(false, rest)
  {
    assert Advance(['!'] + body + ['>'] + rest) == body + ['>'] + rest;
    NodeEndIn(body, rest, body + ['>'] + rest, fail);
  }

  /** `readNode` in front of a character it does not skip as white space: one turn, then more turns while markup is skipped. */
  lemma ReadNodeAt(s: seq<char>, fail: bool, opening: bool)
    requires s != [] && (opening || !IsSpace(s[0]))
    ensures ReadNode(s, fail, opening) ==
      var q := ReadStep(s, fail, opening);
      if q.Err? then Err(q.error)
      else if q.value.Got? then Ok((q.value.node, q.value.node.Open?), q.rest)
      else ReadNode(q.rest, fail, q.value.opening)
  {
    if !opening {
      SkipNone(s, fail);
    }
  }

  /** A turn on "<" and a name character reads an opening node. */
  lemma StepOpening(s: seq<char>, fail: bool, opening: bool)
    requires |s| > 1 && s[0] == '<' && IsNameChar(s[1]) && ParseOpening(s[1..], fail).Ok?
    ensures ReadStep(s, fail, opening) == Ok(Got(ParseOpening(s[1..], fail).value), ParseOpening(s[1..], fail).rest)
  {
    NameCharStops(s[1]);
    assert Peek(s[1..], fail) == Ok(s[1], s[1..]);
    hide IsNameChar, Peek, ParseClosing, IgnoreNodeEnd, IgnoreSpecial, ParseText, ParseOpening;
  }

  /** A turn on "</" reads a closing node. */
  lemma StepClosing(s: seq<char>, fail: bool, opening: bool)
    requires |s| > 1 && s[0] == '<' && s[1] == '/' && ParseClosing(s[1..], fail).Ok?
    ensures ReadStep(s, fail, opening) == Ok(Got(ParseClosing(s[1..], fail).value), ParseClosing(s[1..], fail).rest)
  {
    assert Peek(s[1..], fail) == Ok(s[1], s[1..]);
    hide ParseOpening, IgnoreNodeEnd, IgnoreSpecial, ParseText, ParseClosing;
  }

  /** A turn on "<?" skips through the next '>'. */
  lemma StepInstruction(s: seq<char>, fail: bool, opening: bool)
    requires |s| > 1 && s[0] == '<' && s[1] == '?' && IgnoreNodeEnd(s[1..], fail).Ok?
    ensures ReadStep(s, fail, opening) == Ok(Skipped(opening), IgnoreNodeEnd(s[1..], fail).rest)
  {
    assert Peek(s[1..], fail) == Ok(s[1], s[1..]);
    hide ParseOpening, ParseClosing, IgnoreSpecial, ParseText, IgnoreNodeEnd;
  }

  /** A turn on "<!" skips what `ignoreSpecialXML` skips. */
  lemma StepSpecial(s: seq<char>, fail: bool, opening: bool)
    requires |s| > 1 && s[0] == '<' && s[1] == '!' && IgnoreSpecial(s[1..], fail).Ok?
    ensures ReadStep(s, fail, opening) == Ok(Skipped(opening || IgnoreSpecial(s[1..], fail).value), IgnoreSpecial(s[1..], fail).rest)
  {
    assert Peek(s[1..], fail) == Ok(s[1], s[1..]);
    hide ParseOpening, ParseClosing, IgnoreNodeEnd, ParseText, IgnoreSpecial;
  }

  /** `readNode` on an opening tag: the opening node, and text may follow. */
  lemma ReadsOpening(name: seq<char>, empty: bool, attrs: seq<(seq<char>, seq<char>)>, rest: seq<char>, fail: bool, opening: bool)
    requires IsName(name) && PlainAttributes(attrs)
    ensures ReadNode(OpeningTag(name, empty, attrs) + rest, fail, opening) == Ok((Open(name, empty, attrs), true), rest)
  {
    var s := OpeningTag(name, empty, attrs) + rest;
    assert s[0] == '<' && s[1..] == OpeningTag(name, empty, attrs)[1..] + rest;
    assert s[1] == name[0] && !IsSpace(s[0]);
    hide *;
    OpeningRead(name, empty, attrs, rest, fail);
    StepOpening(s, fail, opening);
    ReadNodeAt(s, fail, opening);
  }

  /** `readNode` on a closing tag: the closing node, and no text may follow. */
  lemma ReadsClosing(name: seq<char>, rest: seq<char>, fail: bool, opening: bool)
    requires forall i :: 0 <= i < |name| ==> IsNameChar(name[i])
    ensures ReadNode(ClosingTag(name) + rest, fail, opening) == Ok((Close(name), false), rest)
  {
    var s := ClosingTag(name) + rest;
    assert s[0] == '<' && s[1..] == ClosingTag(name)[1..] + rest && s[1] == '/' && !IsSpace(s[0]);
    hide *;
    ClosingRead(name, rest, fail);
    StepClosing(s, fail, opening);
    ReadNodeAt(s, fail, opening);
  }

  /** `readNode` skips a processing instruction such as the prolog, and what may follow is unchanged. */
  lemma SkipsInstruction(body: seq<char>, rest: seq<char>, fail: bool, opening: bool)
    requires forall i :: 0 <= i < |body| ==> body[i] != '>'
    ensures ReadNode(['<', '?'] + body + ['>'] + rest, fail, opening) == ReadNode(rest, fail, opening)
  {
    var s := ['<', '?'] + body + ['>'] + rest;
    assert s[0] == '<' && s[1] == '?' && s[1..] == (['?'] + body) + ['>'] + rest;
    assert forall i :: 0 <= i < |['?'] + body| ==> (['?'] + body)[i] != '>';
    assert !IsSpace(s[0]);
    hide *;
    NodeEndIn(['?'] + body, rest, s[1..], fail);
    StepInstruction(s, fail, opening);
    ReadNodeAt(s, fail, opening);
  }

  /** `readNode` skips a comment, after which text may follow. */
  lemma SkipsComment(body: seq<char>, rest: seq<char>, fail: bool, opening: bool)
    requires forall i :: 0 <= i < |body| ==> body[i] != '>'
    ensures ReadNode(['<', '!', '-', '-'] + body + ['-', '-', '>'] + rest, fail, opening) == ReadNode(rest, fail, true)
  {
    var s := ['<', '!', '-', '-'] + body + ['-', '-', '>'] + rest;
    assert s[0] == '<' && s[1] == '!' && s[1..] == ['!', '-', '-'] + body + ['-', '-', '>'] + rest && !IsSpace(s[0]);
    hide *;
    CommentRead(body, rest, fail);
    StepSpecial(s, fail, opening);
    ReadNodeAt(s, fail, opening);
  }

  /** `readNode` skips a CDATA section, and what may follow is unchanged. */
  lemma SkipsCdata(body: seq<char>, rest: seq<char>, fail: bool, opening: bool)
    requires forall i :: 0 <= i < |body| ==> body[i] != '>'
    ensures ReadNode(['<'] + CdataOpen + body + [']', ']', '>'] + rest, fail, opening) == ReadNode(rest, fail, opening)
  {
    var s := ['<'] + CdataOpen + body + [']', ']', '>'] + rest;
    assert s[0] == '<' && s[1] == '!' && s[1..] == CdataOpen + body + [']', ']', '>'] + rest && !IsSpace(s[0]);
    hide *;
    CdataRead(body, rest, fail);
    StepSpecial(s, fail, opening);
    ReadNodeAt(s, fail, opening);
  }

  /** `readNode` skips a declaration other than a comment or a CDATA section, and what may follow is unchanged. */
  lemma SkipsDeclaration(body: seq<char>, rest: seq<char>, fail: bool, opening: bool)
    requires forall i :: 0 <= i < |body| ==> body[i] != '>'
    requires body == [] || (body[0] != '-' && body[0] != '[')
    ensures ReadNode(['<', '!'] + body + ['>'] + rest, fail, opening) == ReadNode(rest, fail, opening)
  {
    var s := ['<', '!'] + body + ['>'] + rest;
    assert s[0] == '<' && s[1] == '!' && s[1..] == ['!'] + body + ['>'] + rest && !IsSpace(s[0]);
    hide *;
    DeclarationRead(body, rest, fail);
    StepSpecial(s, fail, opening);
    ReadNodeAt(s, fail, opening);
  }

  /** `readNode` after an opening node, on text without markup or references: the text node, and no more text may follow. */
  lemma ReadsText(text: seq<char>, rest: seq<char>, fail: bool)
    requires text != [] && text[0] != '\0' && !AllSpace(text)
    requires forall i :: 0 <= i < |text| ==> text[i] != '<' && text[i] != '&'
    ensures ReadNode(text + ['<'] + rest, fail, true) == Ok((Text(text), false), ['<'] + rest)
  {
    var s := text + ['<'] + rest;
    assert s == text + (['<'] + rest) && s[0] == text[0];
    hide *;
    ScanDecodedOver(text, ['<'] + rest, fail, Char('<'));
    TextStep(s, text, ['<'] + rest, fail);
    ReadNodeAt(s, fail, true);
  }

  /** A turn where text may stand, on a character other than '<' and '\0': `parseTextNode`. */
  lemma TextStep(s: seq<char>, text: seq<char>, rest: seq<char>, fail: bool)
    requires s != [] && s[0] != '<' && s[0] != '\0' && ScanDecoded(s, fail, Char('<')) == Ok(text, rest)
    ensures ReadStep(s, fail, true) == Ok(if AllSpace(text) then Skipped(false) else Got(Text(text)), rest)
  {
  }

  /** `readNode` after an opening node drops text of white space alone, and reads on as if no text may follow. */
  lemma DropsSpace(text: seq<char>, rest: seq<char>, fail: bool)
    requires text != [] && AllSpace(text)
    ensures ReadNode(text + ['<'] + rest, fail, true) == ReadNode(['<'] + rest, fail, false)
  {
    var s := text + ['<'] + rest;
    assert s == text + (['<'] + rest) && s[0] == text[0];
    assert forall i :: 0 <= i < |text| ==> Continues(Char('<'), text[i]) && text[i] != '&';
    hide *;
    ScanDecodedOver(text, ['<'] + rest, fail, Char('<'));
    TextStep(s, text, ['<'] + rest, fail);
    ReadNodeAt(s, fail, true);
  }

  /** `skipWhitespace` drops leading white space. */
  lemma {:induction false} SkipSpaces(sp: seq<char>, rest: seq<char>, fail: bool)
    requires AllSpace(sp)
    ensures SkipSpace(sp + rest, fail) == SkipSpace(rest, fail)
  {
    if sp != [] {
      var s := sp + rest;
      assert s != [] && s[0] == sp[0] && IsSpace(s[0]) && s[1..] == sp[1..] + rest;
      assert SkipSpace(s, fail) == SkipSpace(s[1..], fail);
      SkipSpaces(sp[1..], rest, fail);
    } else {
      assert sp + rest == rest;
    }
  }

  /** Where no text may stand, any character other than white space, '<' or '\0' is "Unexpected character". */
  lemma StrayCharacter(c: char, rest: seq<char>, fail: bool)
    requires c != '<' && c != '\0' && !IsSpace(c)
    ensures ReadNode([c] + rest, fail, false) == Err(UnexpectedChar(c))
  {
    ReadNodeAt([c] + rest, fail, false);
  }

  /** Once the data has ended with white space only, `readNode` gives the end node; a failing read is an error instead. */
  lemma ReadsEnd(sp: seq<char>, fail: bool, opening: bool)
    requires AllSpace(sp) && (opening ==> sp == [])
    ensures ReadNode(sp, fail, opening) == (if fail then Err(ReadError) else Ok((End, opening), []))
  {
    if !opening {
      SkipSpaces(sp, [], fail);
      assert sp + [] == sp;
    }
  }
}
