/**
 * Reference semantics of the streaming XML reader (`oxml::Reader`), stated
 * on the flat text that remains to be read rather than on a buffer that is
 * refilled in pieces.
 *
 * Every function takes `s`, the characters not yet consumed, and `fail`,
 * which says whether the byte source reports a read error once `s` is
 * exhausted (otherwise it reports the end of the data). A function returns
 * what it read together with the part of `s` it left unconsumed, or the
 * error that the reader throws. These are the reader's operations as
 * intended: the buffered `peek`, `skipWhitespace` and raw scans, and the
 * corrected replacing scan of module `OxmlDecode`, are proved to compute
 * them whatever the sizes of the pieces the source delivers; module
 * `OxmlFindings` shows inputs on which the original, as written, does not.
 */
module OxmlSpec {

  import opened Chars
  import Utf8

  /** The `std::runtime_error`s the reader throws. */
  datatype Error =
    | ReadError                 // the read callback returned a negative count
    | UnexpectedEnd             // a scan ran into the end of the data
    | UnexpectedChar(c: char)   // text outside a node where none may stand
    | OutsideBuffer             // `nullTerminate` asked to end a view that does not lie in the buffer
    | Undefined                 // not thrown: the reader reads or writes outside its buffer, which C++ leaves undefined

  datatype Res<T> = Ok(value: T, rest: seq<char>) | Err(error: Error)

  /** A node as the reader's client sees it, with the text of every view. */
  datatype Node =
    | Open(name: seq<char>, empty: bool, attributes: seq<(seq<char>, seq<char>)>)
    | Close(name: seq<char>)
    | Text(text: seq<char>)
    | End

  /** What a scan keeps going over: the characters of a name, or anything but a terminator. */
  datatype Until = Name | Char(terminator: char)

  predicate Continues(u: Until, c: char)
  {
    match u
    case Name => IsNameChar(c)
    case Char(t) => c != t
  }

  predicate IsSuffix(r: seq<char>, s: seq<char>)
  {
    |r| <= |s| && r == s[|s| - |r|..]
  }

  /** The error raised when a character is needed and the input has none left. */
  function OutOfData(fail: bool): Error
  {
    if fail then ReadError else UnexpectedEnd
  }

  /** `peek`: the next character, or '\0' once the data has ended. */
  function Peek(s: seq<char>, fail: bool): (r: Res<char>)
    ensures r.Ok? ==> r.rest == s && r.value == (if s == [] then '\0' else s[0])
    ensures r.Err? <==> s == [] && fail
    ensures r.Err? ==> r.error == ReadError
  {
    if s != [] then Ok(s[0], s)
    else if fail then Err(ReadError)
    else Ok('\0', s)
  }

  /** `advance`: drops the next character if there is one. */
  function Advance(s: seq<char>): (r: seq<char>)
    ensures IsSuffix(r, s)
    ensures s != [] ==> |r| == |s| - 1
  {
    if s == [] then s else s[1..]
  }

  /** `skipWhitespace`. */
  function SkipSpace(s: seq<char>, fail: bool): (r: Res<()>)
    ensures r.Ok? ==> IsSuffix(r.rest, s) && AllSpace(s[..|s| - |r.rest|])
    ensures r.Ok? ==> r.rest == [] || !IsSpace(r.rest[0])
    ensures r.Err? ==> r.error == ReadError && fail && AllSpace(s)
  {
    if s == [] then (if fail then Err(ReadError) else Ok((), s))
    else if !IsSpace(s[0]) then Ok((), s)
    else
      var r := SkipSpace(s[1..], fail);
      assert r.Ok? ==> s[..|s| - |r.rest|] == [s[0]] + s[1..][..|s| - 1 - |r.rest|];
      r
  }

  /** `skipWhitespace` decides on the character `peek` returns: it stops in front of it, fails with it, or drops it and goes on. */
  lemma SkipAtPeek(s: seq<char>, fail: bool)
    ensures Peek(s, fail).Err? ==> SkipSpace(s, fail) == Err(ReadError)
    ensures Peek(s, fail).Ok? && !IsSpace(Peek(s, fail).value) ==> SkipSpace(s, fail) == Ok((), s)
    ensures Peek(s, fail).Ok? && IsSpace(Peek(s, fail).value) ==> s != [] && SkipSpace(s, fail) == SkipSpace(Advance(s), fail)
  {
  }

  /**
   * A scan that leaves character references alone: the longest prefix of
   * `s` whose characters all continue `u`; it stops in front of the first
   * one that does not, which must be present.
   */
  function ScanRaw(s: seq<char>, fail: bool, u: Until): (r: Res<seq<char>>)
    ensures r.Ok? ==> s == r.value + r.rest && r.rest != [] && !Continues(u, r.rest[0])
    ensures r.Ok? ==> forall i :: 0 <= i < |r.value| ==> Continues(u, r.value[i])
    ensures r.Err? ==> r.error == OutOfData(fail) && forall i :: 0 <= i < |s| ==> Continues(u, s[i])
  {
    if s == [] then Err(OutOfData(fail))
    else if !Continues(u, s[0]) then Ok([], s)
    else
      match ScanRaw(s[1..], fail, u)
      case Err(e) => Err(e)
      case Ok(v, rest) => Ok([s[0]] + v, rest)
  }

  /**
   * Scanning `s0` amounts to having read `seen` and scanning `s` from there
   * on; these three lemmas take that one character further, or finish.
   */
  lemma ScanRawNext(s0: seq<char>, s: seq<char>, seen: seq<char>, fail: bool, u: Until)
    requires ScanRaw(s0, fail, u) == Prepend(seen, ScanRaw(s, fail, u))
    requires s != [] && Continues(u, s[0])
    ensures ScanRaw(s0, fail, u) == Prepend(seen + [s[0]], ScanRaw(s[1..], fail, u))
  {
    PrependTwice(seen, [s[0]], ScanRaw(s[1..], fail, u));
  }

  lemma ScanRawStop(s0: seq<char>, s: seq<char>, seen: seq<char>, fail: bool, u: Until)
    requires ScanRaw(s0, fail, u) == Prepend(seen, ScanRaw(s, fail, u))
    requires s != [] && !Continues(u, s[0])
    ensures ScanRaw(s0, fail, u) == Ok(seen, s)
  {
    assert seen + [] == seen;
  }

  lemma ScanRawOut(s0: seq<char>, seen: seq<char>, fail: bool, u: Until)
    requires ScanRaw(s0, fail, u) == Prepend(seen, ScanRaw([], fail, u))
    ensures ScanRaw(s0, fail, u) == Err(OutOfData(fail))
  {
  }

  lemma ScanRawFrom(s: seq<char>, fail: bool, u: Until)
    ensures ScanRaw(s, fail, u) == Prepend([], ScanRaw(s, fail, u))
  {
    if ScanRaw(s, fail, u).Ok? {
      assert [] + ScanRaw(s, fail, u).value == ScanRaw(s, fail, u).value;
    }
  }

  /** The five predefined entities of section 4.6 of XML 1.0, in the order the reader searches them. */
  const PredefinedEntities: seq<(seq<char>, char)> :=
    [("amp", '&'), ("lt", '<'), ("gt", '>'), ("apos", '\''), ("quot", '"')]

  /** The character a predefined entity stands for, searching the table from index `i` on. */
  function EntityFrom(name: seq<char>, i: nat): (r: Option<char>)
    requires i <= |PredefinedEntities|
    ensures r.Some? ==> exists j :: i <= j < |PredefinedEntities| && PredefinedEntities[j] == (name, r.value)
    ensures r.None? ==> forall j :: i <= j < |PredefinedEntities| ==> PredefinedEntities[j].0 != name
    decreases |PredefinedEntities| - i
  {
    if i == |PredefinedEntities| then None
    else if PredefinedEntities[i].0 == name then Some(PredefinedEntities[i].1)
    else EntityFrom(name, i + 1)
  }

  function Entity(name: seq<char>): Option<char>
  {
    EntityFrom(name, 0)
  }

  /**
   * What the reference `&name;` is replaced by: the character of a
   * predefined entity; for `&#x…;` and `&#…;`, the UTF-8 bytes of the code
   * point the hexadecimal or decimal digits give (section 4.1 of XML 1.0);
   * otherwise, and for the digitless `&#x;`, the reference itself. The
   * replacement is never longer than the reference, so it can be written
   * over it.
   */
  function Reference(name: seq<char>): (r: seq<char>)
    ensures |r| <= |name| + 2
    ensures Entity(name).Some? ==> r == [Entity(name).value]
    ensures Entity(name).None? && (|name| < 2 || name[0] != '#') ==> r == "&" + name + ";"
  {
    match Entity(name)
    case Some(c) => [c]
    case None =>
      if |name| >= 2 && name[0] == '#' then
        if name[1] == 'x' then
          if |name| > 2 then NumericReference(name[2..], 16) else "&" + name + ";"
        else NumericReference(name[1..], 10)
      else "&" + name + ";"
  }

  /** The UTF-8 bytes of the code point that the digits `digits` of `base` give (0 when they give none). */
  function NumericReference(digits: seq<char>, base: nat): (r: seq<char>)
    requires Utf8.IsBase(base) && |digits| >= 1
    ensures |r| <= |digits| + 1
  {
    Utf8.FromCharsFits(digits, base);
    Utf8.Encode(Utf8.FromChars(digits, base))
  }

  function Prepend(p: seq<char>, r: Res<seq<char>>): (q: Res<seq<char>>)
    ensures q.Ok? <==> r.Ok?
    ensures q.Ok? ==> q.rest == r.rest
  {
    match r
    case Ok(v, rest) => Ok(p + v, rest)
    case Err(e) => Err(e)
  }

  lemma PrependTwice(p: seq<char>, q: seq<char>, r: Res<seq<char>>)
    ensures Prepend(p, Prepend(q, r)) == Prepend(p + q, r)
  {
    if r.Ok? {
      assert p + (q + r.value) == (p + q) + r.value;
    }
  }

  /**
   * A scan that replaces character references as it goes: like `ScanRaw`,
   * except that an '&' which continues `u` starts a reference that runs up
   * to the next ';', wherever that is, and stands for `Reference` of the
   * characters in between.
   */
  function ScanDecoded(s: seq<char>, fail: bool, u: Until): (r: Res<seq<char>>)
    ensures r.Ok? ==> |r.rest| <= |s| && r.rest != [] && !Continues(u, r.rest[0])
    decreases |s|
  {
    if s == [] then Err(OutOfData(fail))
    else if !Continues(u, s[0]) then Ok([], s)
    else if s[0] == '&' then
      match ScanRaw(s[1..], fail, Char(';'))
      case Err(e) => Err(e)
      case Ok(name, r) => Prepend(Reference(name), ScanDecoded(r[1..], fail, u))
    else Prepend([s[0]], ScanDecoded(s[1..], fail, u))
  }

  /** `parseName`. */
  function ParseName(s: seq<char>, fail: bool): (r: Res<seq<char>>)
  {
    ScanDecoded(s, fail, Name)
  }

  /**
   * One turn of the attribute loop of `parseOpeningNode`: a name, one
   * skipped character (the '='), a quote character, the value up to the
   * same quote with references replaced, the closing quote, and white space.
   */
  function Attribute(s: seq<char>, fail: bool): (r: Res<(seq<char>, seq<char>)>)
    ensures r.Ok? ==> |r.rest| < |s|
  {
    match ParseName(s, fail)
    case Err(e) => Err(e)
    case Ok(attr, r1) =>
      var r2 := Advance(r1);
      match Peek(r2, fail)
      case Err(e) => Err(e)
      case Ok(quote, _) =>
        var r3 := Advance(r2);
        match ScanDecoded(r3, fail, Char(quote))
        case Err(e) => Err(e)
        case Ok(value, r4) =>
          match SkipSpace(Advance(r4), fail)
          case Err(e) => Err(e)
          case Ok(_, r5) => Ok((attr, value), r5)
  }

  /** The attribute loop of `parseOpeningNode`, with the attributes read so far in `acc`: it runs until '/' or '>' comes next. */
  function Attributes(s: seq<char>, fail: bool, acc: seq<(seq<char>, seq<char>)>): (r: Res<seq<(seq<char>, seq<char>)>>)
    ensures r.Ok? ==> |r.rest| <= |s| && r.rest != [] && (r.rest[0] == '/' || r.rest[0] == '>')
    ensures r.Ok? ==> |r.value| >= |acc| && r.value[..|acc|] == acc
    decreases |s|
  {
    match Peek(s, fail)
    case Err(e) => Err(e)
    case Ok(c, _) =>
      if c == '/' || c == '>' then Ok(acc, s)
      else
        match Attribute(s, fail)
        case Err(e) => Err(e)
        case Ok(a, r1) =>
          var r := Attributes(r1, fail, acc + [a]);
          assert r.Ok? ==> r.value[..|acc|] == (acc + [a])[..|acc|];
          r
  }

  /** `parseOpeningNode`, on the text after the '<'. The '>' that ends the tag is peeked before it is skipped. */
  function ParseOpening(s: seq<char>, fail: bool): (r: Res<Node>)
    ensures r.Ok? ==> |r.rest| < |s| && r.value.Open?
  {
    match ParseName(s, fail)
    case Err(e) => Err(e)
    case Ok(name, r1) =>
      match SkipSpace(r1, fail)
      case Err(e) => Err(e)
      case Ok(_, r2) =>
        match Attributes(r2, fail, [])
        case Err(e) => Err(e)
        case Ok(attrs, r3) =>
          var empty := r3[0] == '/';
          var r4 := if empty then Advance(r3) else r3;
          match Peek(r4, fail)
          case Err(e) => Err(e)
          case Ok(_, _) => Ok(Open(name, empty, attrs), Advance(r4))
  }

  /** `parseClosingNode`, on the text that starts with the '/' after the '<'. */
  function ParseClosing(s: seq<char>, fail: bool): (r: Res<Node>)
    ensures r.Ok? ==> |r.rest| < |s| && r.value.Close?
  {
    match ParseName(Advance(s), fail)
    case Err(e) => Err(e)
    case Ok(name, r1) => Ok(Close(name), Advance(r1))
  }

  /** `parseTextNode`: the text up to the next '<'; a text of white space only is dropped. */
  function ParseText(s: seq<char>, fail: bool): (r: Res<Option<Node>>)
    ensures r.Ok? ==> |r.rest| <= |s| && r.rest != [] && r.rest[0] == '<'
    ensures r.Ok? && r.value.Some? ==> r.value.value.Text? && !AllSpace(r.value.value.text)
  {
    match ScanDecoded(s, fail, Char('<'))
    case Err(e) => Err(e)
    case Ok(text, r1) => Ok(if AllSpace(text) then None else Some(Text(text)), r1)
  }

  /** `ignoreNodeEnd`: everything up to and including the next '>'. */
  function IgnoreNodeEnd(s: seq<char>, fail: bool): (r: Res<()>)
    ensures r.Ok? ==> |r.rest| < |s|
    ensures r.Ok? ==> s[|s| - |r.rest| - 1] == '>' && forall i :: 0 <= i < |s| - |r.rest| - 1 ==> s[i] != '>'
  {
    match ScanRaw(s, fail, Char('>'))
    case Err(e) => Err(e)
    case Ok(_, r1) => Ok((), Advance(r1))
  }

  /**
   * The do-while loop of `ignoreSpecialXML` over a comment: skip to the next
   * '-' and past it, until a second '-' follows or the data has ended.
   */
  function CommentBody(s: seq<char>, fail: bool): (r: Res<()>)
    ensures r.Ok? ==> |r.rest| < |s|
    decreases |s|
  {
    match ScanRaw(s, fail, Char('-'))
    case Err(e) => Err(e)
    case Ok(_, r1) =>
      var r2 := Advance(r1);
      match Peek(r2, fail)
      case Err(e) => Err(e)
      case Ok(c, _) =>
        if c == '-' || r2 == [] then Ok((), r2)
        else CommentBody(r2, fail)
  }

  /**
   * After `<!-`: a second '-' opens a comment, skipped up to the `--` that
   * ends it and then to the '>'; the result says whether it was one. Any
   * other character leaves the rest as it is.
   */
  function IgnoreComment(s: seq<char>, fail: bool): (r: Res<bool>)
    requires s != []
    ensures r.Ok? ==> |r.rest| < |s|
  {
    var r2 := Advance(s);
    match Peek(r2, fail)
    case Err(e) => Err(e)
    case Ok(c2, _) =>
      if c2 == '-' then
        match CommentBody(Advance(r2), fail)
        case Err(e) => Err(e)
        case Ok(_, r3) =>
          match IgnoreNodeEnd(r3, fail)
          case Err(e) => Err(e)
          case Ok(_, r4) => Ok(true, r4)
      else Ok(false, r2)
  }

  /**
   * `ignoreSpecialXML`, on the text that starts with the '!' after the '<':
   * a comment, a CDATA section (up to the first ']', then to the next '>'),
   * or another declaration. The value says whether the reader afterwards
   * accepts text as if an opening node had just been read, which a comment
   * makes it do.
   */
  function IgnoreSpecial(s: seq<char>, fail: bool): (r: Res<bool>)
    requires s != []
    ensures r.Ok? ==> |r.rest| < |s|
  {
    var r1 := Advance(s);
    match Peek(r1, fail)
    case Err(e) => Err(e)
    case Ok(c, _) =>
      if c == '-' then IgnoreComment(r1, fail)
      else if c == '[' then
        match ScanRaw(r1, fail, Char(']'))
        case Err(e) => Err(e)
        case Ok(_, r2) =>
          match IgnoreNodeEnd(r2, fail)
          case Err(e) => Err(e)
          case Ok(_, r3) => Ok(false, r3)
      else
        match IgnoreNodeEnd(r1, fail)
        case Err(e) => Err(e)
        case Ok(_, r2) => Ok(false, r2)
  }

  /** What one turn of the loop of `readNode` yields: a node, or markup that was skipped. */
  datatype Step = Got(node: Node) | Skipped(opening: bool)

  /**
   * One turn of the loop of `readNode` once a character is known to be
   * present: after '<' (or '\0'), a closing node, an ignored prolog or
   * declaration, or an opening node; otherwise, where text may stand, a text
   * node or nothing; anywhere else an error.
   */
  function ReadStep(r: seq<char>, fail: bool, opening: bool): (q: Res<Step>)
    requires r != []
    ensures q.Ok? ==> |q.rest| < |r|
    ensures q.Ok? && q.value.Got? ==> !q.value.node.End?
    ensures r[0] != '<' && r[0] != '\0' && !opening ==> q == Err(UnexpectedChar(r[0]))
    ensures q.Ok? && q.value.Got? && q.value.node.Close? ==> (r[0] == '<' || r[0] == '\0') && |r| > 1 && r[1] == '/'
    ensures q.Ok? && q.value.Got? && q.value.node.Open? ==> (r[0] == '<' || r[0] == '\0') && (|r| > 1 ==> r[1] != '/' && r[1] != '?' && r[1] != '!')
    ensures q.Ok? && q.value.Got? && q.value.node.Text? ==> r[0] != '<' && r[0] != '\0' && opening
    ensures q.Ok? && q.value.Skipped? ==>
      if r[0] == '<' || r[0] == '\0' then |r| > 1 && (r[1] == '?' || r[1] == '!') && (r[1] == '?' ==> q.value.opening == opening)
      else opening && !q.value.opening
  {
    if r[0] == '<' || r[0] == '\0' then
      var r1 := r[1..];
      match Peek(r1, fail)
      case Err(e) => Err(e)
      case Ok(c, _) =>
        if c == '/' then
          match ParseClosing(r1, fail)
          case Err(e) => Err(e)
          case Ok(n, r2) => Ok(Got(n), r2)
        else if c == '?' then
          match IgnoreNodeEnd(r1, fail)
          case Err(e) => Err(e)
          case Ok(_, r2) => Ok(Skipped(opening), r2)
        else if c == '!' then
          match IgnoreSpecial(r1, fail)
          case Err(e) => Err(e)
          case Ok(marks, r2) => Ok(Skipped(opening || marks), r2)
        else
          match ParseOpening(r1, fail)
          case Err(e) => Err(e)
          case Ok(n, r2) => Ok(Got(n), r2)
    else if opening then
      match ParseText(r, fail)
      case Err(e) => Err(e)
      case Ok(t, r2) => if t.Some? then Ok(Got(t.value), r2) else Ok(Skipped(false), r2)
    else Err(UnexpectedChar(r[0]))
  }

  /**
   * `readNode`, where `opening` is the reader's `lastNodeWasOpening`: the
   * next node and the new value of that flag. An opening node sets the
   * flag, a closing or text node clears it, a comment sets it, and a text
   * of white space only clears it too.
   */
  function ReadNode(s: seq<char>, fail: bool, opening: bool): (r: Res<(Node, bool)>)
    ensures r.Ok? ==> |r.rest| <= |s|
    ensures r.Ok? && r.value.0.End? ==> r.rest == []
    ensures r.Ok? && !r.value.0.End? ==> r.value.1 == r.value.0.Open?
    decreases |s|
  {
    match ReadStart(s, fail, opening)
    case Err(e) => Err(e)
    case Ok(_, r) =>
      if r == [] then Ok((End, opening), r)
      else
        var q := ReadStep(r, fail, opening);
        if q.Err? then Err(q.error)
        else if q.value.Got? then Ok((q.value.node, q.value.node.Open?), q.rest)
        else ReadNode(q.rest, fail, q.value.opening)
  }

  /** The start of each turn of the loop of `readNode`: white space is skipped unless text may follow. */
  function ReadStart(s: seq<char>, fail: bool, opening: bool): (r: Res<()>)
    ensures r.Ok? ==> |r.rest| <= |s|
    ensures r.Ok? && opening ==> r.rest == s
    ensures r.Err? <==> (if opening then s == [] && fail else SkipSpace(s, fail).Err?)
  {
    if !opening then SkipSpace(s, fail) else if s == [] && fail then Err(ReadError) else Ok((), s)
  }
}
