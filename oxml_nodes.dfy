/**
 * The nodes the streaming XML reader hands out, and the string views they
 * are made of. A view is an offset into the reader's buffer and a length;
 * when the reader moves its data, the views of the node it is building are
 * shifted by the same distance.
 */
module OxmlNodes {

  import S = OxmlSpec

  /** A `std::string_view` into the reader's buffer: the offset of its first character and its length. */
  datatype View = View(start: int, size: nat)

  /** A default-constructed view (null data pointer, length 0). */
  const NullView: View := View(-1, 0)

  /** `NodeType`: exactly four kinds of node. */
  datatype NodeType = OPENING | CLOSING | TEXT | END

  datatype Node =
    | OpeningNode(name: View, empty: bool, attributes: seq<(View, View)>)
    | ClosingNode(name: View)
    | TextNode(text: View)
    | EndNode

  /** `getType`. */
  function TypeOf(n: Node): (t: NodeType)
    ensures t == OPENING <==> n.OpeningNode?
    ensures t == CLOSING <==> n.ClosingNode?
    ensures t == TEXT <==> n.TextNode?
    ensures t == END <==> n.EndNode?
  {
    match n
    case OpeningNode(_, _, _) => OPENING
    case ClosingNode(_) => CLOSING
    case TextNode(_) => TEXT
    case EndNode => END
  }

  /** `shiftStringView`: a non-empty view moves by `d`; an empty one stays where it is. */
  function ShiftView(v: View, d: int): View
  {
    if v.size == 0 then v else View(v.start + d, v.size)
  }

  function ShiftAttributes(attrs: seq<(View, View)>, d: int): (r: seq<(View, View)>)
    ensures |r| == |attrs|
  {
    if attrs == [] then []
    else
      var last := attrs[|attrs| - 1];
      ShiftAttributes(attrs[..|attrs| - 1], d) + [(ShiftView(last.0, d), ShiftView(last.1, d))]
  }

  /** `shiftData`: the name and every attribute name and value of an opening node, the name of a closing node, the text of a text node. */
  function ShiftNode(n: Node, d: int): Node
  {
    match n
    case OpeningNode(name, empty, attrs) => OpeningNode(ShiftView(name, d), empty, ShiftAttributes(attrs, d))
    case ClosingNode(name) => ClosingNode(ShiftView(name, d))
    case TextNode(text) => TextNode(ShiftView(text, d))
    case EndNode => EndNode
  }

  /** A non-empty view lies in `[lo, hi)`; an empty one may be anywhere. */
  predicate ViewIn(v: View, lo: int, hi: int)
  {
    v.size == 0 || (lo <= v.start && v.start + v.size <= hi)
  }

  predicate AttributesIn(attrs: seq<(View, View)>, lo: int, hi: int)
  {
    attrs == [] || (AttributesIn(attrs[..|attrs| - 1], lo, hi) && ViewIn(attrs[|attrs| - 1].0, lo, hi) && ViewIn(attrs[|attrs| - 1].1, lo, hi))
  }

  predicate NodeIn(n: Node, lo: int, hi: int)
  {
    match n
    case OpeningNode(name, _, attrs) => ViewIn(name, lo, hi) && AttributesIn(attrs, lo, hi)
    case ClosingNode(name) => ViewIn(name, lo, hi)
    case TextNode(text) => ViewIn(text, lo, hi)
    case EndNode => true
  }

  /** The text a view shows in the buffer contents `b`. */
  function ViewText(b: seq<char>, v: View): (t: seq<char>)
    requires ViewIn(v, 0, |b|)
    ensures |t| == v.size
  {
    if v.size == 0 then [] else b[v.start..v.start + v.size]
  }

  function RenderAttributes(b: seq<char>, attrs: seq<(View, View)>): (r: seq<(seq<char>, seq<char>)>)
    requires AttributesIn(attrs, 0, |b|)
    ensures |r| == |attrs|
  {
    if attrs == [] then []
    else
      var last := attrs[|attrs| - 1];
      RenderAttributes(b, attrs[..|attrs| - 1]) + [(ViewText(b, last.0), ViewText(b, last.1))]
  }

  /** What a node says, read from the buffer contents `b`. */
  function Render(b: seq<char>, n: Node): S.Node
    requires NodeIn(n, 0, |b|)
  {
    match n
    case OpeningNode(name, empty, attrs) => S.Open(ViewText(b, name), empty, RenderAttributes(b, attrs))
    case ClosingNode(name) => S.Close(ViewText(b, name))
    case TextNode(text) => S.Text(ViewText(b, text))
    case EndNode => S.End
  }

  /**
   * A view of the node the reader is building: a non-empty one lies in
   * `[lo, hi)`, the data kept since the node began, and ends before the last
   * slot of a buffer of `length` characters; an empty one is never shifted
   * and lies anywhere before the end.
   */
  predicate ViewKept(v: View, lo: int, hi: int, length: int)
  {
    if v.size == 0 then v.start < length
    else lo <= v.start && v.start + v.size <= hi && v.start + v.size < length
  }

  predicate AttributesKept(attrs: seq<(View, View)>, lo: int, hi: int, length: int)
  {
    attrs == [] || (AttributesKept(attrs[..|attrs| - 1], lo, hi, length) && ViewKept(attrs[|attrs| - 1].0, lo, hi, length) && ViewKept(attrs[|attrs| - 1].1, lo, hi, length))
  }

  predicate NodeKept(n: Node, lo: int, hi: int, length: int)
  {
    match n
    case OpeningNode(name, _, attrs) => ViewKept(name, lo, hi, length) && AttributesKept(attrs, lo, hi, length)
    case ClosingNode(name) => ViewKept(name, lo, hi, length)
    case TextNode(text) => ViewKept(text, lo, hi, length)
    case EndNode => false
  }

  /** A view can be null-terminated in a buffer of `length` characters: the slot after it lies in the buffer. */
  predicate ViewFits(v: View, length: int)
  {
    0 <= v.start && v.start + v.size < length
  }

  /** Shifting by `a` and then by `b` is shifting by `a + b`. */
  lemma ShiftTwice(n: Node, a: int, b: int)
    ensures ShiftNode(ShiftNode(n, a), b) == ShiftNode(n, a + b)
  {
    if n.OpeningNode? {
      ShiftAttributesTwice(n.attributes, a, b);
    }
  }

  lemma {:induction false} ShiftAttributesTwice(attrs: seq<(View, View)>, a: int, b: int)
    ensures ShiftAttributes(ShiftAttributes(attrs, a), b) == ShiftAttributes(attrs, a + b)
  {
    if attrs != [] {
      var r := ShiftAttributes(attrs, a);
      assert r[..|r| - 1] == ShiftAttributes(attrs[..|attrs| - 1], a);
      ShiftAttributesTwice(attrs[..|attrs| - 1], a, b);
    }
  }

  /** Shifting by 0 changes nothing. */
  lemma ShiftZero(n: Node)
    ensures ShiftNode(n, 0) == n
  {
    if n.OpeningNode? {
      ShiftAttributesZero(n.attributes);
    }
  }

  lemma {:induction false} ShiftAttributesZero(attrs: seq<(View, View)>)
    ensures ShiftAttributes(attrs, 0) == attrs
  {
    if attrs != [] {
      ShiftAttributesZero(attrs[..|attrs| - 1]);
      assert attrs == attrs[..|attrs| - 1] + [attrs[|attrs| - 1]];
    }
  }

  /**
   * When the characters in `[lo, hi)` of `b` reappear `d` places further in
   * `b2`, a node whose views lie in `[lo, hi)` and the same node shifted by
   * `d` say the same thing. With `d == 0` this is the frame property: writes
   * outside `[lo, hi)` leave the node's text alone.
   */
  lemma RenderMoved(b: seq<char>, b2: seq<char>, n: Node, lo: int, hi: int, d: int)
    requires NodeIn(n, lo, hi) && NodeIn(n, 0, |b|) && 0 <= lo <= hi <= |b| && 0 <= lo + d && hi + d <= |b2|
    requires b2[lo + d..hi + d] == b[lo..hi]
    ensures NodeIn(ShiftNode(n, d), lo + d, hi + d) && NodeIn(ShiftNode(n, d), 0, |b2|)
    ensures Render(b2, ShiftNode(n, d)) == Render(b, n)
  {
    match n
    case OpeningNode(name, empty, attrs) =>
      ViewMoved(b, b2, name, lo, hi, d);
      AttributesMoved(b, b2, attrs, lo, hi, d);
    case ClosingNode(name) => ViewMoved(b, b2, name, lo, hi, d);
    case TextNode(text) => ViewMoved(b, b2, text, lo, hi, d);
    case EndNode =>
  }

  lemma {:induction false} AttributesMoved(b: seq<char>, b2: seq<char>, attrs: seq<(View, View)>, lo: int, hi: int, d: int)
    requires AttributesIn(attrs, lo, hi) && AttributesIn(attrs, 0, |b|) && 0 <= lo <= hi <= |b| && 0 <= lo + d && hi + d <= |b2|
    requires b2[lo + d..hi + d] == b[lo..hi]
    ensures AttributesIn(ShiftAttributes(attrs, d), lo + d, hi + d) && AttributesIn(ShiftAttributes(attrs, d), 0, |b2|)
    ensures RenderAttributes(b2, ShiftAttributes(attrs, d)) == RenderAttributes(b, attrs)
  {
    if attrs != [] {
      var init, last := attrs[..|attrs| - 1], attrs[|attrs| - 1];
      var r := ShiftAttributes(attrs, d);
      assert r[..|r| - 1] == ShiftAttributes(init, d);
      AttributesMoved(b, b2, init, lo, hi, d);
      ViewMoved(b, b2, last.0, lo, hi, d);
      ViewMoved(b, b2, last.1, lo, hi, d);
    }
  }

  lemma ViewMoved(b: seq<char>, b2: seq<char>, v: View, lo: int, hi: int, d: int)
    requires ViewIn(v, lo, hi) && 0 <= lo <= hi <= |b| && 0 <= lo + d && hi + d <= |b2|
    requires b2[lo + d..hi + d] == b[lo..hi]
    ensures ViewIn(ShiftView(v, d), lo + d, hi + d) && ViewIn(ShiftView(v, d), 0, |b2|)
    ensures ViewText(b2, ShiftView(v, d)) == ViewText(b, v)
  {
    if v.size > 0 {
      SliceOfSlice(b2, lo + d, hi + d, v.start + d, v.start + d + v.size);
      SliceOfSlice(b, lo, hi, v.start, v.start + v.size);
    }
  }

  /** A slice of a slice is a slice of the whole. */
  lemma SliceOfSlice(b: seq<char>, lo: int, hi: int, x: int, y: int)
    requires 0 <= lo <= x <= y <= hi <= |b|
    ensures b[x..y] == b[lo..hi][x - lo..y - lo]
  {
    assert forall k :: 0 <= k < y - x ==> b[x..y][k] == b[lo..hi][x - lo..y - lo][k];
  }

  /** A kept node lies in the kept data and in the buffer. */
  lemma KeptIsIn(n: Node, v: View, lo: int, hi: int, length: int)
    requires NodeKept(n, lo, hi, length) && ViewKept(v, lo, hi, length) && 0 <= lo
    ensures NodeIn(n, lo, hi) && NodeIn(n, 0, length) && ViewIn(v, lo, hi) && ViewIn(v, 0, length)
  {
    if n.OpeningNode? {
      AttributesKeptIn(n.attributes, lo, hi, length);
    }
  }

  lemma {:induction false} AttributesKeptIn(attrs: seq<(View, View)>, lo: int, hi: int, length: int)
    requires AttributesKept(attrs, lo, hi, length) && 0 <= lo
    ensures AttributesIn(attrs, lo, hi) && AttributesIn(attrs, 0, length)
  {
    if attrs != [] {
      AttributesKeptIn(attrs[..|attrs| - 1], lo, hi, length);
    }
  }

  /**
   * Moving the kept data `[lo, hi)` by `d <= 0` into a buffer at least as
   * long keeps the shifted node kept in any range `[lo + d, hi2)` that
   * contains the moved data.
   */
  lemma ShiftKept(n: Node, v: View, lo: int, hi: int, hi2: int, length: int, length2: int, d: int)
    requires NodeKept(n, lo, hi, length) && ViewKept(v, lo, hi, length) && d <= 0 && length <= length2 && hi + d <= hi2
    ensures NodeKept(ShiftNode(n, d), lo + d, hi2, length2) && ViewKept(ShiftView(v, d), lo + d, hi2, length2)
  {
    if n.OpeningNode? {
      AttributesShiftKept(n.attributes, lo, hi, hi2, length, length2, d);
    }
  }

  lemma {:induction false} AttributesShiftKept(attrs: seq<(View, View)>, lo: int, hi: int, hi2: int, length: int, length2: int, d: int)
    requires AttributesKept(attrs, lo, hi, length) && d <= 0 && length <= length2 && hi + d <= hi2
    ensures AttributesKept(ShiftAttributes(attrs, d), lo + d, hi2, length2)
  {
    if attrs != [] {
      var r := ShiftAttributes(attrs, d);
      assert r[..|r| - 1] == ShiftAttributes(attrs[..|attrs| - 1], d);
      AttributesShiftKept(attrs[..|attrs| - 1], lo, hi, hi2, length, length2, d);
    }
  }

  /** Shifting a node whose views lie in `[lo, hi)` by `d` puts them in `[lo + d, hi + d)`. */
  lemma ShiftIn(n: Node, v: View, lo: int, hi: int, d: int)
    requires NodeIn(n, lo, hi) && ViewIn(v, lo, hi)
    ensures NodeIn(ShiftNode(n, d), lo + d, hi + d) && ViewIn(ShiftView(v, d), lo + d, hi + d)
  {
    if n.OpeningNode? {
      AttributesShiftIn(n.attributes, lo, hi, d);
    }
  }

  lemma {:induction false} AttributesShiftIn(attrs: seq<(View, View)>, lo: int, hi: int, d: int)
    requires AttributesIn(attrs, lo, hi)
    ensures AttributesIn(ShiftAttributes(attrs, d), lo + d, hi + d)
  {
    if attrs != [] {
      var r := ShiftAttributes(attrs, d);
      assert r[..|r| - 1] == ShiftAttributes(attrs[..|attrs| - 1], d);
      AttributesShiftIn(attrs[..|attrs| - 1], lo, hi, d);
    }
  }
}
