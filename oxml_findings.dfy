/*
 * Inputs on which the reader as written (module OxmlParse) and the corrected
 * reader (modules OxmlDecode and OxmlSpec) part ways. Each lemma follows the
 * as-written functions through one concrete input step by step, and states
 * what the corrected half gives on the same input.
 */
module OxmlFindings {
  import opened Chars
  import opened OxmlNodes
  import opened OxmlState
  import opened OxmlSteps
  import opened OxmlParse
  import OxmlDecode
  import S = OxmlSpec

  /** A text node being read from the buffer `b`, which holds all the data there is, the scan at `pos`. */
  function At(b: seq<char>, pos: int, ro: int, fo: int): State
  {
    State([], b, 0, pos, |b|, false, Some(TextNode(NullView)), NullView, ro, fo)
  }

  /** The text of `<t>&lt;&gt;</t>` once `<t>` is read. */
  const Refs: seq<char> := "&lt;&gt;<"

  /** The buffer once `&lt;` is replaced: a '<' and the gap of three characters the reference leaves. */
  const Refs1: seq<char> := "<lt;&gt;<"

  /** The buffer once the nested scan for the second name has moved the data back. */
  const Refs2: seq<char> := "<&gt&gt;<"

  /** The name of the first reference is scanned as `lt`. */
  lemma FirstName()
    ensures ScanOf(At(Refs, 1, 0, 0), S.Char(';'), 1) == Run(Done(Span(1, 2)), At(Refs, 3, 0, 0))
  {
    assert ScanOf(At(Refs, 2, 0, 0), S.Char(';'), 1) == ScanOf(At(Refs, 3, 0, 0), S.Char(';'), 1);
    assert ScanOf(At(Refs, 3, 0, 0), S.Char(';'), 1) == Run(Done(Span(1, 2)), At(Refs, 3, 0, 0));
  }

  /** `lt` is rewritten as '<' three characters back, leaving a gap of three. */
  lemma FirstWritten()
    ensures WriteOf(At(Refs, 3, 0, 0), Span(1, 2)) == Run(Done(()), At(Refs1, 3, 3, 4))
  {
    assert Refs[1..3] == "lt";
    assert S.Entity("lt") == Some('<');
    assert |Refs[0 := '<']| == |Refs1| && forall i | 0 <= i < |Refs1| :: Refs[0 := '<'][i] == Refs1[i];
  }

  /** The first reference is replaced as intended: '<' is written and the reading offset becomes 3. */
  lemma FirstReference()
    ensures ReplaceOf(At(Refs, 0, 0, 0)) == Run(Done(0), At(Refs1, 3, 3, 4))
  {
    var s, a, t := At(Refs, 0, 0, 0), At(Refs, 1, 0, 0), At(Refs, 3, 0, 0);
    var w := At(Refs1, 3, 3, 4);
    assert Fine(s) && Fine(a) && Fine(t) && s.currentPos < s.dataEnd && t.currentPos < t.dataEnd;
    assert MoveOf(s) == Run(Done(()), s) && AdvanceOf(s) == a;
    FirstName();
    FirstWritten();
    assert a.currentPos == 1 && a.dataStart == 0 && w.dataStart == 0;
    assert NamedOf(a) == RewriteOf(t, Span(1, 2), 0);
    assert ShiftedBy(w, 0) == w;
    assert RewriteOf(t, Span(1, 2), 0) == Run(Done(0), w);
    assert ReplaceOf(s) == NamedOf(a);
  }

  /**
   * The second reference: the nested scan for its name ends by moving the
   * data back and clearing the reading offset, so the name it reports has a
   * negative length and nothing is replaced.
   */
  lemma SecondReference()
    ensures ReplaceOf(At(Refs1, 4, 3, 4)) == Run(Done(0), At(Refs2, 7, 0, 7))
  {
    var a := At(Refs1, 5, 3, 4);
    assert MoveOf(At(Refs1, 4, 3, 4)) == Run(Done(()), At(Refs1, 4, 3, 4));
    assert Refs1[..1] + Refs1[4..7] + Refs1[4..] == Refs2;
    assert MoveOf(At(Refs1, 7, 3, 4)) == Run(Done(()), At(Refs2, 7, 3, 7));
    assert ScanOf(At(Refs1, 7, 3, 4), S.Char(';'), 5) == Run(Done(Span(5, -1)), At(Refs2, 7, 0, 7));
    assert ScanOf(a, S.Char(';'), 5) == Run(Done(Span(5, -1)), At(Refs2, 7, 0, 7));
    assert Refs2[5] == 'g';
    assert WriteOf(At(Refs2, 7, 0, 7), Span(5, -1)) == Run(Done(()), At(Refs2, 7, 0, 7));
    assert NamedOf(a) == Run(Done(0), At(Refs2, 7, 0, 7));
  }

  /**
   * As written, the text of `<t>&lt;&gt;</t>` comes out as `<&gt&gt;`: the
   * second reference is left in place and the first one's gap is filled
   * with a copy of it.
   */
  lemma EntitiesGarbled()
    ensures ScanOf(At(Refs, 0, 0, 0), S.Char('<'), 0) == Run(Done(Span(0, 8)), At(Refs2, 8, 0, 7))
    ensures Refs2[0..8] == "<&gt&gt;"
  {
    FirstReference();
    SecondReference();
    assert Refs2[8] == '<' && Refs1[4] == '&' && Refs[0] == '&';
    assert AdvanceOf(At(Refs2, 7, 0, 7)) == At(Refs2, 8, 0, 7);
    assert AdvanceOf(At(Refs1, 3, 3, 4)) == At(Refs1, 4, 3, 4);
    assert ScanOf(At(Refs2, 8, 0, 7), S.Char('<'), 0) == Run(Done(Span(0, 8)), At(Refs2, 8, 0, 7));
    assert ScanOf(At(Refs1, 4, 3, 4), S.Char('<'), 0) == Run(Done(Span(0, 8)), At(Refs2, 8, 0, 7));
  }

  /** A raw scan over a name none of whose characters is the terminator `t` stops on the terminator after it. */
  lemma {:induction false} RawName(name: seq<char>, rest: seq<char>, t: char)
    requires forall i :: 0 <= i < |name| ==> name[i] != t
    requires rest != [] && rest[0] == t
    ensures S.ScanRaw(name + rest, false, S.Char(t)) == S.Ok(name, rest)
  {
    if name != [] {
      assert (name + rest)[1..] == name[1..] + rest;
      RawName(name[1..], rest, t);
      assert [name[0]] + name[1..] == name;
    }
  }

  /** A reference in the text is replaced by what it stands for, and the scan goes on after its ';'. */
  lemma DecodedReference(name: seq<char>, rest: seq<char>, u: S.Until)
    requires S.Continues(u, '&') && forall i :: 0 <= i < |name| ==> name[i] != ';'
    requires rest != [] && rest[0] == ';'
    ensures S.ScanDecoded(['&'] + name + rest, false, u) == S.Prepend(S.Reference(name), S.ScanDecoded(rest[1..], false, u))
  {
    hide S.ScanRaw, S.Reference, S.Prepend, S.Continues;
    RawName(name, rest, ';');
    var s := ['&'] + name + rest;
    assert s != [] && s[0] == '&' && s[1..] == name + rest;
    var raw := S.ScanRaw(s[1..], false, S.Char(';'));
    assert raw == S.Ok(name, rest);
    assert S.ScanDecoded(s, false, u) == S.Prepend(S.Reference(raw.value), S.ScanDecoded(raw.rest[1..], false, u));
  }

  /** A decoding scan on a character that does not continue it stops there. */
  lemma DecodedStop(rest: seq<char>, u: S.Until)
    requires rest != [] && !S.Continues(u, rest[0])
    ensures S.ScanDecoded(rest, false, u) == S.Ok([], rest)
  {
  }

  lemma EntityReferences()
    ensures S.Reference("gt") == ">" && S.Reference("lt") == "<"
  {
    assert S.Entity("gt") == Some('>') && S.Entity("lt") == Some('<');
  }

  lemma PrependOk(p: seq<char>, v: seq<char>, rest: seq<char>)
    ensures S.Prepend(p, S.Ok(v, rest)) == S.Ok(p + v, rest)
  {
  }

  /** A scan up to '<' goes on over an '&' and stops on a '<'. */
  lemma TextScan()
    ensures S.Continues(S.Char('<'), '&') && !S.Continues(S.Char('<'), '<')
  {
  }

  /** The text `Refs` stands for. */
  lemma RefsText()
    ensures Refs == "&lt;&gt;<"
  {
  }

  /** The reference semantics decode the same text to `<>`, stopping on the '<' of `</t>`. */
  lemma RefsDecoded()
    ensures S.ScanDecoded(Refs, false, S.Char('<')) == S.Ok("<>", "<")
  {
    hide *;
    var u := S.Char('<');
    TextScan();
    EntityReferences();
    DecodedStop("<", u);
    DecodedReference("gt", ";<", u);
    PrependOk(">", [], "<");
    assert ['&'] + "gt" + ";<" == "&gt;<" && ";<"[1..] == "<" && ">" + [] == ">";
    DecodedReference("lt", ";&gt;<", u);
    PrependOk("<", ">", "<");
    RefsText();
    assert ['&'] + "lt" + ";&gt;<" == "&lt;&gt;<" && ";&gt;<"[1..] == "&gt;<" && "<" + ">" == "<>";
  }

  /** Corrected, the reader gives the same text as `<>`, and the scan stops on the '<' of `</t>`. */
  lemma EntitiesDecoded()
    ensures var r := OxmlDecode.DecodedOf(At(Refs, 0, 0, 0), S.Char('<'), 0);
            && r.out.Done? && Unscanned(r.state) == "<"
            && ViewIn(r.out.value, 0, |r.state.buffer|) && ViewText(r.state.buffer, r.out.value) == "<>"
  {
    var s := At(Refs, 0, 0, 0);
    assert OxmlDecode.DecReady(s, 0) && Fails(s.source) == false;
    OxmlDecode.DecSpec(s, S.Char('<'), 0, false);
    assert Unscanned(s) == Refs && OxmlDecode.Pending(s, 0) == [];
    RefsDecoded();
  }

  /*
   * A reference in an attribute value whose name runs past the end of the
   * buffer. The opening node `<a b='…` began at 2, so the refill moves the
   * data two places to the front and shifts the node by -2; the rewriting
   * then shifts it by -2 again.
   */

  /** An opening node `a` being read, its attribute name at `attr`, the data ending with the buffer `b`. */
  function InTag(src: seq<Chunk>, b: seq<char>, ds: int, pos: int, name: View, attr: View, ro: int, fo: int): State
  {
    State(src, b, ds, pos, |b|, true, Some(OpeningNode(name, false, [])), attr, ro, fo)
  }

  /** The buffer holds `z<a b='&l`; the source still delivers `t;'/>`. */
  const Tag: seq<char> := "z<a b='&l"

  /** The buffer once the data moved to the front and two characters were read. */
  const Tag1: seq<char> := "a b='&lt;"

  /** The buffer once `&lt;` is rewritten. */
  const Tag2: seq<char> := "a b='<lt;"

  /** The state on the '&' of the attribute value. */
  function OnReference(): State
  {
    InTag([Data("t;'/>")], Tag, 2, 7, View(2, 1), View(4, 1), 0, 0)
  }

  /** Shifting the node being read by `d`. */
  lemma TagShifted(src: seq<Chunk>, b: seq<char>, ds: int, pos: int, n: int, t: int, ro: int, fo: int, d: int)
    ensures ShiftedBy(InTag(src, b, ds, pos, View(n, 1), View(t, 1), ro, fo), d)
         == InTag(src, b, ds, pos, View(n + d, 1), View(t + d, 1), ro, fo)
  {
  }

  /** The buffer once the data from 2 on is moved to the front, the read not yet done. */
  function TagRoomed(): State
  {
    State([Data("t;'/>")], "a b='&l&l", 0, 7, 7, true, Some(OpeningNode(View(2, 1), false, [])), View(4, 1), 0, -2)
  }

  /** The buffer once `t;` is read into the room at 7, the node not yet shifted. */
  function TagRead(): State
  {
    State([Data("'/>")], Tag1, 0, 7, 7, true, Some(OpeningNode(View(2, 1), false, [])), View(4, 1), 0, -2)
  }

  /** A node in flight keeps the data: nothing is dropped, and the data from 2 on moves to the front. */
  lemma TagRoom()
    ensures DropOf(TagAt(9)) == TagAt(9) && MakeRoomOf(TagAt(9)) == TagRoomed()
  {
    var m := MovedToFront(Tag, 2, 9);
    assert |Tag| == 9;
    assert m == "a b='&l&l" by {
      assert Tag[2..9] == "a b='&l";
      assert |m| == 9;
      assert forall i | 0 <= i < 7 :: m[i] == Tag[2..9][i];
      assert m[7] == Tag[7] && m[8] == Tag[8];
    }
  }

  /** The read fills the two free places with `t;`, and the source keeps the rest. */
  lemma TagReads()
    ensures WellFormed(TagRoomed().source) && ReadOf(TagRoomed(), 7, 2) == (2, TagRead())
  {
    var src := [Data("t;'/>")];
    var w := WrittenAt("a b='&l&l", 7, "t;");
    assert WellFormed(src);
    assert w == Tag1 by {
      assert |w| == 9 && forall i | 0 <= i < 9 :: w[i] == Tag1[i];
    }
    assert AfterRead(src, 2) == [Data("'/>")] by {
      assert "t;'/>"[2..] == "'/>" && src[1..] == [];
    }
    assert "t;'/>"[..2] == "t;";
  }

  /** After the read the node is shifted by the -2 the data moved. */
  lemma TagReadDone()
    ensures ReadDoneOf(TagRead(), 2, 2) == InTag([Data("'/>")], Tag1, 0, 7, View(0, 1), View(2, 1), 0, -2)
  {
    TagShifted([Data("'/>")], Tag1, 0, 7, 2, 4, 0, -2, -2);
    assert |Tag1| == 9;
  }

  /** The refill at the end of the buffer moves the data from 2 to the front, reads `t;`, and shifts the node by -2. */
  lemma TagRefilled()
    ensures RefillOf(InTag([Data("t;'/>")], Tag, 2, 9, View(2, 1), View(4, 1), 0, 0))
         == (Done(-2), InTag([Data("'/>")], Tag1, 0, 7, View(0, 1), View(2, 1), 0, -2))
  {
    assert |Tag| == 9;
    hide DropOf, MakeRoomOf, ReadOf, ReadDoneOf, ShiftedBy, MovedToFront, WrittenAt, Tag1;
    TagRoom();
    TagReads();
    TagReadDone();
  }

  /** Before the refill: the source still holds `t;'/>`, the scan at `pos`. */
  function TagAt(pos: int): State
  {
    InTag([Data("t;'/>")], Tag, 2, pos, View(2, 1), View(4, 1), 0, 0)
  }

  /** After the refill: the node moved two places to the front and `t;` was read. */
  function Tag1At(pos: int): State
  {
    InTag([Data("'/>")], Tag1, 0, pos, View(0, 1), View(2, 1), 0, -2)
  }

  /** The 'l' continues the scan for the name. */
  lemma TagNameFirst()
    ensures ScanOf(TagAt(8), S.Char(';'), 8) == ScanOf(TagAt(9), S.Char(';'), 8)
  {
    assert Fine(TagAt(8)) && Fine(TagAt(9));
    assert AdvanceOf(TagAt(8)) == TagAt(9);
  }

  /** At the end of the buffer the scan goes to its end part. */
  lemma TagNameAtEnd()
    ensures Fine(TagAt(9))
    ensures ScanOf(TagAt(9), S.Char(';'), 8) == ScanEndOf(TagAt(9), S.Char(';'), 8)
  {
    assert Fine(TagAt(9)) && TagAt(9).currentPos == TagAt(9).dataEnd;
    hide ScanEndOf, ReplaceOf, AdvanceOf, RefillOf;
  }

  /** There the scan refills, and goes on with its start moved by -2. */
  lemma TagNameRefilled()
    requires Fine(TagAt(9))
    ensures ScanEndOf(TagAt(9), S.Char(';'), 8) == ScanOf(Tag1At(7), S.Char(';'), 6)
  {
    TagRefilled();
    assert TagAt(9).currentPos == TagAt(9).dataEnd && TagAt(9).hasMoreData;
    hide ScanOf, RefillOf, FinishOf;
  }

  /** At the end of the buffer the scan refills, and goes on with its start moved by -2. */
  lemma TagNameRefill()
    ensures ScanOf(TagAt(9), S.Char(';'), 8) == ScanOf(Tag1At(7), S.Char(';'), 6)
  {
    hide *;
    TagNameAtEnd();
    TagNameRefilled();
  }

  /** The 't' continues the scan. */
  lemma TagNameSecond()
    ensures ScanOf(Tag1At(7), S.Char(';'), 6) == ScanOf(Tag1At(8), S.Char(';'), 6)
  {
    assert Fine(Tag1At(7)) && Fine(Tag1At(8));
    assert AdvanceOf(Tag1At(7)) == Tag1At(8);
  }

  /** The ';' ends the scan: the name is `lt`, at 6. */
  lemma TagNameEnd()
    ensures ScanOf(Tag1At(8), S.Char(';'), 6) == Run(Done(Span(6, 2)), Tag1At(8))
  {
    var t8 := Tag1At(8);
    assert Fine(t8) && t8.buffer[8] == ';' && t8.readingOffset == 0;
    assert MoveOf(t8) == Run(Done(()), t8);
    assert FinishOf(t8, 6) == Run(Done(Span(6, 2)), t8);
  }

  /** The nested scan for the name reads `l`, refills, and stops on the ';' with the name `lt`, the node shifted once. */
  lemma TagName()
    ensures ScanOf(TagAt(8), S.Char(';'), 8) == Run(Done(Span(6, 2)), Tag1At(8))
  {
    hide *;
    TagNameFirst();
    TagNameRefill();
    TagNameSecond();
    TagNameEnd();
  }

  /** The '&' is the current character of a well-formed state, and skipping it leads to the name. */
  lemma OnReferenceMoves()
    ensures Fine(OnReference()) && OnReference().currentPos < OnReference().dataEnd
    ensures MoveOf(OnReference()) == Run(Done(()), OnReference()) && AdvanceOf(OnReference()) == TagAt(8)
  {
  }

  /** The node being read once `&lt;` is written as '<'. */
  function Written(): State
  {
    InTag([Data("'/>")], Tag2, 0, 8, View(0, 1), View(2, 1), 3, 9)
  }

  /** After the name, the reference is rewritten with the offset the nested scan reports. */
  lemma NamedRewrites()
    ensures NamedOf(TagAt(8)) == RewriteOf(Tag1At(8), Span(6, 2), 2)
  {
    TagName();
    assert Fine(TagAt(8)) && TagAt(8).currentPos == 8 && TagAt(8).dataStart == 2;
  }

  /** `lt` is written as '<' one place after the '&', which moved to 5. */
  lemma LtWritten()
    ensures WriteOf(Tag1At(8), Span(6, 2)) == Run(Done(()), Written())
  {
    assert Fine(Tag1At(8));
    assert Tag1[6..8] == "lt" && S.Entity("lt") == Some('<');
    assert |Tag1[5 := '<']| == 9 && forall i | 0 <= i < 9 :: Tag1[5 := '<'][i] == Tag2[i];
  }

  /** The rewriting then shifts the node by the -2 of the refill, a second time. */
  lemma RewriteShifts()
    ensures RewriteOf(Tag1At(8), Span(6, 2), 2)
         == Run(Done(-2), InTag([Data("'/>")], Tag2, 0, 8, View(-2, 1), View(0, 1), 3, 9))
  {
    LtWritten();
    TagShifted([Data("'/>")], Tag2, 0, 8, 0, 2, 3, 9, -2);
    assert Fine(Tag1At(8)) && Written().dataStart == 0;
  }

  /** The replacement starts with the scan for the name. */
  lemma ReplaceNames()
    ensures ReplaceOf(OnReference()) == NamedOf(TagAt(8))
  {
    OnReferenceMoves();
  }

  /**
   * As written, once `&lt;` in `<a b='&lt;'/>` is replaced across a
   * refill, the node's name starts two places before the buffer and the
   * attribute name being read shows `a`: the node moved by -4 where its
   * data moved by -2.
   */
  lemma DoubleShift()
    ensures ReplaceOf(OnReference())
         == Run(Done(-2), InTag([Data("'/>")], Tag2, 0, 8, View(-2, 1), View(0, 1), 3, 9))
    ensures Tag2[0..1] == "a"
  {
    hide *;
    ReplaceNames();
    NamedRewrites();
    RewriteShifts();
    Tag2Starts();
  }

  /** The rewritten buffer starts with the node's name. */
  lemma Tag2Starts()
    ensures Tag2[0..1] == "a"
  {
  }

  /** The state on the '&' is one the corrected replacement accepts. */
  lemma OnReferenceReady()
    ensures OxmlDecode.DecReady(OnReference(), 7) && Fails(OnReference().source) == false
    ensures OnReference().currentPos < OnReference().dataEnd && OnReference().buffer[OnReference().currentPos] == '&'
  {
  }

  /** What is left to scan after the '&': `lt;'/>`, half of it still in the source. */
  lemma OnReferenceText()
    ensures Unscanned(OnReference())[1..] == "lt" + ";'/>"
  {
    assert [Data("t;'/>")][1..] == [];
    assert Available([Data("t;'/>")]) == "t;'/>";
    assert Tag[7..9] == "&l";
  }

  /** The node in flight reads as `<a b…`. */
  lemma OnReferenceNode()
    ensures NodeText(OnReference()) == Some((S.Open("a", false, []), "b"))
  {
    assert Tag[2..3] == "a" && Tag[4..5] == "b";
  }

  /** A corrected replacement whose name scan succeeds is done, and the node it leaves says what it said. */
  lemma ReplacedKeepsNode(s: State, start: int, fail: bool)
    requires OxmlDecode.DecReady(s, start) && Fails(s.source) == fail
    requires s.currentPos < s.dataEnd && s.buffer[s.currentPos] == '&'
    requires S.ScanRaw(Unscanned(s)[1..], fail, S.Char(';')).Ok?
    ensures var t := OxmlDecode.ReplaceOf(s);
            t.0.Done? && NodeText(AdvanceOf(t.1)) == NodeText(s)
  {
    OxmlDecode.ReplaceSpec(s, start, fail);
  }

  /** Corrected, the node shifts once with its data and still says `<a b=…`. */
  lemma ShiftedOnce()
    ensures var t := OxmlDecode.ReplaceOf(OnReference());
            && t.0.Done? && NodeText(AdvanceOf(t.1)) == Some((S.Open("a", false, []), "b"))
  {
    var s := OnReference();
    hide *;
    OnReferenceReady();
    OnReferenceText();
    RawName("lt", ";'/>", ';');
    OnReferenceNode();
    ReplacedKeepsNode(s, 7, false);
  }

  /*
   * A tag `<a/>` whose data arrives as `<a/` and then `>\n<b>`.
   */

  /**
   * As written, an opening node whose '/' is the last character in the
   * buffer is handed out as empty without reading on: the '>' skip finds the
   * buffer consumed and does nothing, so all the source still holds, its
   * '>' first, is left for the next node.
   */
  lemma SlashAtBufferEnd(s: State)
    requires Fine(s) && s.currentNode.Some? && s.currentNode.value.OpeningNode?
    requires s.currentPos + 1 == s.dataEnd && s.buffer[s.currentPos] == '/'
    ensures var r := OpeningEndOf(s);
            && r.out == Done(s.currentNode.value.(empty := true)) && Unscanned(r.state) == Available(s.source)
  {
    assert PeekOf(s) == Step(Done('/'), 0, s);
    var s1 := AdvanceOf(SetEmpty(s));
    assert s1 == s.(currentNode := Some(s.currentNode.value.(empty := true)), currentPos := s.dataEnd);
    assert AdvanceOf(s1) == s1;
    assert OpeningEndOf(s) == Run(Done(s1.currentNode.value), Release(s1));
    assert Unscanned(Release(s1)) == Available(s.source);
  }

  /** `<a` read, the '/' last in the buffer, `>\n<b>` still in the source. */
  function Split(): State
  {
    State([Data(">\n<b>")], "<a/", 0, 1, 3, true, None, NullView, 0, 0)
  }

  /** `<` read and the opening node begun, the name to be scanned from 1. */
  function SplitBegun(): State
  {
    State([Data(">\n<b>")], "<a/", 1, 1, 3, true, Some(OpeningNode(NullView, false, [])), NullView, 0, 0)
  }

  /** The name `a` read, the '/' next, the last character in the buffer. */
  function SplitNamed(): State
  {
    State([Data(">\n<b>")], "<a/", 1, 2, 3, true, Some(OpeningNode(View(1, 1), false, [])), NullView, 0, 0)
  }

  /** Beginning the opening node makes the data start at its name. */
  lemma SplitBegins()
    ensures Fine(Split()) && Begin(Split(), OpeningNode(NullView, false, [])) == SplitBegun()
    ensures Fine(SplitBegun()) && Fine(SplitBegun().(currentPos := 2))
  {
  }

  /** The 'a' continues the name. */
  lemma SplitNameChar()
    requires Fine(SplitBegun()) && Fine(SplitBegun().(currentPos := 2))
    ensures ScanOf(SplitBegun(), S.Name, 1) == ScanOf(SplitBegun().(currentPos := 2), S.Name, 1)
  {
    assert S.Continues(S.Name, 'a') && SplitBegun().buffer[1] == 'a';
    assert AdvanceOf(SplitBegun()) == SplitBegun().(currentPos := 2);
    hide ScanEndOf, ReplaceOf, RefillOf, FinishOf;
  }

  /** On the '/', which does not continue a name, the scan finishes where it is. */
  lemma SplitSlash()
    requires Fine(SplitBegun().(currentPos := 2))
    ensures var n := SplitBegun().(currentPos := 2);
      && n.currentPos != n.dataEnd && !S.Continues(S.Name, n.buffer[n.currentPos])
      && FinishOf(n, 1) == Run(Done(Span(1, 1)), n)
  {
    var n := SplitBegun().(currentPos := 2);
    assert n.buffer[2] == '/' && n.readingOffset == 0;
    assert MoveOf(n) == Run(Done(()), n);
  }

  /** The '/' ends it, with the name `a`. */
  lemma SplitNameEnd()
    requires Fine(SplitBegun().(currentPos := 2))
    ensures ScanOf(SplitBegun().(currentPos := 2), S.Name, 1) == Run(Done(Span(1, 1)), SplitBegun().(currentPos := 2))
  {
    hide ReplaceOf, RefillOf, AdvanceOf, MoveOf, FinishOf, S.Continues, Fine;
    SplitSlash();
  }

  /** The name scan reads `a` and stops on the '/'. */
  lemma SplitScansName()
    ensures Fine(Split()) && Begin(Split(), OpeningNode(NullView, false, [])) == SplitBegun()
    ensures ScanOf(SplitBegun(), S.Name, 1) == Run(Done(Span(1, 1)), SplitBegun().(currentPos := 2))
  {
    hide *;
    SplitBegins();
    SplitNameChar();
    SplitNameEnd();
  }

  /** With the '/' next there is no white space and no attribute, and the '/' is the buffer's last character. */
  lemma SplitNoAttributes()
    ensures SetName(SplitBegun().(currentPos := 2), View(1, 1)) == SplitNamed()
    ensures Fine(SplitNamed()) && SkipOf(SplitNamed()) == Step(Done(()), 0, SplitNamed())
    ensures AttributesOf(SplitNamed()) == Run(Done(()), SplitNamed())
    ensures SplitNamed().currentPos + 1 == SplitNamed().dataEnd && SplitNamed().buffer[SplitNamed().currentPos] == '/'
    ensures Available(SplitNamed().source) == ">\n<b>"
  {
    var s2 := SplitNamed();
    assert Fine(s2);
    assert PeekOf(s2) == Step(Done('/'), 0, s2);
    assert [Data(">\n<b>")][1..] == [];
  }

  /** As written, the tag is read as the empty node `a`, and the '>' is left unread. */
  lemma GtLeftUnread()
    ensures var r := OpeningOf(Split());
            && r.out == Done(OpeningNode(View(1, 1), true, [])) && Unscanned(r.state) == ">\n<b>"
  {
    hide ScanOf, SkipOf, AttributesOf, OpeningEndOf, Begin, SetName, Fine, Unscanned, Available;
    SplitScansName();
    SplitNoAttributes();
    SlashAtBufferEnd(SplitNamed());
  }

  /** Corrected, the '>' is peeked, which reads the source on, and skipped: the next node starts after it. */
  lemma GtSkipped()
    ensures S.ParseOpening("a/>\n<b>", false) == S.Ok(S.Open("a", true, []), "\n<b>")
  {
    var r1 := "/>\n<b>";
    assert S.ScanDecoded(r1, false, S.Name) == S.Ok([], r1);
    assert "a/>\n<b>"[1..] == r1;
    assert S.Continues(S.Name, 'a');
    assert S.ScanDecoded("a/>\n<b>", false, S.Name) == S.Prepend("a", S.Ok([], r1));
    PrependOk("a", [], r1);
    assert "a" + [] == "a";
    assert S.ParseName("a/>\n<b>", false) == S.Ok("a", r1);
    assert S.SkipSpace(r1, false) == S.Ok((), r1);
    assert S.Attributes(r1, false, []) == S.Ok([], r1);
    assert S.Advance(r1) == ">\n<b>" && S.Advance(">\n<b>") == "\n<b>";
  }

  /*
   * A comment `<!-- a & b -->` with no ';' after its '&'.
   */

  /** A scan for `t` moves over characters that are neither `t` nor an '&'. */
  lemma {:induction false} ScanSkips(s: State, t: char, st: int, k: int)
    requires Fine(s) && s.currentPos <= k <= s.dataEnd
    requires forall i :: s.currentPos <= i < k ==> s.buffer[i] != t && s.buffer[i] != '&'
    ensures Fine(s.(currentPos := k))
    ensures ScanOf(s, S.Char(t), st) == ScanOf(s.(currentPos := k), S.Char(t), st)
    decreases k - s.currentPos
  {
    if s.currentPos < k {
      assert ScanOf(s, S.Char(t), st) == ScanOf(AdvanceOf(s), S.Char(t), st);
      ScanSkips(AdvanceOf(s), t, st, k);
    }
  }

  /** A scan for `t` that meets neither `t` nor an '&' before the data ends throws "Unexpected end of data". */
  lemma RunsOut(s: State, t: char, st: int)
    requires Fine(s) && !s.hasMoreData
    requires forall i :: s.currentPos <= i < s.dataEnd ==> s.buffer[i] != t && s.buffer[i] != '&'
    ensures ScanOf(s, S.Char(t), st) == Run(Thrown(S.UnexpectedEnd), s.(currentPos := s.dataEnd))
  {
    ScanSkips(s, t, st, s.dataEnd);
  }

  /** The comment's text after `<!--`, all the data there is. */
  const CommentText: seq<char> := " a & b -->"

  function InComment(pos: int): State
  {
    State([], CommentText, 0, pos, |CommentText|, false, None, NullView, 0, 0)
  }

  /**
   * As written, the loop over the comment replaces the '&' as a reference,
   * and the scan for its name runs to the end of the data looking for a ';':
   * the comment is not skipped, and "Unexpected end of data" is thrown.
   */
  lemma CommentRunsOut()
    ensures CommentOf(InComment(0)).out == Thrown(S.UnexpectedEnd)
  {
    var s, s3, s4 := InComment(0), InComment(3), InComment(4);
    assert Fine(s) && s3 == s.(currentPos := 3) && s4 == s.(currentPos := 4) && s3.currentPos < s3.dataEnd
      && s.readingOffset == 0 && !s.hasMoreData && s.dataEnd == 10
      && s.buffer[3] == '&' && (forall i :: 0 <= i < 3 ==> s.buffer[i] != '-' && s.buffer[i] != '&')
      && (forall i :: 4 <= i < 10 ==> s.buffer[i] != ';' && s.buffer[i] != '&');
    ScanSkips(s, '-', 0, 3);
    RunsOut(s4, ';', 4);
    assert MoveOf(s3) == Run(Done(()), s3) && AdvanceOf(s3) == s4;
    assert NamedOf(s4).out == Thrown(S.UnexpectedEnd);
    assert ReplaceOf(s3).out == Thrown(S.UnexpectedEnd);
    assert ScanOf(s3, S.Char('-'), 0).out == Thrown(S.UnexpectedEnd);
    assert CommentOf(s).out == Thrown(S.UnexpectedEnd);
  }

  /** The raw scan of the comment's text stops on its first '-', which is followed by another. */
  lemma CommentBodyEnds()
    ensures S.CommentBody(CommentText, false) == S.Ok((), "->")
  {
    var body, end := " a & b ", "-->";
    assert CommentText == body + end && (forall i :: 0 <= i < |body| ==> body[i] != '-');
    RawName(body, end, '-');
    assert S.Advance(end) == "->";
    assert S.Peek("->", false) == S.Ok('-', "->");
  }

  /** What is left of the tag, `->`, is skipped through its '>'. */
  lemma CommentTagEnds()
    ensures S.IgnoreNodeEnd("->", false) == S.Ok((), [])
  {
    RawName("-", ">", '>');
    assert "-" + ">" == "->";
    assert S.Advance(">") == [];
  }

  /** After `!`, the two dashes open a comment, which is skipped whole. */
  lemma CommentOpened()
    ensures S.IgnoreComment("--" + CommentText, false) == S.Ok(true, [])
  {
    hide S.ScanRaw, S.CommentBody, S.IgnoreNodeEnd;
    var t1, t2 := "--" + CommentText, "-" + CommentText;
    CommentBodyEnds();
    CommentTagEnds();
    assert S.Advance(t1) == t2 && S.Advance(t2) == CommentText;
    assert S.Peek(t1, false) == S.Ok('-', t1) && S.Peek(t2, false) == S.Ok('-', t2);
  }

  /** Corrected, the comment's text is scanned raw to its `--`, and the rest of the tag after it is `->`. */
  lemma CommentSkipped()
    ensures S.CommentBody(CommentText, false) == S.Ok((), "->")
    ensures S.IgnoreSpecial("!--" + CommentText, false) == S.Ok(true, [])
  {
    hide *;
    CommentBodyEnds();
    CommentOpened();
    CommentSpecial();
  }

  /** `<!` followed by two dashes is a comment. */
  lemma CommentSpecial()
    requires S.IgnoreComment("--" + CommentText, false) == S.Ok(true, [])
    ensures S.IgnoreSpecial("!--" + CommentText, false) == S.Ok(true, [])
  {
    hide S.ScanRaw, S.CommentBody, S.IgnoreNodeEnd, S.IgnoreComment;
    var t := "!--" + CommentText;
    assert S.Advance(t) == "--" + CommentText;
  }
}
