/**
 * The scans of `oxml::Reader` that replace character references in place.
 *
 * A reference `&name;` is replaced by at most as many characters as it
 * takes, written over its own start. The characters read after it then
 * stand `readingOffset` places too far to the right: `firstOffset` marks the
 * first of them, and `moveOffsetData` moves them back before the next
 * replacement and when the scan ends. Until then, the text the scan has
 * produced is the part of the buffer from `start` up to the gap, followed by
 * the part from `firstOffset` to the current position (`Pending`).
 */
module OxmlDecode {

  import opened Chars
  import opened OxmlNodes
  import opened OxmlState
  import opened OxmlSteps
  import S = OxmlSpec
  import Utf8

  /**
   * Where a replacing scan whose view starts at `start` may run: a node is
   * in flight, `start` lies in the data kept for it, and the gap left by
   * replaced references lies after `start`.
   */
  ghost predicate DecOk(s: State, start: int)
  {
    && Inv(s) && OffsetsFine(s) && s.currentNode.Some?
    && s.dataStart <= start <= s.currentPos
    && (s.readingOffset > 0 ==> start <= s.firstOffset - s.readingOffset)
  }

  /** The text a replacing scan from `start` has produced so far: the characters before the gap, then those after it. */
  ghost function Pending(s: State, start: int): seq<char>
    requires DecOk(s, start)
  {
    if s.readingOffset == 0 then s.buffer[start..s.currentPos]
    else s.buffer[start..s.firstOffset - s.readingOffset] + s.buffer[s.firstOffset..s.currentPos]
  }

  /** `moveOffsetData`: the characters from `firstOffset` to the current position move back by `readingOffset` (`memmove`). */
  function MoveOffsetOf(s: State): State
    requires 0 <= s.readingOffset
    requires s.readingOffset > 0 ==> 0 <= s.firstOffset - s.readingOffset && s.firstOffset <= s.currentPos <= |s.buffer|
  {
    if s.readingOffset != 0 && s.currentPos - s.firstOffset > 0 then
      s.(buffer := s.buffer[..s.firstOffset - s.readingOffset] + s.buffer[s.firstOffset..s.currentPos] + s.buffer[s.currentPos - s.readingOffset..],
         firstOffset := s.currentPos)
    else s
  }

  /**
   * Moving the data back closes the gap up to the current position: the
   * produced text now ends `readingOffset` places before it, and nothing
   * from the current position on changes.
   */
  lemma MoveOffsetFacts(s: State)
    requires Inv(s) && OffsetsFine(s)
    ensures var s1 := MoveOffsetOf(s);
      && Inv(s1) && OffsetsFine(s1) && s1 == s.(buffer := s1.buffer, firstOffset := s1.firstOffset)
      && |s1.buffer| == |s.buffer| && Unscanned(s1) == Unscanned(s) && s1.buffer[s.currentPos..] == s.buffer[s.currentPos..]
      && (s.readingOffset == 0 ==> s1 == s)
      && (s.readingOffset > 0 ==>
            && s1.firstOffset == s.currentPos
            && s1.buffer[..s.currentPos - s.readingOffset] == s.buffer[..s.firstOffset - s.readingOffset] + s.buffer[s.firstOffset..s.currentPos])
  {
    var s1 := MoveOffsetOf(s);
    if s.readingOffset != 0 && s.currentPos - s.firstOffset > 0 {
      assert s1.buffer[s.currentPos..] == s.buffer[s.currentPos..];
      assert s1.buffer[s.currentPos..s.dataEnd] == s.buffer[s.currentPos..s.dataEnd];
    } else if s.readingOffset > 0 {
      assert s.buffer[..s.currentPos - s.readingOffset] == s.buffer[..s.firstOffset - s.readingOffset] + s.buffer[s.firstOffset..s.currentPos];
    }
  }

  /**
   * `replaceUnicodeReference`: with the current position on the ';' of a
   * reference of `entitySize` characters between '&' and ';', writes the
   * UTF-8 bytes of the code point that `digits` give in front of the gap,
   * which grows by what the bytes save; no digits, no change.
   */
  function UnicodeOf(s: State, digits: seq<char>, base: nat, entitySize: nat): State
    requires Utf8.IsBase(base) && |digits| < entitySize && 0 <= s.readingOffset
    requires 0 <= s.currentPos - s.readingOffset - entitySize - 1 && s.currentPos <= |s.buffer|
  {
    if digits == [] then s
    else
      Utf8.FromCharsFits(digits, base);
      var bytes := Utf8.Encode(Utf8.FromChars(digits, base));
      var at := s.currentPos - s.readingOffset - entitySize - 1;
      s.(buffer := s.buffer[..at] + bytes + s.buffer[at + |bytes|..],
         readingOffset := s.readingOffset + entitySize + 2 - |bytes|,
         firstOffset := s.currentPos + 1)
  }

  /**
   * The rewriting part of `replaceCharacterReference`, with the current
   * position on the ';' that ends `name`: a predefined entity's character,
   * or the bytes of a numeric reference, is written in front of the gap; an
   * unknown reference is left as it is.
   */
  function WriteReferenceOf(t: State, name: seq<char>): State
    requires 0 <= t.readingOffset && 0 <= t.currentPos - t.readingOffset - |name| - 1 && t.currentPos < |t.buffer|
  {
    match S.Entity(name)
    case Some(c) =>
      var ro := t.readingOffset + |name| + 1;
      t.(readingOffset := ro, buffer := t.buffer[t.currentPos - ro := c], firstOffset := t.currentPos + 1)
    case None =>
      if |name| >= 2 && name[0] == '#' then
        if name[1] == 'x' then UnicodeOf(t, name[2..], 16, |name|)
        else UnicodeOf(t, name[1..], 10, |name|)
      else t
  }

  /**
   * `replaceCharacterReference`, the current character being the '&':
   * move the text read at an offset back, skip the '&', scan the name up to
   * the ';' leaving references in it alone, and rewrite. The value is how
   * far the kept data moved while the name was read; the views of the node
   * in flight moved with it once, when the data moved.
   */
  function ReplaceOf(s: State): (Outcome<int>, State)
    requires Inv(s) && OffsetsFine(s) && s.currentNode.Some? && s.currentPos < s.dataEnd
  {
    MoveOffsetFacts(s);
    var s1 := MoveOffsetOf(s);
    AdvanceMoves(s1);
    var s2 := AdvanceOf(s1);
    var r := RawOf(s2, S.Char(';'), s2.currentPos);
    if r.out.Thrown? then (Thrown(r.out.error), r.state)
    else
      RawPlaced(s2, S.Char(';'), s2.currentPos);
      (Done(r.shift), WriteReferenceOf(r.state, ViewText(r.state.buffer, r.out.value)))
  }

  /**
   * What rewriting does to the buffer: nothing from the current position
   * on, nothing before the place of the '&' less the gap, and in between the
   * text the reference stands for, ending where the new gap begins. An
   * unknown reference changes nothing and stands for itself.
   */
  ghost predicate Written(t: State, name: seq<char>, w: State)
    requires 0 <= t.readingOffset && 0 <= t.currentPos - t.readingOffset - |name| - 1 && t.currentPos < |t.buffer|
  {
    var at := t.currentPos - t.readingOffset - |name| - 1;
    && w == t.(buffer := w.buffer, readingOffset := w.readingOffset, firstOffset := w.firstOffset)
    && |w.buffer| == |t.buffer| && w.buffer[t.currentPos..] == t.buffer[t.currentPos..] && w.buffer[..at] == t.buffer[..at]
    && (w.readingOffset == t.readingOffset ==> w == t && S.Reference(name) == "&" + name + ";")
    && (w.readingOffset != t.readingOffset ==>
          && w.readingOffset > t.readingOffset && w.firstOffset == t.currentPos + 1
          && at <= w.firstOffset - w.readingOffset <= t.currentPos
          && w.buffer[at..w.firstOffset - w.readingOffset] == S.Reference(name))
  }

  lemma WriteFacts(t: State, name: seq<char>)
    requires 0 <= t.readingOffset && 0 <= t.currentPos - t.readingOffset - |name| - 1 && t.currentPos < |t.buffer|
    ensures Written(t, name, WriteReferenceOf(t, name))
  {
    if S.Entity(name).Some? {
      WriteEntity(t, name, S.Entity(name).value);
    } else if |name| >= 2 && name[0] == '#' {
      if name[1] == 'x' {
        WriteUnicode(t, name, name[2..], 16);
      } else {
        WriteUnicode(t, name, name[1..], 10);
      }
    }
  }

  lemma WriteEntity(t: State, name: seq<char>, c: char)
    requires 0 <= t.readingOffset && 0 <= t.currentPos - t.readingOffset - |name| - 1 && t.currentPos < |t.buffer|
    requires S.Entity(name) == Some(c)
    ensures Written(t, name, WriteReferenceOf(t, name))
  {
  }

  lemma WriteUnicode(t: State, name: seq<char>, digits: seq<char>, base: nat)
    requires 0 <= t.readingOffset && 0 <= t.currentPos - t.readingOffset - |name| - 1 && t.currentPos < |t.buffer|
    requires S.Entity(name).None? && |name| >= 2 && name[0] == '#'
    requires (name[1] == 'x' && digits == name[2..] && base == 16) || (name[1] != 'x' && digits == name[1..] && base == 10)
    ensures Written(t, name, WriteReferenceOf(t, name))
  {
    assert WriteReferenceOf(t, name) == UnicodeOf(t, digits, base, |name|);
    if digits != [] {
      assert S.Reference(name) == S.NumericReference(digits, base);
      UnicodeWritten(t, digits, base, |name|);
    }
  }

  lemma UnicodeWritten(t: State, digits: seq<char>, base: nat, size: nat)
    requires Utf8.IsBase(base) && 0 < |digits| < size && 0 <= t.readingOffset
    requires 0 <= t.currentPos - t.readingOffset - size - 1 && t.currentPos < |t.buffer|
    ensures var w := UnicodeOf(t, digits, base, size); var at := t.currentPos - t.readingOffset - size - 1;
      && w == t.(buffer := w.buffer, readingOffset := w.readingOffset, firstOffset := w.firstOffset)
      && |w.buffer| == |t.buffer| && w.buffer[t.currentPos..] == t.buffer[t.currentPos..] && w.buffer[..at] == t.buffer[..at]
      && w.readingOffset > t.readingOffset && w.firstOffset == t.currentPos + 1
      && at <= w.firstOffset - w.readingOffset <= t.currentPos
      && w.buffer[at..w.firstOffset - w.readingOffset] == S.NumericReference(digits, base)
  {
    Utf8.FromCharsFits(digits, base);
    var bytes := Utf8.Encode(Utf8.FromChars(digits, base));
    var at := t.currentPos - t.readingOffset - size - 1;
    var w := UnicodeOf(t, digits, base, size);
    assert w.buffer == t.buffer[..at] + bytes + t.buffer[at + |bytes|..];
    assert w.buffer[at..at + |bytes|] == bytes;
  }

  /** The end of a replacing `parseWhileFrom`: the data is moved back, the view runs from `start` to where the produced text ends, and the offset is cleared. */
  function FinishOf(s: State, start: int): Step<View>
    requires DecOk(s, start)
  {
    MoveOffsetFacts(s);
    var s1 := MoveOffsetOf(s);
    Step(Done(View(start, s1.currentPos - s1.readingOffset - start)), 0, s1.(readingOffset := 0))
  }

  /**
   * `parseWhileFrom` with `ignoreCR` clear: like `OxmlSteps.RawOf`, except
   * that an '&' that continues the scan is replaced, the shift it reports
   * moving `start` along, and that the scan ends with `FinishOf`.
   */
  function DecodedOf(s: State, u: S.Until, start: int): Step<View>
    requires DecOk(s, start)
    decreases |Unscanned(s)| + Measure(s), 1
  {
    if s.currentPos != s.dataEnd && S.Continues(u, s.buffer[s.currentPos]) then
      if s.buffer[s.currentPos] == '&' then DecReplaceOf(s, u, start)
      else
        AdvanceMoves(s);
        DecodedOf(AdvanceOf(s), u, start)
    else if s.currentPos != s.dataEnd then FinishOf(s, start)
    else if !s.hasMoreData then Step(Thrown(S.UnexpectedEnd), 0, s)
    else DecRefillOf(s, u, start)
  }

  /** The scan on an '&': replace the reference, skip its ';', and go on. */
  function DecReplaceOf(s: State, u: S.Until, start: int): Step<View>
    requires DecOk(s, start) && s.currentPos < s.dataEnd
    decreases |Unscanned(s)| + Measure(s), 0
  {
    var t := ReplaceOf(s);
    if t.0.Thrown? then Step(Thrown(t.0.error), 0, t.1)
    else
      ReplaceMoves(s, start);
      Later(t.0.value, DecodedOf(AdvanceOf(t.1), u, start + t.0.value))
  }

  /** The scan at the end of the buffer: refill, then go on with `start` moved along with the data. */
  function DecRefillOf(s: State, u: S.Until, start: int): Step<View>
    requires DecOk(s, start) && s.hasMoreData
    decreases |Unscanned(s)| + Measure(s), 0
  {
    var r := RefillOf(s);
    if r.0.Thrown? then Step(Thrown(r.0.error), 0, r.1)
    else
      DecRefillMoves(s, start);
      Later(r.0.value, DecodedOf(r.1, u, start + r.0.value))
  }

  /** The states `replaceCharacterReference` passes through when it returns. */
  lemma ReplaceParts(s: State) returns (s1: State, s2: State, r: Step<View>, name: seq<char>, w: State)
    requires Inv(s) && OffsetsFine(s) && s.currentNode.Some? && s.currentPos < s.dataEnd && ReplaceOf(s).0.Done?
    ensures Inv(s1) && OffsetsFine(s1) && s1 == MoveOffsetOf(s) && s2 == AdvanceOf(s1)
    ensures Inv(s2) && OffsetsFine(s2) && s2.currentNode == s.currentNode && s2.source == s.source
    ensures r == RawOf(s2, S.Char(';'), s2.currentPos) && r.out.Done?
    ensures ViewIn(r.out.value, 0, |r.state.buffer|) && name == ViewText(r.state.buffer, r.out.value)
    ensures 0 <= r.state.readingOffset && 0 <= r.state.currentPos - r.state.readingOffset - |name| - 1 && r.state.currentPos < |r.state.buffer|
    ensures w == WriteReferenceOf(r.state, name) && ReplaceOf(s) == (Done(r.shift), w)
  {
    MoveOffsetFacts(s);
    s1 := MoveOffsetOf(s);
    AdvanceMoves(s1);
    s2 := AdvanceOf(s1);
    r := RawOf(s2, S.Char(';'), s2.currentPos);
    RawPlaced(s2, S.Char(';'), s2.currentPos);
    name := ViewText(r.state.buffer, r.out.value);
    w := WriteReferenceOf(r.state, name);
  }

  /** After a replacement and the ';', the scan can go on, with less left to read. */
  lemma ReplaceMoves(s: State, start: int)
    requires DecOk(s, start) && s.currentPos < s.dataEnd && ReplaceOf(s).0.Done?
    ensures DecOk(AdvanceOf(ReplaceOf(s).1), start + ReplaceOf(s).0.value)
    ensures |Unscanned(AdvanceOf(ReplaceOf(s).1))| + Measure(AdvanceOf(ReplaceOf(s).1)) < |Unscanned(s)| + Measure(s)
  {
    var s1, s2, r, name, w := ReplaceParts(s);
    MoveOffsetFacts(s);
    AdvanceHead(s1);
    RawPlaced(s2, S.Char(';'), s2.currentPos);
    WriteFacts(r.state, name);
    ReplaceMovesFrom(s, start, s1, s2, r, name, w);
  }

  lemma ReplaceMovesFrom(s: State, start: int, s1: State, s2: State, r: Step<View>, name: seq<char>, w: State)
    requires DecOk(s, start) && s.currentPos < s.dataEnd
    requires s1 == s.(buffer := s1.buffer, firstOffset := s1.firstOffset) && Unscanned(s1) == Unscanned(s)
    requires s.readingOffset > 0 ==> s1.firstOffset == s.currentPos
    requires s2 == s1.(currentPos := s.currentPos + 1) && Unscanned(s2) == Unscanned(s1)[1..] && Measure(s2) == Measure(s1)
    requires r.out.Done? && Inv(r.state) && OffsetsFine(r.state) && r.shift <= 0
    requires r.out.value.start == s2.currentPos + r.shift && r.out.value.start + r.out.value.size == r.state.currentPos < r.state.dataEnd
    requires r.state.readingOffset == s.readingOffset && |Unscanned(r.state)| <= |Unscanned(s2)| && Measure(r.state) <= Measure(s2)
    requires r.state.currentNode.Some? && r.state.dataStart == s.dataStart + r.shift
    requires s.readingOffset > 0 ==> r.state.firstOffset == s1.firstOffset + r.shift
    requires |name| == r.out.value.size && 0 <= r.state.currentPos - r.state.readingOffset - |name| - 1
    requires Written(r.state, name, w)
    ensures DecOk(AdvanceOf(w), start + r.shift)
    ensures |Unscanned(AdvanceOf(w))| + Measure(AdvanceOf(w)) < |Unscanned(s)| + Measure(s)
  {
    WrittenUnscanned(r.state, name, w);
    AdvanceHead(w);
  }

  /** Rewriting a reference leaves the reader sound and the characters still to read as they were. */
  lemma WrittenUnscanned(t: State, name: seq<char>, w: State)
    requires Inv(t) && 0 <= t.readingOffset && 0 <= t.currentPos - t.readingOffset - |name| - 1 && t.currentPos < t.dataEnd
    requires Written(t, name, w)
    ensures Inv(w) && Unscanned(w) == Unscanned(t) && Measure(w) == Measure(t)
  {
    assert w.buffer[w.currentPos..w.dataEnd] == w.buffer[w.currentPos..][..w.dataEnd - w.currentPos];
    assert t.buffer[w.currentPos..w.dataEnd] == t.buffer[w.currentPos..][..w.dataEnd - w.currentPos];
  }

  /** After a refill that returned, the scan can go on, with less left to read. */
  lemma DecRefillMoves(s: State, start: int)
    requires DecOk(s, start) && s.hasMoreData && RefillOf(s).0.Done?
    ensures DecOk(RefillOf(s).1, start + RefillOf(s).0.value)
    ensures |Unscanned(RefillOf(s).1)| + Measure(RefillOf(s).1) < |Unscanned(s)| + Measure(s)
  {
    RefillDone(s);
  }

  /** `DecOk`, and the views of the node in flight and the attribute name being read end before `start`. */
  ghost predicate DecReady(s: State, start: int)
  {
    DecOk(s, start) && NodeIn(s.currentNode.value, s.dataStart, start) && ViewIn(s.tempAttrName, s.dataStart, start)
  }

  /**
   * What a replacing scan from `s` with its view starting at `start` must
   * give: it consumes what `OxmlSpec.ScanDecoded` consumes and throws when
   * it does; the node in flight says what it said; the offset is cleared;
   * and the view, which starts where `start` has moved to and ends by the
   * current position, shows the text produced before the scan followed by
   * the decoded text.
   */
  ghost predicate DecResult(s: State, u: S.Until, start: int, fail: bool, r: Step<View>)
    requires DecOk(s, start)
  {
    DecShows(s, start, Pending(s, start), r, S.ScanDecoded(Unscanned(s), fail, u))
  }

  /** `DecResult` with the text produced before the scan, `before`, and the scan's result in the reference semantics, `sd`, given. */
  ghost predicate DecShows(s: State, start: int, before: seq<char>, r: Step<View>, sd: S.Res<seq<char>>)
  {
    && (r.out.Thrown? <==> sd.Err?)
    && (r.out.Thrown? ==> r.out.error == sd.error)
    && (r.out.Done? ==>
          && sd.Ok? && Follows(s, r.state, r.shift) && r.state.readingOffset == 0
          && Unscanned(r.state) == sd.rest
          && r.state.currentPos < r.state.dataEnd
          && r.out.value.start == start + r.shift
          && r.state.dataStart <= r.out.value.start && r.out.value.start + r.out.value.size <= r.state.currentPos
          && r.state.buffer[r.out.value.start..r.out.value.start + r.out.value.size] == before + sd.value)
  }

  /** Writing only from `p` on, where the node in flight has ended, changes nothing it says. */
  lemma FrameFollows(s0: State, s1: State, p: int)
    requires Inv(s0) && s1 == s0.(buffer := s1.buffer, readingOffset := s1.readingOffset, firstOffset := s1.firstOffset)
    requires |s1.buffer| == |s0.buffer| && s0.dataStart <= p <= |s0.buffer| && s1.buffer[..p] == s0.buffer[..p] && s1.readingOffset >= 0
    requires s0.currentNode.Some? ==> NodeIn(s0.currentNode.value, s0.dataStart, p) && ViewIn(s0.tempAttrName, s0.dataStart, p)
    ensures Inv(s1) && Follows(s0, s1, 0)
  {
    if s0.currentNode.Some? {
      var n := s0.currentNode.value;
      assert s1.buffer[s0.dataStart..p] == s0.buffer[s0.dataStart..p] by {
        assert s1.buffer[s0.dataStart..p] == s1.buffer[..p][s0.dataStart..];
        assert s0.buffer[s0.dataStart..p] == s0.buffer[..p][s0.dataStart..];
      }
      KeptIsIn(n, s0.tempAttrName, s0.dataStart, s0.dataEnd, |s0.buffer|);
      RenderMoved(s0.buffer, s1.buffer, n, s0.dataStart, p, 0);
      ViewMoved(s0.buffer, s1.buffer, s0.tempAttrName, s0.dataStart, p, 0);
      ShiftZero(n);
    }
  }

  /** Data kept by a step that moved it by `d` still holds the produced text, and the node in flight still ends before `start`. */
  lemma PendingKept(s: State, s1: State, d: int, start: int)
    requires DecReady(s, start) && Kept(s, s1, d) && s1.currentPos == s.currentPos + d
    ensures DecReady(s1, start + d) && Pending(s1, start + d) == Pending(s, start)
  {
    ReadyKept(s, s1, d, start);
    CarriedFrom(s, s1, d, start);
    PendingMoved(s, s1, d, start);
  }

  /** The produced text reads the same from a state whose characters from `start` on moved by `d`, the gap with them. */
  lemma PendingMoved(s: State, s1: State, d: int, start: int)
    requires DecOk(s, start) && DecOk(s1, start + d)
    requires s1.currentPos == s.currentPos + d && s1.readingOffset == s.readingOffset
    requires s.readingOffset > 0 ==> s1.firstOffset == s.firstOffset + d
    requires s1.buffer[start + d..s1.currentPos] == s.buffer[start..s.currentPos]
    ensures Pending(s1, start + d) == Pending(s, start)
  {
    if s.readingOffset == 0 {
      assert Pending(s1, start + d) == s1.buffer[start + d..s1.currentPos];
    } else {
      PendingCarried(s.buffer, s1.buffer, start, s.currentPos, s.firstOffset, s.readingOffset, d);
    }
  }

  lemma ReadyKept(s: State, s1: State, d: int, start: int)
    requires DecReady(s, start) && Kept(s, s1, d) && s1.currentPos == s.currentPos + d
    ensures DecReady(s1, start + d)
  {
    var n := s.currentNode.value;
    assert s1.currentNode == Some(ShiftNode(n, d)) && s1.dataStart == s.dataStart + d && s1.tempAttrName == ShiftView(s.tempAttrName, d);
    ShiftIn(n, s.tempAttrName, s.dataStart, start, d);
  }

  /** The produced text, read from `start` to `cur` with a gap of `ro` before `f`, is the same after the characters moved by `d`. */
  lemma PendingCarried(b: seq<char>, b1: seq<char>, start: int, cur: int, f: int, ro: int, d: int)
    requires 0 <= start <= cur <= |b| && 0 <= start + d && cur + d <= |b1| && b1[start + d..cur + d] == b[start..cur]
    requires ro > 0 ==> start <= f - ro && f <= cur
    ensures ro > 0 ==> b1[start + d..f + d - ro] + b1[f + d..cur + d] == b[start..f - ro] + b[f..cur]
  {
    if ro > 0 {
      var g := f - ro;
      assert b1[start + d..g + d] == b1[start + d..cur + d][..g - start];
      assert b[start..g] == b[start..cur][..g - start];
      assert b1[f + d..cur + d] == b1[start + d..cur + d][f - start..];
      assert b[f..cur] == b[start..cur][f - start..];
    }
  }

  /**
   * What replacing the reference at the current position must give, with
   * `name` the characters up to the next ';' as `OxmlSpec.ScanRaw` finds
   * them: the scan's error, or, once the ';' is skipped too, the produced
   * text extended by what the reference stands for, the node in flight
   * unchanged, and the rest after the ';' left to read.
   */
  ghost predicate ReplaceResult(s: State, start: int, fail: bool, t: (Outcome<int>, State))
    requires DecOk(s, start) && s.currentPos < s.dataEnd
  {
    var sc := S.ScanRaw(Unscanned(s)[1..], fail, S.Char(';'));
    && (t.0.Thrown? <==> sc.Err?)
    && (t.0.Thrown? ==> t.0.error == sc.error)
    && (t.0.Done? ==>
          var a := AdvanceOf(t.1);
          && DecReady(a, start + t.0.value) && Follows(s, a, t.0.value)
          && sc.Ok? && Unscanned(a) == sc.rest[1..]
          && Pending(a, start + t.0.value) == Pending(s, start) + S.Reference(sc.value)
          && |Unscanned(a)| + Measure(a) < |Unscanned(s)| + Measure(s))
  }

  lemma ReplaceSpec(s: State, start: int, fail: bool)
    requires DecReady(s, start) && Fails(s.source) == fail && s.currentPos < s.dataEnd && s.buffer[s.currentPos] == '&'
    ensures ReplaceResult(s, start, fail, ReplaceOf(s))
  {
    if ReplaceOf(s).0.Done? {
      var s1, s2, t, d, name, w := ReplaceFacts(s, fail);
      ReplaceMoves(s, start);
      ReplaceWritten(s, start, fail, s1, s2, t, d, name, w);
    } else {
      ReplaceThrown(s, start, fail);
    }
  }

  lemma ReplaceThrown(s: State, start: int, fail: bool)
    requires DecReady(s, start) && Fails(s.source) == fail && s.currentPos < s.dataEnd && ReplaceOf(s).0.Thrown?
    ensures Unscanned(s) != [] && S.ScanRaw(Unscanned(s)[1..], fail, S.Char(';')).Err?
    ensures ReplaceOf(s).0.error == S.ScanRaw(Unscanned(s)[1..], fail, S.Char(';')).error
  {
    AdvanceHead(s);
    MoveOffsetFacts(s);
    var s1 := MoveOffsetOf(s);
    AdvanceMoves(s1);
    AdvanceHead(s1);
    var s2 := AdvanceOf(s1);
    assert Unscanned(s2) == Unscanned(s)[1..];
    RawSpec(s2, S.Char(';'), s2.currentPos, fail);
  }

  /** The states a replacement that returned passes through, and what is known of each. */
  lemma ReplaceFacts(s: State, fail: bool) returns (s1: State, s2: State, t: State, d: int, name: seq<char>, w: State)
    requires Inv(s) && OffsetsFine(s) && s.currentNode.Some? && Fails(s.source) == fail && s.currentPos < s.dataEnd
    requires ReplaceOf(s).0.Done?
    ensures ReplaceOf(s) == (Done(d), w)
    ensures s1 == MoveOffsetOf(s) && s2 == AdvanceOf(s1)
    ensures var sc := S.ScanRaw(Unscanned(s2), fail, S.Char(';'));
      && Follows(s2, t, d) && Carries(s2, t, d) && Inv(t) && t.currentPos < t.dataEnd
      && sc.Ok? && name == sc.value && Unscanned(t) == sc.rest
      && t.currentPos == s2.currentPos + d + |name|
      && t.buffer[s2.currentPos + d..t.currentPos] == name && t.buffer[t.currentPos] == ';'
    ensures t.readingOffset == s.readingOffset && (s.readingOffset > 0 ==> t.firstOffset == s.currentPos + d)
    ensures 0 <= t.currentPos - t.readingOffset - |name| - 1 && Written(t, name, w)
  {
    hide *;
    var r;
    s1, s2, r, name, w := ReplaceParts(s);
    t, d := r.state, r.shift;
    ScanPlaced(s2, fail, r, name);
    WriteFacts(t, name);
    MovedOffsets(s, s1, s2);
  }

  lemma ReplaceWritten(s: State, start: int, fail: bool, s1: State, s2: State, t: State, d: int, name: seq<char>, w: State)
    requires DecReady(s, start) && s.currentPos < s.dataEnd && s.buffer[s.currentPos] == '&'
    requires s1 == MoveOffsetOf(s) && s2 == AdvanceOf(s1)
    requires var sc := S.ScanRaw(Unscanned(s2), fail, S.Char(';'));
      && Follows(s2, t, d) && Carries(s2, t, d) && Inv(t) && t.currentPos < t.dataEnd
      && sc.Ok? && name == sc.value && Unscanned(t) == sc.rest
      && t.currentPos == s2.currentPos + d + |name|
      && t.buffer[s2.currentPos + d..t.currentPos] == name && t.buffer[t.currentPos] == ';'
    requires t.readingOffset == s.readingOffset && (s.readingOffset > 0 ==> t.firstOffset == s.currentPos + d)
    requires 0 <= t.currentPos - t.readingOffset - |name| - 1 && Written(t, name, w) && DecOk(AdvanceOf(w), start + d)
    requires |Unscanned(AdvanceOf(w))| + Measure(AdvanceOf(w)) < |Unscanned(s)| + Measure(s)
    ensures ReplaceResult(s, start, fail, (Done(d), w))
  {
    ReplaceFromNode(s, start, s1, s2, t, d, name, w);
    ReplaceFromText(s, start, fail, s1, s2, t, d, name, w);
    ReplaceConclude(s, start, fail, d, w);
  }

  /** The facts gathered about a replacement that returned, as `ReplaceResult` states them. */
  lemma ReplaceConclude(s: State, start: int, fail: bool, d: int, w: State)
    requires DecReady(s, start) && s.currentPos < s.dataEnd
    requires var a := AdvanceOf(w); var sc := S.ScanRaw(Unscanned(s)[1..], fail, S.Char(';'));
      && DecReady(a, start + d) && Follows(s, a, d)
      && sc.Ok? && Unscanned(a) == sc.rest[1..]
      && Pending(a, start + d) == Pending(s, start) + S.Reference(sc.value)
    requires |Unscanned(AdvanceOf(w))| + Measure(AdvanceOf(w)) < |Unscanned(s)| + Measure(s)
    ensures ReplaceResult(s, start, fail, (Done(d), w))
  {
  }

  /** `ReplaceDone` on the states the replacement passes through: the node in flight. */
  lemma ReplaceFromNode(s: State, start: int, s1: State, s2: State, t: State, d: int, name: seq<char>, w: State)
    requires DecReady(s, start) && s.currentPos < s.dataEnd
    requires s1 == MoveOffsetOf(s) && s2 == AdvanceOf(s1)
    requires Follows(s2, t, d) && t.readingOffset == s.readingOffset
    requires t.currentPos == s2.currentPos + d + |name| && t.currentPos < |t.buffer|
    requires Written(t, name, w) && DecOk(AdvanceOf(w), start + d)
    ensures DecReady(AdvanceOf(w), start + d) && Follows(s, AdvanceOf(w), d)
  {
    MovedNode(s, start, s1, s2);
    ReplaceTailNode(s, start, s2, t, d, name, w);
  }

  /** `ReplaceDone` on the states the replacement passes through: the text. */
  lemma ReplaceFromText(s: State, start: int, fail: bool, s1: State, s2: State, t: State, d: int, name: seq<char>, w: State)
    requires DecReady(s, start) && s.currentPos < s.dataEnd && s.buffer[s.currentPos] == '&'
    requires s1 == MoveOffsetOf(s) && s2 == AdvanceOf(s1)
    requires var sc := S.ScanRaw(Unscanned(s2), fail, S.Char(';'));
      && Carries(s2, t, d) && Inv(t) && t.currentPos < t.dataEnd
      && sc.Ok? && name == sc.value && Unscanned(t) == sc.rest
      && t.currentPos == s2.currentPos + d + |name|
      && t.buffer[s2.currentPos + d..t.currentPos] == name && t.buffer[t.currentPos] == ';'
    requires t.readingOffset == s.readingOffset && (s.readingOffset > 0 ==> t.firstOffset == s.currentPos + d)
    requires 0 <= t.currentPos - t.readingOffset - |name| - 1 && Written(t, name, w) && DecOk(AdvanceOf(w), start + d)
    ensures var sc := S.ScanRaw(Unscanned(s)[1..], fail, S.Char(';'));
      && sc.Ok? && Unscanned(AdvanceOf(w)) == sc.rest[1..]
      && Pending(AdvanceOf(w), start + d) == Pending(s, start) + S.Reference(sc.value)
  {
    MovedAdvanced(s, start, s1, s2);
    ReplaceTailText(s, start, s1, s2, t, d, name, w, S.ScanRaw(Unscanned(s2), fail, S.Char(';')));
  }

  /** Moving the data back and skipping the '&' keep the offset, and leave the gap at the '&'. */
  lemma MovedOffsets(s: State, s1: State, s2: State)
    requires Inv(s) && OffsetsFine(s) && s.currentPos < s.dataEnd && s1 == MoveOffsetOf(s) && s2 == AdvanceOf(s1)
    ensures s2.readingOffset == s.readingOffset && (s.readingOffset > 0 ==> s2.firstOffset == s.currentPos)
  {
    MoveOffsetFacts(s);
  }

  /** Moving the data back and skipping the '&' leave the node in flight alone. */
  lemma MovedNode(s: State, start: int, s1: State, s2: State)
    requires DecReady(s, start) && s.currentPos < s.dataEnd && s1 == MoveOffsetOf(s) && s2 == AdvanceOf(s1)
    ensures Follows(s, s2, 0) && s2.currentNode == s.currentNode && s2.dataStart == s.dataStart && s2.tempAttrName == s.tempAttrName
  {
    MovedFacts(s, start);
    MoveOffsetFacts(s);
    AdvanceFollows(s1);
    FollowsTrans(s, s1, s2, 0, 0);
  }

  /** Where moving the data back and skipping the '&' leave things. */
  lemma MovedAdvanced(s: State, start: int, s1: State, s2: State)
    requires DecReady(s, start) && s.currentPos < s.dataEnd && s1 == MoveOffsetOf(s) && s2 == AdvanceOf(s1)
    ensures Follows(s, s1, 0) && s1 == s.(buffer := s1.buffer, firstOffset := s1.firstOffset) && |s1.buffer| == |s.buffer|
    ensures s1.buffer[s.currentPos..] == s.buffer[s.currentPos..] && s1.buffer[start..s.currentPos - s.readingOffset] == Pending(s, start)
    ensures s.readingOffset > 0 ==> s1.firstOffset == s.currentPos
    ensures s2 == s1.(currentPos := s.currentPos + 1) && Kept(s1, s2, 0) && Inv(s2) && OffsetsFine(s2)
    ensures Unscanned(s2) == Unscanned(s)[1..] && Fails(s2.source) == Fails(s.source)
  {
    MoveOffsetFacts(s);
    MovedFacts(s, start);
    AdvanceHead(s);
    AdvanceHead(s1);
    AdvanceKept(s1);
  }

  /** The scan of the name, placed: what it keeps, and where it stops. */
  lemma ScanPlaced(s2: State, fail: bool, r: Step<View>, name: seq<char>)
    requires Inv(s2) && OffsetsFine(s2) && s2.currentNode.Some? && Fails(s2.source) == fail
    requires r == RawOf(s2, S.Char(';'), s2.currentPos) && r.out.Done?
    requires ViewIn(r.out.value, 0, |r.state.buffer|) && name == ViewText(r.state.buffer, r.out.value)
    ensures var sc := S.ScanRaw(Unscanned(s2), fail, S.Char(';')); var t := r.state;
      && Follows(s2, t, r.shift) && Carries(s2, t, r.shift) && Inv(t) && t.currentPos < t.dataEnd
      && t.readingOffset == s2.readingOffset && (s2.readingOffset > 0 ==> t.firstOffset == s2.firstOffset + r.shift)
      && sc.Ok? && name == sc.value && Unscanned(t) == sc.rest
      && t.currentPos == s2.currentPos + r.shift + |name|
      && t.buffer[s2.currentPos + r.shift..t.currentPos] == name && t.buffer[t.currentPos] == ';'
  {
    RawSpec(s2, S.Char(';'), s2.currentPos, fail);
    ScanName(s2, fail, r, name, s2.currentPos + r.shift);
  }

  /** Moving the data back changes neither the node in flight nor the produced text, which now ends `readingOffset` places before the current position. */
  lemma MovedFacts(s: State, start: int)
    requires DecReady(s, start)
    ensures var s1 := MoveOffsetOf(s);
      && Follows(s, s1, 0) && s1.buffer[start..s.currentPos - s.readingOffset] == Pending(s, start)
  {
    MoveOffsetFacts(s);
    var s1 := MoveOffsetOf(s);
    if s.readingOffset > 0 {
      var g := s.currentPos - s.readingOffset;
      assert s1.buffer[..start] == s1.buffer[..g][..start];
      assert s.buffer[..start] == s.buffer[..s.firstOffset - s.readingOffset][..start];
      assert s1.buffer[start..g] == s1.buffer[..g][start..];
    }
    FrameFollows(s, s1, start);
  }

  /** The last part of `ReplaceWritten`: the node in flight. */
  lemma ReplaceTailNode(s: State, start: int, s2: State, t: State, d: int, name: seq<char>, w: State)
    requires DecReady(s, start) && Follows(s, s2, 0) && Follows(s2, t, d)
    requires s2.currentNode == s.currentNode && s2.dataStart == s.dataStart && s2.tempAttrName == s.tempAttrName
    requires Inv(t) && t.readingOffset == s.readingOffset && t.currentPos == s.currentPos + 1 + d + |name| && t.currentPos < |t.buffer|
    requires Written(t, name, w) && DecOk(AdvanceOf(w), start + d)
    ensures DecReady(AdvanceOf(w), start + d) && Follows(s, AdvanceOf(w), d)
  {
    hide *;
    NodeBounds(s, start, s2, t, d, name, w);
    WrittenFrame(t, name, w, start + d);
    ReplaceFollows(s, start, s2, t, d, w);
  }

  /** The positions `ReplaceTailNode` works with are in the buffer, and the rewrite changes only the buffer and the offsets. */
  lemma NodeBounds(s: State, start: int, s2: State, t: State, d: int, name: seq<char>, w: State)
    requires DecReady(s, start) && Follows(s, s2, 0) && Follows(s2, t, d)
    requires Inv(t) && t.readingOffset == s.readingOffset && t.currentPos == s.currentPos + 1 + d + |name| && t.currentPos < |t.buffer|
    requires Written(t, name, w)
    ensures Inv(t) && 0 <= t.readingOffset && 0 <= t.currentPos - t.readingOffset - |name| - 1 && t.currentPos < |t.buffer|
    ensures 0 <= start + d <= t.currentPos - t.readingOffset - |name| - 1
    ensures w == t.(buffer := w.buffer, readingOffset := w.readingOffset, firstOffset := w.firstOffset)
    ensures |w.buffer| == |t.buffer| && w.readingOffset >= 0 && start + d <= t.currentPos
  {
  }

  /** The last part of `ReplaceDone`: the text. */
  lemma ReplaceTailText(s: State, start: int, s1: State, s2: State, t: State, d: int, name: seq<char>, w: State, sc: S.Res<seq<char>>)
    requires DecOk(s, start) && s.currentPos < s.dataEnd && s.buffer[s.currentPos] == '&'
    requires s1 == s.(buffer := s1.buffer, firstOffset := s1.firstOffset) && |s1.buffer| == |s.buffer|
    requires s1.buffer[s.currentPos..] == s.buffer[s.currentPos..] && s1.buffer[start..s.currentPos - s.readingOffset] == Pending(s, start)
    requires s2 == s1.(currentPos := s.currentPos + 1) && Carries(s2, t, d)
    requires Inv(t) && t.readingOffset == s.readingOffset && (s.readingOffset > 0 ==> t.firstOffset == s.currentPos + d)
    requires sc.Ok? && name == sc.value && Unscanned(t) == sc.rest && t.currentPos < t.dataEnd
    requires t.currentPos == s2.currentPos + d + |name| && t.buffer[s2.currentPos + d..t.currentPos] == name && t.buffer[t.currentPos] == ';'
    requires Written(t, name, w) && DecOk(AdvanceOf(w), start + d)
    ensures Unscanned(AdvanceOf(w)) == sc.rest[1..]
    ensures Pending(AdvanceOf(w), start + d) == Pending(s, start) + S.Reference(name)
  {
    hide *;
    var amp, nb, st := s.currentPos + d, s2.currentPos + d, start + d;
    TailBounds(s, start, s1, s2, t, d, name, w);
    NameText(s, start, s1, s2, t, d, st, amp);
    WrittenFrame(t, name, w, st);
    AdvanceHead(w);
    PendingWritten(t, w, st, amp, nb, name, Pending(s, start));
  }

  /** The positions `ReplaceTailText` works with are in the buffer, and the rewrite leaves a state that can advance. */
  lemma TailBounds(s: State, start: int, s1: State, s2: State, t: State, d: int, name: seq<char>, w: State)
    requires DecOk(s, start) && s.currentPos < s.dataEnd
    requires s1 == s.(buffer := s1.buffer, firstOffset := s1.firstOffset) && |s1.buffer| == |s.buffer|
    requires s2 == s1.(currentPos := s.currentPos + 1) && Carries(s2, t, d)
    requires Inv(t) && t.readingOffset == s.readingOffset
    requires t.currentPos < t.dataEnd && t.currentPos == s2.currentPos + d + |name|
    requires Written(t, name, w)
    ensures 0 <= t.readingOffset && 0 <= t.currentPos - t.readingOffset - |name| - 1 && t.currentPos < |t.buffer|
    ensures 0 <= start + d <= t.currentPos - t.readingOffset - |name| - 1
    ensures Fine(w) && w.currentPos < w.dataEnd
  {
  }

  /** The scan of the name stops on the ';', having read what `OxmlSpec.ScanRaw` reads. */
  lemma ScanName(s2: State, fail: bool, r: Step<View>, name: seq<char>, nb: int)
    requires Inv(s2) && s2.currentNode.Some? && RawResult(s2, S.Char(';'), s2.currentPos, fail, r) && r.out.Done?
    requires ViewIn(r.out.value, 0, |r.state.buffer|) && name == ViewText(r.state.buffer, r.out.value) && nb == s2.currentPos + r.shift
    ensures var sc := S.ScanRaw(Unscanned(s2), fail, S.Char(';'));
      && sc.Ok? && name == sc.value && Unscanned(r.state) == sc.rest
      && r.state.currentPos == nb + |name|
      && r.state.buffer[nb..r.state.currentPos] == name && r.state.buffer[r.state.currentPos] == ';'
  {
    var t := r.state;
    AdvanceHead(t);
  }

  /** What the rewrite leaves alone: the characters before `p`, and all that is still to be read. */
  lemma WrittenFrame(t: State, name: seq<char>, w: State, p: int)
    requires Inv(t) && 0 <= t.readingOffset && 0 <= t.currentPos - t.readingOffset - |name| - 1 && t.currentPos < |t.buffer|
    requires Written(t, name, w) && 0 <= p <= t.currentPos - t.readingOffset - |name| - 1
    ensures w.buffer[..p] == t.buffer[..p] && Unscanned(w) == Unscanned(t)
  {
    hide *;
    WrittenAround(t, name, w);
    var at := t.currentPos - t.readingOffset - |name| - 1;
    PrefixAgrees(w.buffer, t.buffer, at, p);
    SuffixAgrees(w.buffer, t.buffer, t.currentPos, t.dataEnd);
    UnscannedIs(w);
    UnscannedIs(t);
  }

  /** What a rewrite keeps: the same positions and source, the characters before the reference and from the ';' on. */
  lemma WrittenAround(t: State, name: seq<char>, w: State)
    requires Inv(t) && 0 <= t.readingOffset && 0 <= t.currentPos - t.readingOffset - |name| - 1 && t.currentPos < |t.buffer|
    requires Written(t, name, w)
    ensures var at := t.currentPos - t.readingOffset - |name| - 1;
      && w.currentPos == t.currentPos && w.dataEnd == t.dataEnd && w.source == t.source
      && |w.buffer| == |t.buffer| && 0 <= t.currentPos <= t.dataEnd <= |t.buffer|
      && w.buffer[t.currentPos..] == t.buffer[t.currentPos..] && w.buffer[..at] == t.buffer[..at]
  {
  }

  lemma PrefixAgrees(b1: seq<char>, b2: seq<char>, at: int, p: int)
    requires 0 <= p <= at <= |b1| && at <= |b2| && b1[..at] == b2[..at]
    ensures b1[..p] == b2[..p]
  {
    assert b1[..p] == b1[..at][..p];
    assert b2[..p] == b2[..at][..p];
  }

  lemma SuffixAgrees(b1: seq<char>, b2: seq<char>, c: int, e: int)
    requires 0 <= c <= e <= |b1| && |b1| == |b2| && b1[c..] == b2[c..]
    ensures b1[c..e] == b2[c..e]
  {
    assert b1[c..e] == b1[c..][..e - c];
    assert b2[c..e] == b2[c..][..e - c];
  }

  /** The rewrite and the ';' leave the node in flight as it was, moved by the shift. */
  lemma ReplaceFollows(s: State, start: int, s2: State, t: State, d: int, w: State)
    requires DecReady(s, start) && Follows(s, s2, 0) && Follows(s2, t, d)
    requires s2.currentNode == s.currentNode && s2.dataStart == s.dataStart && s2.tempAttrName == s.tempAttrName
    requires w == t.(buffer := w.buffer, readingOffset := w.readingOffset, firstOffset := w.firstOffset)
    requires |w.buffer| == |t.buffer| && w.readingOffset >= 0 && start + d <= t.currentPos
    requires w.buffer[..start + d] == t.buffer[..start + d] && DecOk(AdvanceOf(w), start + d)
    ensures DecReady(AdvanceOf(w), start + d) && Follows(s, AdvanceOf(w), d)
  {
    var n := s.currentNode.value;
    ShiftIn(n, s.tempAttrName, s.dataStart, start, d);
    FrameFollows(t, w, start + d);
    AdvanceFollows(w);
    FollowsTrans(s, s2, t, 0, d);
    FollowsTrans(s, t, w, d, 0);
    FollowsTrans(s, w, AdvanceOf(w), d, 0);
  }

  /** Where the scan of the name leaves the produced text and the '&'. */
  lemma NameText(s: State, start: int, s1: State, s2: State, t: State, d: int, st: int, amp: int)
    requires DecOk(s, start) && s.currentPos < s.dataEnd && s.buffer[s.currentPos] == '&'
    requires s1 == s.(buffer := s1.buffer, firstOffset := s1.firstOffset) && |s1.buffer| == |s.buffer|
    requires s1.buffer[s.currentPos..] == s.buffer[s.currentPos..]
    requires s1.buffer[start..s.currentPos - s.readingOffset] == Pending(s, start)
    requires s2 == s1.(currentPos := s.currentPos + 1) && Carries(s2, t, d)
    requires t.readingOffset == s.readingOffset && st == start + d && amp == s.currentPos + d
    ensures t.buffer[st..amp - t.readingOffset] == Pending(s, start) && t.buffer[amp] == '&'
  {
    hide Pending;
    var c, g := s.currentPos, s.currentPos - s.readingOffset;
    CarriedFrom(s2, t, d, start);
    SliceShift(s1.buffer, t.buffer, start, d, c + 1, g);
    SliceShift(s1.buffer, t.buffer, start, d, c + 1, c);
    assert s1.buffer[c] == s1.buffer[c..][0] == s.buffer[c..][0];
  }

  /** After the rewrite and the ';', the produced text is what it was, followed by what the reference stands for. */
  lemma PendingWritten(t: State, w: State, st: int, amp: int, nb: int, name: seq<char>, p: seq<char>)
    requires 0 <= t.readingOffset && t.currentPos == amp + 1 + |name| && 0 <= amp - t.readingOffset && t.currentPos < |t.buffer|
    requires Written(t, name, w) && DecOk(AdvanceOf(w), st) && w.currentPos < w.dataEnd
    requires st <= amp - t.readingOffset && t.buffer[st..amp - t.readingOffset] == p
    requires t.buffer[amp] == '&' && nb == amp + 1 && t.buffer[nb..t.currentPos] == name && t.buffer[t.currentPos] == ';'
    requires t.readingOffset > 0 ==> t.firstOffset == amp
    ensures Pending(AdvanceOf(w), st) == p + S.Reference(name)
  {
    if w.readingOffset != t.readingOffset {
      PendingRewritten(t, w, st, amp, nb, name, p);
    } else {
      PendingUnwritten(t, w, st, amp, nb, name, p);
    }
  }

  /** `PendingWritten` for a reference that was rewritten: the gap grew past the ';'. */
  lemma PendingRewritten(t: State, w: State, st: int, amp: int, nb: int, name: seq<char>, p: seq<char>)
    requires 0 <= t.readingOffset && t.currentPos == amp + 1 + |name| && 0 <= amp - t.readingOffset && t.currentPos < |t.buffer|
    requires Written(t, name, w) && DecOk(AdvanceOf(w), st) && w.currentPos < w.dataEnd
    requires st <= amp - t.readingOffset && t.buffer[st..amp - t.readingOffset] == p
    requires t.buffer[amp] == '&' && nb == amp + 1 && t.buffer[nb..t.currentPos] == name && t.buffer[t.currentPos] == ';'
    requires t.readingOffset > 0 ==> t.firstOffset == amp
    requires w.readingOffset != t.readingOffset
    ensures Pending(AdvanceOf(w), st) == p + S.Reference(name)
  {
    var a := AdvanceOf(w);
    var at := amp - t.readingOffset;
    var c := t.currentPos;
    var g := w.firstOffset - w.readingOffset;
    assert Pending(a, st) == w.buffer[st..g] + w.buffer[c + 1..c + 1];
    SeqWritten(t.buffer, w.buffer, st, at, g, p, S.Reference(name));
  }

  /** `PendingWritten` for a reference left as it was: its characters stay in the text. */
  lemma PendingUnwritten(t: State, w: State, st: int, amp: int, nb: int, name: seq<char>, p: seq<char>)
    requires 0 <= t.readingOffset && t.currentPos == amp + 1 + |name| && 0 <= amp - t.readingOffset && t.currentPos < |t.buffer|
    requires Written(t, name, w) && DecOk(AdvanceOf(w), st) && w.currentPos < w.dataEnd
    requires st <= amp - t.readingOffset && t.buffer[st..amp - t.readingOffset] == p
    requires t.buffer[amp] == '&' && nb == amp + 1 && t.buffer[nb..t.currentPos] == name && t.buffer[t.currentPos] == ';'
    requires t.readingOffset > 0 ==> t.firstOffset == amp
    requires w.readingOffset == t.readingOffset
    ensures Pending(AdvanceOf(w), st) == p + S.Reference(name)
  {
    hide *;
    var a := AdvanceOf(w);
    var at := amp - t.readingOffset;
    var c := t.currentPos;
    Unwritten(t, name, w);
    PendingSplit(a, st, amp);
    SeqPlain(t.buffer, st, at, amp, c, p, name);
  }

  /** A rewrite that kept the offset changed nothing. */
  lemma Unwritten(t: State, name: seq<char>, w: State)
    requires 0 <= t.readingOffset && 0 <= t.currentPos - t.readingOffset - |name| - 1 && t.currentPos < |t.buffer|
    requires Written(t, name, w) && w.readingOffset == t.readingOffset && w.currentPos < w.dataEnd
    ensures w == t && S.Reference(name) == "&" + name + ";" && AdvanceOf(w) == t.(currentPos := t.currentPos + 1)
  {
  }

  /** The produced text right after a reference that stayed as it was: the gap, if any, ends on its '&'. */
  lemma PendingSplit(a: State, st: int, amp: int)
    requires DecOk(a, st) && amp < a.currentPos && st <= amp - a.readingOffset
    requires a.readingOffset > 0 ==> a.firstOffset == amp
    ensures 0 <= st
    ensures a.readingOffset == 0 ==> Pending(a, st) == a.buffer[st..a.currentPos]
    ensures a.readingOffset > 0 ==> Pending(a, st) == a.buffer[st..amp - a.readingOffset] + a.buffer[amp..a.currentPos]
  {
  }

  lemma SeqWritten(b: seq<char>, b1: seq<char>, st: int, at: int, g: int, p: seq<char>, x: seq<char>)
    requires 0 <= st <= at <= g <= |b1| && at <= |b| && b1[..at] == b[..at] && b[st..at] == p && b1[at..g] == x
    ensures b1[st..g] == p + x
  {
    assert b1[st..g] == b1[..at][st..] + b1[at..g];
    assert b[st..at] == b[..at][st..];
  }

  lemma SeqPlain(b: seq<char>, st: int, at: int, amp: int, c: int, p: seq<char>, name: seq<char>)
    requires 0 <= st <= at <= amp < c < |b| && b[st..at] == p
    requires b[amp] == '&' && b[amp + 1..c] == name && b[c] == ';'
    ensures b[st..at] + b[amp..c + 1] == p + ("&" + name + ";")
    ensures at == amp ==> b[st..c + 1] == b[st..at] + b[amp..c + 1]
  {
    assert b[amp..c + 1] == [b[amp]] + b[amp + 1..c] + [b[c]];
    assert [b[amp]] + b[amp + 1..c] + [b[c]] == "&" + name + ";";
  }

  lemma DecLater(s: State, a: State, start: int, d: int, before: seq<char>, p: seq<char>, sa: S.Res<seq<char>>, q: Step<View>, r: Step<View>)
    requires Follows(s, a, d) && DecShows(a, start + d, before + p, q, sa) && r == Later(d, q)
    ensures DecShows(s, start, before, r, S.Prepend(p, sa))
  {
    if q.out.Done? {
      FollowsTrans(s, a, q.state, d, q.shift);
      assert before + p + sa.value == before + (p + sa.value);
    }
  }

  /**
   * What a step that moved the data by `d` and produced `p` leaves to the
   * rest of the scan: if the rest gives its result, the whole scan gives
   * the text before the step, then `p`, then the rest's text.
   */
  lemma DecMoved(s: State, a: State, u: S.Until, start: int, fail: bool, d: int, p: seq<char>, q: Step<View>, r: Step<View>)
    requires DecOk(s, start) && DecOk(a, start + d) && Follows(s, a, d)
    requires Pending(a, start + d) == Pending(s, start) + p
    requires S.ScanDecoded(Unscanned(s), fail, u) == S.Prepend(p, S.ScanDecoded(Unscanned(a), fail, u))
    requires DecResult(a, u, start + d, fail, q) && r == Later(d, q)
    ensures DecResult(s, u, start, fail, r)
  {
    DecLater(s, a, start, d, Pending(s, start), p, S.ScanDecoded(Unscanned(a), fail, u), q, r);
  }

  /** Moving past a character that is not an '&' adds it to the produced text. */
  lemma DecAdvanced(s: State, start: int)
    requires DecReady(s, start) && s.currentPos < s.dataEnd
    ensures var a := AdvanceOf(s);
      && DecReady(a, start) && Follows(s, a, 0) && Pending(a, start) == Pending(s, start) + [s.buffer[s.currentPos]]
      && Unscanned(s) != [] && Unscanned(s)[0] == s.buffer[s.currentPos] && Unscanned(a) == Unscanned(s)[1..]
      && |Unscanned(a)| + Measure(a) < |Unscanned(s)| + Measure(s)
  {
    AdvanceMoves(s);
    AdvanceHead(s);
    AdvanceFollows(s);
    PendingSnoc(s, start);
  }

  lemma PendingSnoc(s: State, start: int)
    requires DecOk(s, start) && DecOk(AdvanceOf(s), start) && s.currentPos < s.dataEnd
    ensures Pending(AdvanceOf(s), start) == Pending(s, start) + [s.buffer[s.currentPos]]
  {
    var c := s.currentPos;
    assert AdvanceOf(s) == s.(currentPos := c + 1);
    if s.readingOffset == 0 {
      SliceSnoc(s.buffer, start, c);
      assert Pending(AdvanceOf(s), start) == s.buffer[start..c + 1];
    } else {
      SliceSnoc(s.buffer, s.firstOffset, c);
      assert Pending(AdvanceOf(s), start) == s.buffer[start..s.firstOffset - s.readingOffset] + s.buffer[s.firstOffset..c + 1];
    }
  }

  lemma PrependNothing(r: S.Res<seq<char>>)
    ensures S.Prepend([], r) == r
  {
    if r.Ok? {
      assert [] + r.value == r.value;
    }
  }

  /** On a character that ends the scan, the data is moved back and the view shows all that was produced. */
  lemma DecFinished(s: State, u: S.Until, start: int, fail: bool)
    requires DecReady(s, start) && s.currentPos < s.dataEnd && !S.Continues(u, s.buffer[s.currentPos])
    ensures DecResult(s, u, start, fail, FinishOf(s, start))
  {
    hide *;
    ReadyOk(s, start);
    DecStops(s, u, start, fail);
    FinishFacts(s, start);
    FinishShows(s, start, FinishOf(s, start), Unscanned(s), Pending(s, start));
    DecResultIs(s, u, start, fail, FinishOf(s, start));
  }

  lemma ReadyOk(s: State, start: int)
    requires DecReady(s, start)
    ensures DecOk(s, start) && Fine(s)
  {
  }

  lemma DecResultIs(s: State, u: S.Until, start: int, fail: bool, r: Step<View>)
    requires DecOk(s, start)
    ensures DecResult(s, u, start, fail, r) == DecShows(s, start, Pending(s, start), r, S.ScanDecoded(Unscanned(s), fail, u))
  {
  }

  /** A character that ends the scan decodes to nothing and leaves all to the rest. */
  lemma DecStops(s: State, u: S.Until, start: int, fail: bool)
    requires DecReady(s, start) && s.currentPos < s.dataEnd && !S.Continues(u, s.buffer[s.currentPos])
    ensures S.ScanDecoded(Unscanned(s), fail, u) == S.Ok([], Unscanned(s))
  {
    AdvanceHead(s);
  }

  /** A finish that ends at the current position shows the text produced before it. */
  lemma FinishShows(s: State, start: int, f: Step<View>, rest: seq<char>, before: seq<char>)
    requires s.dataStart <= start <= s.currentPos - s.readingOffset <= s.currentPos < s.dataEnd
    requires f.out == Done(View(start, s.currentPos - s.readingOffset - start)) && f.shift == 0
    requires Follows(s, f.state, 0) && f.state.readingOffset == 0 && Unscanned(f.state) == rest
    requires f.state.currentPos == s.currentPos && f.state.dataEnd == s.dataEnd && f.state.dataStart == s.dataStart
    requires f.state.buffer[start..s.currentPos - s.readingOffset] == before
    ensures DecShows(s, start, before, f, S.Ok([], rest))
  {
    assert before + [] == before;
  }

  /** Where `FinishOf` leaves the reader: the data moved back, the offset cleared, nothing consumed, and the view over the produced text. */
  lemma FinishFacts(s: State, start: int)
    requires DecReady(s, start) && s.currentPos < s.dataEnd
    ensures var f := FinishOf(s, start);
      && f.out == Done(View(start, s.currentPos - s.readingOffset - start)) && f.shift == 0
      && Follows(s, f.state, 0) && f.state.readingOffset == 0 && Unscanned(f.state) == Unscanned(s)
      && f.state.currentPos == s.currentPos && f.state.dataEnd == s.dataEnd && f.state.dataStart == s.dataStart
      && s.dataStart <= start <= s.currentPos - s.readingOffset <= s.currentPos < s.dataEnd
      && f.state.buffer[start..s.currentPos - s.readingOffset] == Pending(s, start)
  {
    MoveOffsetFacts(s);
    MovedFacts(s, start);
    var s1 := MoveOffsetOf(s);
    assert Unscanned(s1.(readingOffset := 0)) == Unscanned(s1);
  }

  /**
   * On an '&' that continues the scan, once `OxmlSpec.ScanRaw` finds the
   * ';': the reference is replaced, and the scan goes on after the ';' from
   * a state that holds the produced text extended by what the reference
   * stands for.
   */
  lemma DecReplaceNext(s: State, u: S.Until, start: int, fail: bool) returns (a: State, d: int, name: seq<char>, rest: seq<char>)
    requires DecReady(s, start) && Fails(s.source) == fail
    requires s.currentPos < s.dataEnd && S.Continues(u, s.buffer[s.currentPos]) && s.buffer[s.currentPos] == '&'
    requires Unscanned(s) != [] && S.ScanRaw(Unscanned(s)[1..], fail, S.Char(';')).Ok?
    ensures DecReady(a, start + d) && Fails(a.source) == fail && Follows(s, a, d)
    ensures Unscanned(s)[0] == '&' && S.ScanRaw(Unscanned(s)[1..], fail, S.Char(';')) == S.Ok(name, rest) && rest != [] && Unscanned(a) == rest[1..]
    ensures Pending(a, start + d) == Pending(s, start) + S.Reference(name)
    ensures |Unscanned(a)| + Measure(a) < |Unscanned(s)| + Measure(s)
    ensures DecodedOf(s, u, start) == Later(d, DecodedOf(a, u, start + d))
  {
    var w;
    d, w := ReplaceDone(s, start, fail);
    a, name, rest := ReplaceDoneFacts(s, start, fail, d, w);
    DecReplaceUnfold(s, u, start, a, d);
  }

  /** A replacement whose ';' `OxmlSpec.ScanRaw` finds returns, with the result `ReplaceSpec` states. */
  lemma ReplaceDone(s: State, start: int, fail: bool) returns (d: int, w: State)
    requires DecReady(s, start) && Fails(s.source) == fail && s.currentPos < s.dataEnd && s.buffer[s.currentPos] == '&'
    requires Unscanned(s) != [] && S.ScanRaw(Unscanned(s)[1..], fail, S.Char(';')).Ok?
    ensures ReplaceOf(s) == (Done(d), w) && ReplaceResult(s, start, fail, (Done(d), w))
  {
    ReplaceSpec(s, start, fail);
    d, w := ReplaceOf(s).0.value, ReplaceOf(s).1;
  }

  /** What `ReplaceResult` says of a replacement that returned, as facts about the state after the ';'. */
  lemma ReplaceDoneFacts(s: State, start: int, fail: bool, d: int, w: State) returns (a: State, name: seq<char>, rest: seq<char>)
    requires DecReady(s, start) && Fails(s.source) == fail && s.currentPos < s.dataEnd && s.buffer[s.currentPos] == '&'
    requires ReplaceResult(s, start, fail, (Done(d), w))
    ensures a == AdvanceOf(w) && DecReady(a, start + d) && Fails(a.source) == fail && Follows(s, a, d)
    ensures Unscanned(s) != [] && Unscanned(s)[0] == '&'
    ensures S.ScanRaw(Unscanned(s)[1..], fail, S.Char(';')) == S.Ok(name, rest) && rest != [] && Unscanned(a) == rest[1..]
    ensures Pending(a, start + d) == Pending(s, start) + S.Reference(name)
    ensures |Unscanned(a)| + Measure(a) < |Unscanned(s)| + Measure(s)
  {
    hide *;
    ReadyOk(s, start);
    AdvanceHead(s);
    ReplaceDoneUnpacked(s, start, fail, d, w);
    a := AdvanceOf(w);
    var sc := S.ScanRaw(Unscanned(s)[1..], fail, S.Char(';'));
    name, rest := sc.value, sc.rest;
  }

  lemma ReplaceDoneUnpacked(s: State, start: int, fail: bool, d: int, w: State)
    requires DecOk(s, start) && s.currentPos < s.dataEnd && Fails(s.source) == fail
    requires ReplaceResult(s, start, fail, (Done(d), w))
    ensures var sc := S.ScanRaw(Unscanned(s)[1..], fail, S.Char(';')); var a := AdvanceOf(w);
      && DecReady(a, start + d) && Fails(a.source) == fail && Follows(s, a, d)
      && sc.Ok? && sc.rest != [] && Unscanned(a) == sc.rest[1..]
      && Pending(a, start + d) == Pending(s, start) + S.Reference(sc.value)
      && |Unscanned(a)| + Measure(a) < |Unscanned(s)| + Measure(s)
  {
  }

  /** A replacement that returned: the scan goes on after the ';' with `start` moved along. */
  lemma DecReplaceUnfold(s: State, u: S.Until, start: int, a: State, d: int)
    requires DecOk(s, start) && s.currentPos < s.dataEnd && S.Continues(u, s.buffer[s.currentPos]) && s.buffer[s.currentPos] == '&'
    requires ReplaceOf(s).0.Done? && a == AdvanceOf(ReplaceOf(s).1) && d == ReplaceOf(s).0.value && DecOk(a, start + d)
    ensures DecodedOf(s, u, start) == Later(d, DecodedOf(a, u, start + d))
  {
    hide ReplaceOf, RefillOf;
    var t := ReplaceOf(s);
    assert DecReplaceOf(s, u, start) == Later(t.0.value, DecodedOf(AdvanceOf(t.1), u, start + t.0.value));
    assert DecodedOf(s, u, start) == DecReplaceOf(s, u, start);
  }

  /** A character other than '&' that continues the scan: the scan goes on after it. */
  lemma DecAdvanceUnfold(s: State, u: S.Until, start: int)
    requires DecOk(s, start) && s.currentPos < s.dataEnd && S.Continues(u, s.buffer[s.currentPos]) && s.buffer[s.currentPos] != '&'
    ensures DecOk(AdvanceOf(s), start) && |Unscanned(AdvanceOf(s))| + Measure(AdvanceOf(s)) < |Unscanned(s)| + Measure(s)
    ensures DecodedOf(s, u, start) == DecodedOf(AdvanceOf(s), u, start)
  {
    AdvanceMoves(s);
  }

  /** A replacement that threw: so does the scan, as `OxmlSpec.ScanDecoded` does. */
  lemma DecReplaceThrown(s: State, u: S.Until, start: int, fail: bool)
    requires DecReady(s, start) && Fails(s.source) == fail
    requires s.currentPos < s.dataEnd && S.Continues(u, s.buffer[s.currentPos]) && s.buffer[s.currentPos] == '&'
    requires Unscanned(s) != [] && S.ScanRaw(Unscanned(s)[1..], fail, S.Char(';')).Err?
    ensures DecResult(s, u, start, fail, DecodedOf(s, u, start))
  {
    ReplaceSpec(s, start, fail);
    AdvanceHead(s);
    ScanDecodedAmp(Unscanned(s), fail, u);
    assert DecodedOf(s, u, start) == DecReplaceOf(s, u, start);
  }

  /** The scan after a replaced reference extends to the whole scan. */
  lemma DecReplaced(s: State, a: State, u: S.Until, start: int, fail: bool, d: int, name: seq<char>, rest: seq<char>, q: Step<View>)
    requires DecReady(s, start) && DecOk(a, start + d) && Follows(s, a, d) && S.Continues(u, '&')
    requires Unscanned(s) != [] && Unscanned(s)[0] == '&'
    requires S.ScanRaw(Unscanned(s)[1..], fail, S.Char(';')) == S.Ok(name, rest) && rest != [] && Unscanned(a) == rest[1..]
    requires Pending(a, start + d) == Pending(s, start) + S.Reference(name)
    requires DecResult(a, u, start + d, fail, q)
    ensures DecResult(s, u, start, fail, Later(d, q))
  {
    ScanDecodedAmp(Unscanned(s), fail, u);
    DecMoved(s, a, u, start, fail, d, S.Reference(name), q, Later(d, q));
  }

  /** `OxmlSpec.ScanDecoded` on an '&' that continues the scan: the reference, then the rest after its ';'. */
  lemma ScanDecodedAmp(x: seq<char>, fail: bool, u: S.Until)
    requires x != [] && x[0] == '&' && S.Continues(u, '&')
    ensures var sc := S.ScanRaw(x[1..], fail, S.Char(';'));
      S.ScanDecoded(x, fail, u) == if sc.Err? then S.Err(sc.error) else S.Prepend(S.Reference(sc.value), S.ScanDecoded(sc.rest[1..], fail, u))
  {
  }

  /** The scan after a character other than '&' extends to the whole scan, with that character in front. */
  lemma DecAdvanceCase(s: State, u: S.Until, start: int, fail: bool, q: Step<View>)
    requires DecReady(s, start) && s.currentPos < s.dataEnd && S.Continues(u, s.buffer[s.currentPos]) && s.buffer[s.currentPos] != '&'
    requires DecOk(AdvanceOf(s), start) && DecResult(AdvanceOf(s), u, start, fail, q)
    ensures DecResult(s, u, start, fail, q)
  {
    DecAdvanced(s, start);
    var a := AdvanceOf(s);
    assert S.ScanDecoded(Unscanned(s), fail, u) == S.Prepend([s.buffer[s.currentPos]], S.ScanDecoded(Unscanned(a), fail, u));
    DecMoved(s, a, u, start, fail, 0, [s.buffer[s.currentPos]], q, q);
  }

  /** A refill that returned: the scan goes on from the refilled state with `start` moved along. */
  lemma DecRefillUnfold(s: State, u: S.Until, start: int, s1: State, d: int)
    requires DecOk(s, start) && s.currentPos == s.dataEnd && s.hasMoreData && RefillOf(s).0.Done?
    requires s1 == RefillOf(s).1 && d == RefillOf(s).0.value && DecOk(s1, start + d)
    ensures DecodedOf(s, u, start) == Later(d, DecodedOf(s1, u, start + d))
  {
    assert DecodedOf(s, u, start) == DecRefillOf(s, u, start);
  }

  /** A refill that threw: the source failed with nothing left to read, and the scan throws what `OxmlSpec.ScanDecoded` throws. */
  lemma DecRefillThrown(s: State, u: S.Until, start: int, fail: bool)
    requires DecOk(s, start) && Fails(s.source) == fail && s.currentPos == s.dataEnd && s.hasMoreData && RefillOf(s).0.Thrown?
    ensures DecResult(s, u, start, fail, DecodedOf(s, u, start))
  {
    RefillThrows(s);
    assert Unscanned(s) == [];
    assert DecodedOf(s, u, start) == DecRefillOf(s, u, start);
  }

  /** Where a refill that returned leaves a replacing scan: the same produced text, with the data moved by `d`. */
  lemma RefillDoneFacts(s: State, u: S.Until, start: int) returns (s1: State, d: int)
    requires DecReady(s, start) && s.currentPos == s.dataEnd && s.hasMoreData && RefillOf(s).0.Done?
    ensures DecReady(s1, start + d) && Fails(s1.source) == Fails(s.source) && Follows(s, s1, d)
    ensures Unscanned(s1) == Unscanned(s) && Pending(s1, start + d) == Pending(s, start)
    ensures |Unscanned(s1)| + Measure(s1) < |Unscanned(s)| + Measure(s)
    ensures DecodedOf(s, u, start) == Later(d, DecodedOf(s1, u, start + d))
  {
    s1, d := RefillOf(s).1, RefillOf(s).0.value;
    RefillDone(s);
    PendingKept(s, s1, d, start);
    DecRefillUnfold(s, u, start, s1, d);
  }

  /** The scan after a refill extends to the whole scan. */
  lemma DecRefilled(s: State, s1: State, u: S.Until, start: int, fail: bool, d: int, q: Step<View>, r: Step<View>)
    requires DecOk(s, start) && DecOk(s1, start + d) && Follows(s, s1, d)
    requires Unscanned(s1) == Unscanned(s) && Pending(s1, start + d) == Pending(s, start)
    requires DecResult(s1, u, start + d, fail, q) && r == Later(d, q)
    ensures DecResult(s, u, start, fail, r)
  {
    assert Pending(s, start) + [] == Pending(s, start);
    PrependNothing(S.ScanDecoded(Unscanned(s1), fail, u));
    DecMoved(s, s1, u, start, fail, d, [], q, r);
  }

  /** On an '&' that continues the scan, the reference is replaced and the scan goes on after its ';'. */
  lemma {:induction false} DecReplaceCase(s: State, u: S.Until, start: int, fail: bool)
    requires DecReady(s, start) && Fails(s.source) == fail
    requires s.currentPos < s.dataEnd && S.Continues(u, s.buffer[s.currentPos]) && s.buffer[s.currentPos] == '&'
    ensures DecResult(s, u, start, fail, DecodedOf(s, u, start))
    decreases |Unscanned(s)| + Measure(s), 1
  {
    AdvanceHead(s);
    if S.ScanRaw(Unscanned(s)[1..], fail, S.Char(';')).Ok? {
      var a, d := DecReplaceOn(s, u, start, fail);
      DecSpec(a, u, start + d, fail);
    } else {
      DecReplaceThrown(s, u, start, fail);
    }
  }

  /** After a reference that ends in a ';', the scan from `s` is right once the scan after the ';' is. */
  lemma DecReplaceOn(s: State, u: S.Until, start: int, fail: bool) returns (a: State, d: int)
    requires DecReady(s, start) && Fails(s.source) == fail
    requires s.currentPos < s.dataEnd && S.Continues(u, s.buffer[s.currentPos]) && s.buffer[s.currentPos] == '&'
    requires Unscanned(s) != [] && S.ScanRaw(Unscanned(s)[1..], fail, S.Char(';')).Ok?
    ensures DecReady(a, start + d) && Fails(a.source) == fail
    ensures |Unscanned(a)| + Measure(a) < |Unscanned(s)| + Measure(s)
    ensures DecResult(a, u, start + d, fail, DecodedOf(a, u, start + d)) ==> DecResult(s, u, start, fail, DecodedOf(s, u, start))
  {
    var name, rest;
    a, d, name, rest := DecReplaceNext(s, u, start, fail);
    var q := DecodedOf(a, u, start + d);
    if DecResult(a, u, start + d, fail, q) {
      DecReplaced(s, a, u, start, fail, d, name, rest, q);
    }
  }

  /** On a character other than '&' that continues the scan, the scan moves past it. */
  lemma {:induction false} DecAdvancing(s: State, u: S.Until, start: int, fail: bool)
    requires DecReady(s, start) && Fails(s.source) == fail
    requires s.currentPos < s.dataEnd && S.Continues(u, s.buffer[s.currentPos]) && s.buffer[s.currentPos] != '&'
    ensures DecResult(s, u, start, fail, DecodedOf(s, u, start))
    decreases |Unscanned(s)| + Measure(s), 1
  {
    DecAdvanced(s, start);
    var a := AdvanceOf(s);
    DecSpec(a, u, start, fail);
    assert DecodedOf(s, u, start) == DecodedOf(a, u, start);
    DecAdvanceCase(s, u, start, fail, DecodedOf(a, u, start));
  }

  /** At the end of the buffer, the scan refills and goes on, or throws what the refill threw. */
  lemma {:induction false} DecRefillCase(s: State, u: S.Until, start: int, fail: bool)
    requires DecReady(s, start) && Fails(s.source) == fail && s.currentPos == s.dataEnd && s.hasMoreData
    ensures DecResult(s, u, start, fail, DecodedOf(s, u, start))
    decreases |Unscanned(s)| + Measure(s), 1
  {
    RefillThrows(s);
    if RefillOf(s).0.Done? {
      var s1, d := RefillDoneFacts(s, u, start);
      DecSpec(s1, u, start + d, fail);
      DecRefilled(s, s1, u, start, fail, d, DecodedOf(s1, u, start + d), DecodedOf(s, u, start));
    } else {
      DecRefillThrown(s, u, start, fail);
    }
  }

  /**
   * The replacing scan consumes what `OxmlSpec.ScanDecoded` consumes and
   * throws when it does, and its view shows the text produced before it
   * followed by the decoded text.
   */
  lemma {:induction false} DecSpec(s: State, u: S.Until, start: int, fail: bool)
    requires DecReady(s, start) && Fails(s.source) == fail
    ensures DecResult(s, u, start, fail, DecodedOf(s, u, start))
    decreases |Unscanned(s)| + Measure(s), 2
  {
    if s.currentPos != s.dataEnd && S.Continues(u, s.buffer[s.currentPos]) {
      if s.buffer[s.currentPos] == '&' {
        DecReplaceCase(s, u, start, fail);
      } else {
        DecAdvancing(s, u, start, fail);
      }
    } else if s.currentPos != s.dataEnd {
      DecFinished(s, u, start, fail);
    } else if !s.hasMoreData {
      assert Unscanned(s) == [];
    } else {
      DecRefillCase(s, u, start, fail);
    }
  }

  /** `ReplaceOf` in terms of the scan of the name, for the reader that runs its steps one by one. */
  lemma ReplaceSteps(s: State, s2: State, r: Step<View>)
    requires Inv(s) && OffsetsFine(s) && s.currentNode.Some? && s.currentPos < s.dataEnd
    requires s2 == AdvanceOf(MoveOffsetOf(s)) && r == RawOf(s2, S.Char(';'), s2.currentPos)
    ensures r.out.Thrown? ==> ReplaceOf(s) == (Thrown(r.out.error), r.state)
    ensures r.out.Done? ==>
      && ViewIn(r.out.value, 0, |r.state.buffer|) && r.state.dataStart == s2.dataStart + r.shift
      && 0 <= r.state.readingOffset && 0 <= r.state.currentPos - r.state.readingOffset - r.out.value.size - 1 && r.state.currentPos < |r.state.buffer|
      && ReplaceOf(s) == (Done(r.shift), WriteReferenceOf(r.state, ViewText(r.state.buffer, r.out.value)))
  {
    MoveOffsetFacts(s);
    AdvanceMoves(MoveOffsetOf(s));
    RawPlaced(s2, S.Char(';'), s2.currentPos);
    if r.out.Done? {
      var s1, s2', r', name, w := ReplaceParts(s);
    }
  }
}
