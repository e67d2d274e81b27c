/**
 * The parsing operations of `oxml::Reader` as the original computes them,
 * as functions on the reader's state: the scan `parseWhileFrom` with the
 * in-place replacement of character references, and the node parsers
 * `parseOpeningNode`, `parseClosingNode`, `parseTextNode`,
 * `ignoreSpecialXML`, `ignoreNodeEnd` and `readNode`. The class `Reader` of
 * module `Oxml` runs them in place.
 *
 * Every scan of the original replaces references: `parseUntilFrom` does not
 * hand its `ignoreCR` on to `parseWhileFrom`, so comments, CDATA sections
 * and the names of references are decoded too, and a scan always ends by
 * moving the offset data back and clearing `readingOffset` (the release
 * build, which leaves `firstOffset` where it is). Where the original
 * reads or writes outside its buffer, or forms a pointer before it, the
 * functions throw `Undefined` instead.
 */
module OxmlParse {

  import opened Chars
  import opened OxmlNodes
  import opened OxmlState
  import opened OxmlSteps
  import OxmlDecode
  import S = OxmlSpec

  /** What an operation of the reader returned or threw, and the state it left. */
  datatype Run<T> = Run(out: Outcome<T>, state: State)

  /**
   * A `std::string_view` a scan returns: where it starts, and its length as
   * the original computes it, which may come out negative (a huge `size_t`).
   */
  datatype Span = Span(start: int, length: int)

  /** How much is left to read: the characters not consumed, and the reads still to come. */
  ghost function Left(s: State): nat
  {
    |Unscanned(s)| + Measure(s)
  }

  /** From `s` to `r` the reader only consumed characters and made reads. */
  ghost predicate Consumed(s: State, r: State)
  {
    Left(r) <= Left(s)
  }

  /** The node in flight is still there and of the same kind, or still absent. */
  ghost predicate SameNode(s: State, r: State)
  {
    && (r.currentNode.Some? <==> s.currentNode.Some?)
    && (s.currentNode.Some? ==> TypeOf(r.currentNode.value) == TypeOf(s.currentNode.value))
  }

  /** What every operation that returns guarantees: the positions stay ordered, and the reader only moved forward. */
  ghost predicate Onward(s: State, r: State)
  {
    Fine(r) && Consumed(s, r) && SameNode(s, r)
  }

  /** A scan for `u` stopped on a character in the buffer that does not continue it. */
  ghost predicate Stopped(s: State, u: S.Until)
  {
    0 <= s.currentPos < s.dataEnd <= |s.buffer| && !S.Continues(u, s.buffer[s.currentPos])
  }

  /** The current character is in the buffer and continues `u`. */
  ghost predicate Moves(s: State, u: S.Until)
  {
    0 <= s.currentPos < s.dataEnd <= |s.buffer| && S.Continues(u, s.buffer[s.currentPos])
  }

  /** From `s` to `r` only the buffer before the current position, `readingOffset` and `firstOffset` changed. */
  ghost predicate Behind(s: State, r: State)
  {
    && r == s.(buffer := r.buffer, readingOffset := r.readingOffset, firstOffset := r.firstOffset)
    && |r.buffer| == |s.buffer| && r.readingOffset >= 0
    && (0 <= s.currentPos < |s.buffer| ==> r.buffer[s.currentPos] == s.buffer[s.currentPos])
  }

  lemma OnwardTrans(s: State, a: State, r: State)
    ensures Onward(s, a) && Onward(a, r) ==> Onward(s, r)
    ensures Onward(s, a) && Onward(a, r) && Left(a) < Left(s) ==> Left(r) < Left(s)
  {
  }

  lemma ConsumedTrans(s: State, a: State, r: State)
    ensures Consumed(s, a) && Consumed(a, r) ==> Consumed(s, r)
  {
  }

  lemma OnwardRefl(s: State)
    requires Fine(s)
    ensures Onward(s, s)
  {
  }

  /** A change behind the current position leaves what is to be read alone. */
  lemma BehindFacts(s: State, r: State)
    requires Fine(s) && Behind(s, r)
    ensures Onward(s, r) && Left(r) == Left(s)
    ensures s.currentPos < s.dataEnd ==> r.buffer[r.currentPos] == s.buffer[s.currentPos]
  {
    assert |Unscanned(r)| == |Unscanned(s)|;
  }

  /** `advance` moves forward, and consumes a character when one is at hand. */
  lemma AdvanceFacts(s: State)
    requires Fine(s)
    ensures Onward(s, AdvanceOf(s))
    ensures s.currentPos < s.dataEnd ==> Left(AdvanceOf(s)) < Left(s)
  {
    if s.currentPos < s.dataEnd {
      AdvanceHead(s);
    } else {
      OnwardRefl(s);
    }
  }

  /** `peek` moves forward: it consumes nothing, and a refill only reads. */
  lemma PeekFacts(s: State)
    requires Fine(s)
    ensures PeekOf(s).out.Done? ==> Onward(s, PeekOf(s).state) && Ready(PeekOf(s).state) && PeekOf(s).out.value == CharAt(PeekOf(s).state)
  {
    if PeekOf(s).out.Done? {
      PeekFine(s);
      if s.currentNode.Some? {
        ShiftType(s.currentNode.value, PeekOf(s).shift);
      }
    }
  }

  /** `skipWhitespace` moves forward. */
  lemma SkipFacts(s: State)
    requires Fine(s)
    ensures SkipOf(s).out.Done? ==> Onward(s, SkipOf(s).state) && Ready(SkipOf(s).state)
  {
    if SkipOf(s).out.Done? {
      SkipFine(s);
      if s.currentNode.Some? {
        ShiftType(s.currentNode.value, SkipOf(s).shift);
      }
    }
  }

  /** A refill that returns moves forward, and consumes a read when more data may come. */
  lemma RefillFacts(s: State)
    requires Fine(s) && RefillOf(s).0.Done?
    ensures Onward(s, RefillOf(s).1)
    ensures s.hasMoreData ==> Left(RefillOf(s).1) < Left(s)
    ensures Ready(RefillOf(s).1)
  {
    RefillFine(s);
    if s.currentNode.Some? {
      ShiftType(s.currentNode.value, RefillOf(s).0.value);
    }
  }

  /** Shifting the views of a node does not change its kind. */
  lemma ShiftType(n: Node, d: int)
    ensures TypeOf(ShiftNode(n, d)) == TypeOf(n)
  {
  }

  /** `addressShift`, moving the node in flight and the attribute name being read, keeps the state as it was otherwise. */
  lemma ShiftedFacts(s: State, d: int)
    requires Fine(s)
    ensures Onward(s, ShiftedBy(s, d)) && Unscanned(ShiftedBy(s, d)) == Unscanned(s) && ShiftedBy(s, d).buffer == s.buffer
    ensures ShiftedBy(s, d) == s.(currentNode := ShiftedBy(s, d).currentNode, tempAttrName := ShiftedBy(s, d).tempAttrName)
  {
    OnwardRefl(s);
    if s.currentNode.Some? {
      ShiftType(s.currentNode.value, d);
    }
  }

  /**
   * `moveOffsetData`: while text is read at an offset, the characters from
   * `firstOffset` up to the current position move back by `readingOffset`
   * (`memmove`). A destination before the start of the buffer is undefined.
   */
  function MoveOf(s: State): (r: Run<()>)
    requires Fine(s)
    ensures r.out.Done? ==> Behind(s, r.state) && r.state.readingOffset == s.readingOffset
  {
    if s.readingOffset != 0 && s.currentPos - s.firstOffset > 0 then
      if s.firstOffset - s.readingOffset < 0 then Run(Thrown(S.Undefined), s)
      else
        MoveBehind(s.buffer, s.firstOffset, s.readingOffset, s.currentPos);
        Run(Done(()), s.(buffer := s.buffer[..s.firstOffset - s.readingOffset] + s.buffer[s.firstOffset..s.currentPos] + s.buffer[s.currentPos - s.readingOffset..],
                         firstOffset := s.currentPos))
    else Run(Done(()), s)
  }

  lemma MoveBehind(b: seq<char>, f: int, ro: int, cur: int)
    requires 0 < ro <= f < cur <= |b|
    ensures var b1 := b[..f - ro] + b[f..cur] + b[cur - ro..]; |b1| == |b| && b1[cur..] == b[cur..]
  {
    var b1 := b[..f - ro] + b[f..cur] + b[cur - ro..];
    assert b1[cur..] == b[cur - ro..][ro..];
  }

  /** Where the offsets are as the corrected reader keeps them, moving the data back is `OxmlDecode.MoveOffsetOf`. */
  lemma MoveAgrees(s: State)
    requires Fine(s) && OffsetsFine(s)
    ensures MoveOf(s) == Run(Done(()), OxmlDecode.MoveOffsetOf(s))
  {
  }

  /** A span lies in the buffer `b`. */
  predicate SpanIn(b: seq<char>, sp: Span)
  {
    0 <= sp.start && 0 <= sp.length && sp.start + sp.length <= |b|
  }

  /** Whether rewriting a reference named `name` writes to the buffer: a predefined entity, or a numeric reference with digits. */
  predicate Writes(name: seq<char>)
  {
    || S.Entity(name).Some?
    || (|name| >= 2 && name[0] == '#' && |name| > (if name[1] == 'x' then 2 else 1))
  }

  /**
   * The rewriting part of `replaceCharacterReference` on the name the
   * nested scan returned, with the current position on the ';'. A name in
   * the buffer is rewritten as `OxmlDecode.WriteReferenceOf` does, where the
   * place of the '&' less the offset lies in the buffer. A name of negative
   * length (a huge `size_t`) matches no entity; its first character is read,
   * and a '#' there starts a conversion that runs past the buffer. A name
   * outside the buffer is undefined as soon as it is read.
   */
  function WriteOf(t: State, sp: Span): (r: Run<()>)
    requires Fine(t) && t.currentPos < t.dataEnd
    ensures r.out.Done? ==> Behind(t, r.state) && r.state.readingOffset >= t.readingOffset
  {
    if SpanIn(t.buffer, sp) then WriteNamedOf(t, t.buffer[sp.start..sp.start + sp.length])
    else if sp.length < 0 then
      if 0 <= sp.start < |t.buffer| && t.buffer[sp.start] != '#' then Run(Done(()), t)
      else Run(Thrown(S.Undefined), t)
    else if sp.length < 2 then Run(Done(()), t)
    else Run(Thrown(S.Undefined), t)
  }

  /** The rewriting of a reference whose name lies in the buffer. */
  function WriteNamedOf(t: State, name: seq<char>): (r: Run<()>)
    requires Fine(t) && t.currentPos < t.dataEnd
    ensures r.out.Done? ==> Behind(t, r.state) && r.state.readingOffset >= t.readingOffset
  {
    if 0 <= t.currentPos - t.readingOffset - |name| - 1 then
      OxmlDecode.WriteFacts(t, name);
      Run(Done(()), OxmlDecode.WriteReferenceOf(t, name))
    else if Writes(name) then Run(Thrown(S.Undefined), t)
    else Run(Done(()), t)
  }

  /**
   * `parseWhileFrom`: the loop that advances while the current character
   * continues `u`. An '&' among them is a reference, replaced in place as
   * `replaceCharacterReference` does (`ReplaceOf`); the ';' is skipped and
   * `start` moves by the shift reported. Where the loop stops, `ScanEndOf`.
   */
  function ScanOf(s: State, u: S.Until, start: int): (r: Run<Span>)
    requires Fine(s)
    ensures r.out.Done? ==> Onward(s, r.state) && Stopped(r.state, u)
    ensures r.out.Done? && Moves(s, u) ==> Left(r.state) < Left(s)
    decreases Left(s), 3
  {
    if s.currentPos != s.dataEnd && S.Continues(u, s.buffer[s.currentPos]) then
      if s.buffer[s.currentPos] == '&' then
        var k := ReplaceOf(s);
        if k.out.Thrown? then Run(Thrown(k.out.error), k.state)
        else
          AdvanceFacts(k.state);
          OnwardTrans(s, k.state, AdvanceOf(k.state));
          var r := ScanOf(AdvanceOf(k.state), u, start + k.out.value);
          OnwardTrans(s, AdvanceOf(k.state), r.state);
          r
      else
        AdvanceFacts(s);
        var r := ScanOf(AdvanceOf(s), u, start);
        OnwardTrans(s, AdvanceOf(s), r.state);
        r
    else ScanEndOf(s, u, start)
  }

  /**
   * `parseWhileFrom` after its loop. At the end of the buffer it refills,
   * `start` moving with the data, and starts over (the original's tail
   * call); once the data has ended it throws. Otherwise `FinishOf`.
   */
  function ScanEndOf(s: State, u: S.Until, start: int): (r: Run<Span>)
    requires Fine(s) && !Moves(s, u)
    ensures r.out.Done? ==> Onward(s, r.state) && Stopped(r.state, u)
    decreases Left(s), 2
  {
    if s.currentPos == s.dataEnd then
      if s.hasMoreData then
        var t := RefillOf(s);
        if t.0.Thrown? then Run(Thrown(t.0.error), t.1)
        else
          RefillFacts(s);
          var r := ScanOf(t.1, u, start + t.0.value);
          OnwardTrans(s, t.1, r.state);
          r
      else Run(Thrown(S.UnexpectedEnd), s)
    else
      var r := FinishOf(s, start);
      if r.out.Done? then BehindFacts(s, r.state); r else r
  }

  lemma MovedFacts(s: State, m: State)
    requires Fine(s) && s.currentPos < s.dataEnd && Behind(s, m)
    ensures Fine(AdvanceOf(m)) && Onward(s, AdvanceOf(m)) && Left(AdvanceOf(m)) < Left(s)
  {
    BehindFacts(s, m);
    AdvanceFacts(m);
    OnwardTrans(s, m, AdvanceOf(m));
  }

  /**
   * The end of a scan: the offset data moves back, the view runs from
   * `start` to where the produced text ends, and `readingOffset` is cleared.
   */
  function FinishOf(s: State, start: int): (r: Run<Span>)
    requires Fine(s)
    ensures r.out.Done? ==> Behind(s, r.state) && r.state.readingOffset == 0
  {
    var m := MoveOf(s);
    if m.out.Thrown? then Run(Thrown(m.out.error), m.state)
    else Run(Done(Span(start, m.state.currentPos - m.state.readingOffset - start)), m.state.(readingOffset := 0))
  }

  /**
   * `replaceCharacterReference`, on the '&': move the offset data back, skip
   * the '&', then `NamedOf`.
   */
  function ReplaceOf(s: State): (r: Run<int>)
    requires Fine(s) && s.currentPos < s.dataEnd
    ensures r.out.Done? ==> Onward(s, r.state) && Stopped(r.state, S.Char(';')) && Left(r.state) < Left(s)
    decreases Left(s), 2
  {
    var m := MoveOf(s);
    if m.out.Thrown? then Run(Thrown(m.out.error), m.state)
    else
      MovedFacts(s, m.state);
      var r := NamedOf(AdvanceOf(m.state));
      OnwardTrans(s, AdvanceOf(m.state), r.state);
      r
  }

  /**
   * `replaceCharacterReference` after the '&' was skipped, `dataStart`
   * being where `a` has it: the name up to the ';' (a scan that itself
   * replaces references and clears `readingOffset`), the rewriting, and
   * `addressShift` from that `dataStart`, which shifts the node in flight
   * by the distance the data moved once more.
   */
  function NamedOf(a: State): (r: Run<int>)
    requires Fine(a)
    ensures r.out.Done? ==> Onward(a, r.state) && Stopped(r.state, S.Char(';'))
    decreases Left(a), 4
  {
    var n := ScanOf(a, S.Char(';'), a.currentPos);
    if n.out.Thrown? then Run(Thrown(n.out.error), n.state)
    else
      var r := RewriteOf(n.state, n.out.value, a.dataStart);
      OnwardTrans(a, n.state, r.state);
      r
  }

  /** The rewriting, then `addressShift(oldDataStart)`. */
  function RewriteOf(t: State, sp: Span, oldDataStart: int): (r: Run<int>)
    requires Fine(t) && t.currentPos < t.dataEnd
    ensures r.out.Done? ==> Onward(t, r.state) && (Stopped(t, S.Char(';')) ==> Stopped(r.state, S.Char(';')))
  {
    var w := WriteOf(t, sp);
    if w.out.Thrown? then Run(Thrown(w.out.error), w.state)
    else
      var shift := w.state.dataStart - oldDataStart;
      ShiftedFacts(w.state, shift);
      BehindFacts(t, w.state);
      OnwardTrans(t, w.state, ShiftedBy(w.state, shift));
      Run(Done(shift), ShiftedBy(w.state, shift))
  }

  /*
   * What the methods that run these functions state: the run of each from
   * `s` ends with outcome `o` in state `t`. Stated as predicates, the
   * scans they name are looked into only when a lemma below asks.
   */

  ghost predicate ScanIs(s: State, u: S.Until, start: int, o: Outcome<Span>, t: State)
    requires Fine(s)
  {
    ScanOf(s, u, start) == Run(o, t)
  }

  /** The scan from `s` with its view starting at `st` ends as the scan from `t` with its view starting at `st2` does. */
  ghost predicate ScansAs(s: State, st: int, t: State, st2: int, u: S.Until)
    requires Fine(s) && Fine(t)
  {
    ScanOf(s, u, st) == ScanOf(t, u, st2)
  }

  ghost predicate ReplaceIs(s: State, o: Outcome<int>, t: State)
    requires Fine(s) && s.currentPos < s.dataEnd
  {
    ReplaceOf(s) == Run(o, t)
  }

  ghost predicate NamedIs(a: State, o: Outcome<int>, t: State)
    requires Fine(a)
  {
    NamedOf(a) == Run(o, t)
  }

  ghost predicate EndIs(s: State, u: S.Until, start: int, o: Outcome<Span>, t: State)
    requires Fine(s) && !Moves(s, u)
  {
    ScanEndOf(s, u, start) == Run(o, t)
  }

  /* The steps of the scan, one case each, for the methods that run it. */

  lemma ScanAdvanced(s: State, u: S.Until, st: int)
    requires Fine(s) && Moves(s, u) && s.buffer[s.currentPos] != '&'
    ensures Fine(AdvanceOf(s)) && Left(AdvanceOf(s)) < Left(s) && ScansAs(s, st, AdvanceOf(s), st, u)
  {
    AdvanceFacts(s);
  }

  lemma ScanReplacedThrown(s: State, u: S.Until, st: int, o: Outcome<int>, t: State)
    requires Fine(s) && Moves(s, u) && s.buffer[s.currentPos] == '&' && ReplaceIs(s, o, t) && o.Thrown?
    ensures ScanIs(s, u, st, Thrown(o.error), t)
  {
  }

  lemma ScanReplacedDone(s: State, u: S.Until, st: int, o: Outcome<int>, t: State)
    requires Fine(s) && Moves(s, u) && s.buffer[s.currentPos] == '&' && ReplaceIs(s, o, t) && o.Done?
    requires Fine(AdvanceOf(t))
    ensures ScansAs(s, st, AdvanceOf(t), st + o.value, u)
  {
    hide ReplaceOf, ScanEndOf;
  }

  lemma ReplacedFacts(s: State, o: Outcome<int>, t: State)
    requires Fine(s) && s.currentPos < s.dataEnd && ReplaceIs(s, o, t) && o.Done?
    ensures Fine(AdvanceOf(t)) && Left(AdvanceOf(t)) < Left(s)
  {
    AdvanceFacts(t);
    OnwardTrans(s, t, AdvanceOf(t));
  }

  /** Where the loop stopped, the scan ends as its end part does. */
  lemma ScanEnded(s0: State, st0: int, s: State, st: int, u: S.Until, o: Outcome<Span>, t: State)
    requires Fine(s0) && Fine(s) && ScansAs(s0, st0, s, st, u) && !Moves(s, u) && EndIs(s, u, st, o, t)
    ensures ScanIs(s0, u, st0, o, t)
  {
  }

  lemma EndStops(s: State, u: S.Until, st: int, o: Outcome<Span>, t: State)
    requires Fine(s) && !Moves(s, u) && s.currentPos != s.dataEnd && Run(o, t) == FinishOf(s, st)
    ensures EndIs(s, u, st, o, t)
  {
  }

  lemma EndEnds(s: State, u: S.Until, st: int)
    requires Fine(s) && s.currentPos == s.dataEnd && !s.hasMoreData
    ensures EndIs(s, u, st, Thrown(S.UnexpectedEnd), s)
  {
  }

  lemma EndRefilledThrown(s: State, u: S.Until, st: int, o: Outcome<int>, t: State)
    requires Fine(s) && s.currentPos == s.dataEnd && s.hasMoreData && (o, t) == RefillOf(s) && o.Thrown?
    ensures EndIs(s, u, st, Thrown(o.error), t)
  {
  }

  lemma EndRefilledDone(s: State, u: S.Until, st: int, o: Outcome<int>, t: State, r: Outcome<Span>, w: State)
    requires Fine(s) && s.currentPos == s.dataEnd && s.hasMoreData && (o, t) == RefillOf(s) && o.Done? && Fine(t)
    requires ScanIs(t, u, st + o.value, r, w)
    ensures EndIs(s, u, st, r, w)
  {
    hide RefillOf;
  }

  lemma RefilledFacts(s: State, o: Outcome<int>, t: State)
    requires Fine(s) && s.hasMoreData && (o, t) == RefillOf(s) && o.Done?
    ensures Fine(t) && Left(t) < Left(s)
  {
    RefillFacts(s);
  }

  /** Two scans that end alike, one of which ends with `o` in `t`. */
  lemma ScansEnd(s0: State, st0: int, s: State, st: int, u: S.Until, o: Outcome<Span>, t: State)
    requires Fine(s0) && Fine(s) && ScansAs(s0, st0, s, st, u) && ScanIs(s, u, st, o, t)
    ensures ScanIs(s0, u, st0, o, t)
  {
  }

  /** A scan ends as itself. */
  lemma ScansSame(s: State, st: int, u: S.Until)
    requires Fine(s)
    ensures ScansAs(s, st, s, st, u)
  {
  }

  /** Two scans that end alike, and a third. */
  lemma ScansTrans(s0: State, st0: int, s: State, st: int, t: State, st2: int, u: S.Until)
    requires Fine(s0) && Fine(s) && Fine(t) && ScansAs(s0, st0, s, st, u) && ScansAs(s, st, t, st2, u)
    ensures ScansAs(s0, st0, t, st2, u)
  {
  }

  lemma ReplaceMoved(s: State, m: Outcome<()>, ms: State)
    requires Fine(s) && s.currentPos < s.dataEnd && Run(m, ms) == MoveOf(s)
    ensures m.Thrown? ==> ReplaceIs(s, Thrown(m.error), ms)
    ensures m.Done? ==> Fine(AdvanceOf(ms)) && Onward(s, AdvanceOf(ms)) && Left(AdvanceOf(ms)) < Left(s)
  {
    if m.Done? {
      MovedFacts(s, ms);
    }
  }

  lemma ReplaceNamed(s: State, ms: State, a: State, o: Outcome<int>, t: State)
    requires Fine(s) && s.currentPos < s.dataEnd && Run(Done(()), ms) == MoveOf(s) && a == AdvanceOf(ms) && Fine(a)
    requires NamedIs(a, o, t)
    ensures ReplaceIs(s, o, t)
  {
  }

  lemma NameScanned(a: State, n: Outcome<Span>, ns: State)
    requires Fine(a) && ScanIs(a, S.Char(';'), a.currentPos, n, ns)
    ensures n.Thrown? ==> NamedIs(a, Thrown(n.error), ns)
    ensures n.Done? ==> Fine(ns) && ns.currentPos < ns.dataEnd
  {
  }

  lemma NameRewritten(a: State, sp: Span, ns: State, o: Outcome<int>, t: State)
    requires Fine(a) && ScanIs(a, S.Char(';'), a.currentPos, Done(sp), ns) && Fine(ns) && ns.currentPos < ns.dataEnd
    requires Run(o, t) == RewriteOf(ns, sp, a.dataStart)
    ensures NamedIs(a, o, t)
  {
  }

  lemma RewriteThrown(t: State, sp: Span, oldDataStart: int, w: Outcome<()>, ws: State)
    requires Fine(t) && t.currentPos < t.dataEnd && Run(w, ws) == WriteOf(t, sp) && w.Thrown?
    ensures RewriteOf(t, sp, oldDataStart) == Run(Thrown(w.error), ws)
  {
  }

  lemma RewriteDone(t: State, sp: Span, oldDataStart: int, ws: State, shift: int, r: State)
    requires Fine(t) && t.currentPos < t.dataEnd && Run(Done(()), ws) == WriteOf(t, sp)
    requires shift == ws.dataStart - oldDataStart && r == ShiftedBy(ws, shift)
    ensures RewriteOf(t, sp, oldDataStart) == Run(Done(shift), r)
  {
  }

  /** Nothing to read was lost from `s` to `r`, and no read was undone. */
  lemma SameFacts(s: State, r: State)
    requires Fine(s) && Fine(r) && Unscanned(r) == Unscanned(s) && Measure(r) == Measure(s)
    ensures Consumed(s, r)
  {
  }

  /** A span as the view a node keeps. A negative length has no place in a view here, and counts as undefined. */
  function ViewOf(sp: Span): (r: Outcome<View>)
    ensures r.Done? <==> sp.length >= 0
    ensures r.Done? ==> r.value == View(sp.start, sp.length)
  {
    if sp.length < 0 then Thrown(S.Undefined) else Done(View(sp.start, sp.length))
  }

  /** The start of a node: `dataStart` moves to the current position and `node` is the node in flight. */
  function Begin(s: State, node: Node): (r: State)
    requires Fine(s)
    ensures Fine(r) && Consumed(s, r) && r.currentNode == Some(node)
  {
    var r := s.(dataStart := s.currentPos, currentNode := Some(node));
    SameFacts(s, r);
    r
  }

  /** The opening node in flight gets its name. */
  function SetName(s: State, v: View): (r: State)
    requires Fine(s) && s.currentNode.Some? && s.currentNode.value.OpeningNode?
    ensures Onward(s, r) && r.currentNode.value.OpeningNode? && r == s.(currentNode := r.currentNode)
  {
    var r := s.(currentNode := Some(s.currentNode.value.(name := v)));
    SameFacts(s, r);
    r
  }

  /** The opening node in flight gets one more attribute, and the attribute name being read is cleared. */
  function AddAttribute(s: State, value: View): (r: State)
    requires Fine(s) && s.currentNode.Some? && s.currentNode.value.OpeningNode?
    ensures Onward(s, r) && r.currentNode.value.OpeningNode?
  {
    var n := s.currentNode.value;
    var r := s.(currentNode := Some(n.(attributes := n.attributes + [(s.tempAttrName, value)])), tempAttrName := NullView);
    SameFacts(s, r);
    r
  }

  /** The opening node in flight is marked empty. */
  function SetEmpty(s: State): (r: State)
    requires Fine(s) && s.currentNode.Some? && s.currentNode.value.OpeningNode?
    ensures Onward(s, r) && r.currentNode.value.OpeningNode?
  {
    var r := s.(currentNode := Some(s.currentNode.value.(empty := true)));
    SameFacts(s, r);
    r
  }

  /** The node in flight is handed out: `currentNode` is null again. */
  function Release(s: State): (r: State)
    requires Fine(s)
    ensures Fine(r) && Consumed(s, r) && r.currentNode.None?
  {
    var r := s.(currentNode := None);
    SameFacts(s, r);
    r
  }

  /**
   * `parseOpeningNode`, after the '<': the name, white space, the
   * attributes, and the end of the tag.
   */
  function OpeningOf(s: State): (r: Run<Node>)
    requires Fine(s)
    ensures r.out.Done? ==> Fine(r.state) && Consumed(s, r.state) && r.state.currentNode.None? && r.out.value.OpeningNode?
  {
    var s1 := Begin(s, OpeningNode(NullView, false, []));
    var n := ScanOf(s1, S.Name, s1.currentPos);
    if n.out.Thrown? then Run(Thrown(n.out.error), n.state)
    else match ViewOf(n.out.value)
      case Thrown(e) => Run(Thrown(e), n.state)
      case Done(v) =>
        var s2 := SetName(n.state, v);
        var k := SkipOf(s2);
        if k.out.Thrown? then Run(Thrown(k.out.error), k.state)
        else
          SkipFacts(s2);
          var a := AttributesOf(k.state);
          if a.out.Thrown? then Run(Thrown(a.out.error), a.state)
          else
            var r := OpeningEndOf(a.state);
            OpeningOnward(s, s1, n.state, s2, k.state, a.state, r);
            r
  }

  lemma OpeningOnward(s: State, s1: State, n: State, s2: State, k: State, a: State, r: Run<Node>)
    requires Fine(s) && Fine(s1) && Consumed(s, s1) && Onward(s1, n) && Onward(n, s2) && Onward(s2, k) && Onward(k, a)
    requires r.out.Done? ==> Fine(r.state) && Consumed(a, r.state) && r.state.currentNode.None? && r.out.value.OpeningNode?
    ensures r.out.Done? ==> Fine(r.state) && Consumed(s, r.state) && r.state.currentNode.None? && r.out.value.OpeningNode?
  {
    if r.out.Done? {
    }
  }

  /** The attribute loop of `parseOpeningNode`: it runs until `peek` finds '/' or '>'. */
  function AttributesOf(s: State): (r: Run<()>)
    requires Fine(s) && s.currentNode.Some? && s.currentNode.value.OpeningNode?
    ensures r.out.Done? ==> Onward(s, r.state) && r.state.currentNode.value.OpeningNode?
    decreases Left(s)
  {
    var p := PeekOf(s);
    if p.out.Thrown? then Run(Thrown(p.out.error), p.state)
    else
      PeekFacts(s);
      if p.out.value == '/' || p.out.value == '>' then Run(Done(()), p.state)
      else
        var t := AttributeOf(p.state);
        if t.out.Thrown? then Run(Thrown(t.out.error), t.state)
        else
          OnwardTrans(s, p.state, t.state);
          var r := AttributesOf(t.state);
          OnwardTrans(s, t.state, r.state);
          r
  }

  /**
   * One turn of the attribute loop: the name, kept in `tempAttrName` so
   * that refills shift it; one character skipped for the '='; the quoted
   * value; the attribute appended; white space.
   */
  function AttributeOf(s: State): (r: Run<()>)
    requires Fine(s) && s.currentNode.Some? && s.currentNode.value.OpeningNode?
    ensures r.out.Done? ==> Onward(s, r.state) && r.state.currentNode.value.OpeningNode? && Left(r.state) < Left(s)
  {
    var n := ScanOf(s, S.Name, s.currentPos);
    if n.out.Thrown? then Run(Thrown(n.out.error), n.state)
    else match ViewOf(n.out.value)
      case Thrown(e) => Run(Thrown(e), n.state)
      case Done(name) =>
        var s1 := EqualsOf(n.state, name);
        OnwardTrans(s, n.state, s1);
        var v := QuotedOf(s1);
        if v.out.Thrown? then Run(Thrown(v.out.error), v.state)
        else
          OnwardTrans(s, s1, v.state);
          var s2 := AddAttribute(v.state, v.out.value);
          OnwardTrans(s, v.state, s2);
          var k := SkipOf(s2);
          if k.out.Thrown? then Run(Thrown(k.out.error), k.state)
          else
            SkipFacts(s2);
            OnwardTrans(s, s2, k.state);
            Run(Done(()), k.state)
  }

  /** The name just read goes to `tempAttrName`, and one character is skipped for the '='. */
  function EqualsOf(n: State, name: View): (r: State)
    requires Fine(n) && n.currentPos < n.dataEnd
    ensures Onward(n, r) && Left(r) < Left(n)
  {
    var n1 := n.(tempAttrName := name);
    SameFacts(n, n1);
    AdvanceFacts(n1);
    OnwardTrans(n, n1, AdvanceOf(n1));
    AdvanceOf(n1)
  }

  /** A quoted attribute value: the quote `peek` finds, skipped; the value up to the same quote; the closing quote, skipped. */
  function QuotedOf(s: State): (r: Run<View>)
    requires Fine(s)
    ensures r.out.Done? ==> Onward(s, r.state)
  {
    var q := PeekOf(s);
    if q.out.Thrown? then Run(Thrown(q.out.error), q.state)
    else
      PeekFacts(s);
      var s1 := AdvanceOf(q.state);
      AdvanceFacts(q.state);
      OnwardTrans(s, q.state, s1);
      var v := ScanOf(s1, S.Char(q.out.value), s1.currentPos);
      if v.out.Thrown? then Run(Thrown(v.out.error), v.state)
      else match ViewOf(v.out.value)
        case Thrown(e) => Run(Thrown(e), v.state)
        case Done(value) =>
          OnwardTrans(s, s1, v.state);
          AdvanceFacts(v.state);
          OnwardTrans(s, v.state, AdvanceOf(v.state));
          Run(Done(value), AdvanceOf(v.state))
  }

  /**
   * The end of `parseOpeningNode`: when `peek` finds '/', the node is empty
   * and the '/' is skipped; then one more character is skipped for the '>',
   * without a `peek`, and the node is handed out.
   */
  function OpeningEndOf(s: State): (r: Run<Node>)
    requires Fine(s) && s.currentNode.Some? && s.currentNode.value.OpeningNode?
    ensures r.out.Done? ==> Fine(r.state) && Consumed(s, r.state) && r.state.currentNode.None? && r.out.value.OpeningNode?
    ensures r.out.Done? ==>
      var n, d := s.currentNode.value, PeekOf(s).shift;
      && PeekOf(s).out.Done?
      && r.out.value == OpeningNode(ShiftView(n.name, d), n.empty || PeekOf(s).out.value == '/', ShiftAttributes(n.attributes, d))
  {
    var p := PeekOf(s);
    if p.out.Thrown? then Run(Thrown(p.out.error), p.state)
    else
      PeekFacts(s);
      PeekFine(s);
      var s1 := if p.out.value == '/' then AdvanceOf(SetEmpty(p.state)) else p.state;
      var s2 := AdvanceOf(s1);
      OpeningEndSteps(s, p.state, s1, s2);
      Run(Done(s2.currentNode.value), Release(s2))
  }

  lemma OpeningEndSteps(s: State, p: State, s1: State, s2: State)
    requires Fine(s) && Onward(s, p) && p.currentNode.Some? && p.currentNode.value.OpeningNode?
    requires s1 == AdvanceOf(SetEmpty(p)) || s1 == p
    requires s2 == AdvanceOf(s1)
    ensures Onward(s, s2) && s2.currentNode.Some? && s2.currentNode.value.OpeningNode?
  {
    if s1 != p {
      OnwardTrans(s, p, SetEmpty(p));
      AdvanceFacts(SetEmpty(p));
      OnwardTrans(s, SetEmpty(p), s1);
    }
    AdvanceFacts(s1);
    OnwardTrans(s, s1, s2);
  }

  /** `parseClosingNode`, on the '/' after the '<': skip it, read the name, skip one character for the '>'. */
  function ClosingOf(s: State): (r: Run<Node>)
    requires Fine(s)
    ensures r.out.Done? ==> Fine(r.state) && Consumed(s, r.state) && r.state.currentNode.None? && r.out.value.ClosingNode?
  {
    var s1 := AdvanceOf(s);
    var s2 := Begin(s1, ClosingNode(NullView));
    var n := ScanOf(s2, S.Name, s2.currentPos);
    if n.out.Thrown? then Run(Thrown(n.out.error), n.state)
    else match ViewOf(n.out.value)
      case Thrown(e) => Run(Thrown(e), n.state)
      case Done(v) =>
        var s3 := AdvanceOf(n.state);
        ClosingSteps(s, s1, s2, n.state, s3);
        Run(Done(ClosingNode(v)), Release(s3))
  }

  lemma ClosingSteps(s: State, s1: State, s2: State, n: State, s3: State)
    requires Fine(s) && s1 == AdvanceOf(s) && Fine(s2) && Consumed(s1, s2) && Onward(s2, n) && s3 == AdvanceOf(n)
    ensures Fine(s3) && Consumed(s, s3)
  {
    AdvanceFacts(s);
    AdvanceFacts(n);
  }

  /**
   * `parseTextNode`: the text up to the next '<', handed out unless it is
   * all white space. Checking the text reads it: a view outside the buffer
   * is undefined.
   */
  function TextOf(s: State): (r: Run<Option<Node>>)
    requires Fine(s)
    ensures r.out.Done? ==> Fine(r.state) && Consumed(s, r.state) && r.state.currentNode.None?
    ensures r.out.Done? && Moves(s, S.Char('<')) ==> Left(r.state) < Left(s)
    ensures r.out.Done? && r.out.value.Some? ==>
      && r.out.value.value.TextNode? && ViewIn(r.out.value.value.text, 0, |r.state.buffer|)
      && !AllSpace(ViewText(r.state.buffer, r.out.value.value.text))
  {
    var s1 := Begin(s, TextNode(NullView));
    var t := ScanOf(s1, S.Char('<'), s1.currentPos);
    if t.out.Thrown? then Run(Thrown(t.out.error), t.state)
    else match ViewOf(t.out.value)
      case Thrown(e) => Run(Thrown(e), t.state)
      case Done(v) =>
        var s2 := Release(t.state);
        TextSteps(s, s1, t.state, s2);
        if !ViewIn(v, 0, |s2.buffer|) then Run(Thrown(S.Undefined), s2)
        else if AllSpace(ViewText(s2.buffer, v)) then Run(Done(None), s2)
        else Run(Done(Some(TextNode(v))), s2)
  }

  lemma TextSteps(s: State, s1: State, t: State, s2: State)
    requires Fine(s) && Fine(s1) && Consumed(s, s1) && s1 == s.(dataStart := s1.dataStart, currentNode := s1.currentNode)
    requires Onward(s1, t) && (Moves(s1, S.Char('<')) ==> Left(t) < Left(s1)) && Fine(s2) && Consumed(t, s2) && Left(s2) == Left(t)
    ensures Consumed(s, s2) && (Moves(s, S.Char('<')) ==> Left(s2) < Left(s))
  {
  }

  /** `ignoreNodeEnd`: everything up to the next '>', and the '>'. */
  function IgnoreEndOf(s: State): (r: Run<()>)
    requires Fine(s)
    ensures r.out.Done? ==> Onward(s, r.state) && Left(r.state) < Left(s)
  {
    var n := ScanOf(s, S.Char('>'), s.currentPos);
    if n.out.Thrown? then Run(Thrown(n.out.error), n.state)
    else
      AdvanceFacts(n.state);
      OnwardTrans(s, n.state, AdvanceOf(n.state));
      Run(Done(()), AdvanceOf(n.state))
  }

  /**
   * `ignoreSpecialXML`, on the '!' after the '<': a comment (after "--",
   * the loop of `CommentOf`, then `ignoreNodeEnd`), a CDATA section (up to
   * the first ']', then `ignoreNodeEnd`), a single '-' (nothing more), or
   * another declaration (`ignoreNodeEnd`). The value says whether it set
   * `lastNodeWasOpening`, which a comment does.
   */
  function SpecialOf(s: State): (r: Run<bool>)
    requires Fine(s)
    ensures r.out.Done? ==> Onward(s, r.state)
  {
    var s1 := AdvanceOf(s);
    AdvanceFacts(s);
    var p := PeekOf(s1);
    if p.out.Thrown? then Run(Thrown(p.out.error), p.state)
    else
      PeekFacts(s1);
      OnwardTrans(s, s1, p.state);
      var r := if p.out.value == '-' then DashOf(p.state)
        else if p.out.value == '[' then CdataOf(p.state)
        else Declared(IgnoreEndOf(p.state), false);
      OnwardTrans(s, p.state, r.state);
      r
  }

  /** A run of `ignoreNodeEnd` that ends a special node, with `flag` for its value. */
  function Declared(e: Run<()>, flag: bool): (r: Run<bool>)
    ensures r.state == e.state && (r.out.Done? <==> e.out.Done?) && (r.out.Done? ==> r.out.value == flag)
  {
    Run(if e.out.Thrown? then Thrown(e.out.error) else Done(flag), e.state)
  }

  /** After "<!-": a second '-' starts a comment; anything else ends the special node here. */
  function DashOf(s: State): (r: Run<bool>)
    requires Fine(s)
    ensures r.out.Done? ==> Onward(s, r.state)
  {
    var s1 := AdvanceOf(s);
    AdvanceFacts(s);
    var q := PeekOf(s1);
    if q.out.Thrown? then Run(Thrown(q.out.error), q.state)
    else
      PeekFacts(s1);
      OnwardTrans(s, s1, q.state);
      if q.out.value == '-' then
        var s2 := AdvanceOf(q.state);
        AdvanceFacts(q.state);
        OnwardTrans(s, q.state, s2);
        var c := CommentOf(s2);
        if c.out.Thrown? then Run(Thrown(c.out.error), c.state)
        else
          OnwardTrans(s, s2, c.state);
          var e := IgnoreEndOf(c.state);
          OnwardTrans(s, c.state, e.state);
          Declared(e, true)
      else Run(Done(false), q.state)
  }

  /** After "<![": everything up to the first ']', then `ignoreNodeEnd`. */
  function CdataOf(s: State): (r: Run<bool>)
    requires Fine(s)
    ensures r.out.Done? ==> Onward(s, r.state)
  {
    var n := ScanOf(s, S.Char(']'), s.currentPos);
    if n.out.Thrown? then Run(Thrown(n.out.error), n.state)
    else
      var e := IgnoreEndOf(n.state);
      OnwardTrans(s, n.state, e.state);
      Declared(e, false)
  }

  /**
   * The do-while loop of `ignoreSpecialXML` over a comment: scan to the next
   * '-' and skip it, until `peek` finds a second '-' or the buffer is
   * consumed.
   */
  function CommentOf(s: State): (r: Run<()>)
    requires Fine(s)
    ensures r.out.Done? ==> Onward(s, r.state)
    decreases Left(s)
  {
    var n := ScanOf(s, S.Char('-'), s.currentPos);
    if n.out.Thrown? then Run(Thrown(n.out.error), n.state)
    else
      var a := AdvanceOf(n.state);
      AdvanceFacts(n.state);
      OnwardTrans(s, n.state, a);
      var p := PeekOf(a);
      if p.out.Thrown? then Run(Thrown(p.out.error), p.state)
      else
        PeekFacts(a);
        OnwardTrans(s, a, p.state);
        if p.out.value == '-' || p.state.currentPos == p.state.dataEnd then Run(Done(()), p.state)
        else
          var r := CommentOf(p.state);
          OnwardTrans(s, p.state, r.state);
          r
  }

  /** The start of each turn of the loop of `readNode`: skip white space, or, where text may follow, refill a consumed buffer. */
  function StartOf(s: State, opening: bool): (r: Run<()>)
    requires Fine(s)
    ensures r.out.Done? ==> Onward(s, r.state) && Ready(r.state)
  {
    if !opening then
      SkipFacts(s);
      var k := SkipOf(s);
      Run(k.out, k.state)
    else if s.currentPos == s.dataEnd then
      var t := RefillOf(s);
      if t.0.Thrown? then Run(Thrown(t.0.error), t.1)
      else
        RefillFacts(s);
        Run(Done(()), t.1)
    else
      OnwardRefl(s);
      Run(Done(()), s)
  }

  /** What one turn of the loop of `readNode` ends with: a node handed out, or another turn; each with the new `lastNodeWasOpening`. */
  datatype Turn = Emit(node: Node, opening: bool) | Again(opening: bool)

  /** What every turn promises about the node it hands out and the flag it leaves. */
  ghost predicate TurnFine(r: State, t: Turn, opening: bool)
  {
    match t
    case Emit(n, f) =>
      && (n.EndNode? ==> Unscanned(r) == [] && f == opening)
      && (!n.EndNode? ==> f == n.OpeningNode?)
      && (n.TextNode? ==> ViewIn(n.text, 0, |r.buffer|) && !AllSpace(ViewText(r.buffer, n.text)))
    case Again(_) => true
  }

  /**
   * After a '<' (or a '\0') was skipped: a closing node, a prolog
   * (ignored), a special node (ignored), or an opening node, chosen by
   * what `peek` finds.
   */
  function TagOf(a: State, opening: bool): (r: Run<Turn>)
    requires Fine(a) && a.currentNode.None?
    ensures r.out.Done? ==> Fine(r.state) && Consumed(a, r.state) && r.state.currentNode.None? && TurnFine(r.state, r.out.value, opening)
    ensures r.out.Done? && r.out.value.Again? ==> Left(r.state) <= Left(a)
    ensures r.out.Done? && r.out.value.Emit? ==> PeekOf(a).out.Done? && (r.out.value.node.ClosingNode? <==> PeekOf(a).out.value == '/')
    ensures r.out.Done? && r.out.value.Emit? ==> r.out.value.node.ClosingNode? || r.out.value.node.OpeningNode?
    ensures r.out.Done? && r.out.value.Emit? && r.out.value.node.OpeningNode? ==>
      PeekOf(a).out.value != '?' && PeekOf(a).out.value != '!'
    ensures r.out.Done? && r.out.value.Again? ==>
      PeekOf(a).out.Done? && (PeekOf(a).out.value == '?' || PeekOf(a).out.value == '!')
      && (PeekOf(a).out.value == '?' ==> r.out.value.opening == opening)
  {
    var q := PeekOf(a);
    if q.out.Thrown? then Run(Thrown(q.out.error), q.state)
    else
      PeekFacts(a);
      if q.out.value == '/' then
        var c := ClosingOf(q.state);
        if c.out.Thrown? then Run(Thrown(c.out.error), c.state)
        else
          Run(Done(Emit(c.out.value, false)), c.state)
      else if q.out.value == '?' then
        var e := IgnoreEndOf(q.state);
        if e.out.Thrown? then Run(Thrown(e.out.error), e.state)
        else
          OnwardTrans(a, q.state, e.state);
          Run(Done(Again(opening)), e.state)
      else if q.out.value == '!' then
        var e := SpecialOf(q.state);
        if e.out.Thrown? then Run(Thrown(e.out.error), e.state)
        else
          OnwardTrans(a, q.state, e.state);
          Run(Done(Again(opening || e.out.value)), e.state)
      else
        var o := OpeningOf(q.state);
        if o.out.Thrown? then Run(Thrown(o.out.error), o.state)
        else
          Run(Done(Emit(o.out.value, true)), o.state)
  }

  /**
   * One turn of the loop of `readNode`, with `opening` for
   * `lastNodeWasOpening`: the end of the data, a tag, a text node (only
   * after an opening node; one of white space alone is dropped), or an
   * unexpected character.
   */
  function TurnOf(s: State, opening: bool): (r: Run<Turn>)
    requires Fine(s) && s.currentNode.None?
    ensures r.out.Done? ==> Fine(r.state) && Consumed(s, r.state) && r.state.currentNode.None? && TurnFine(r.state, r.out.value, opening)
    ensures r.out.Done? && r.out.value.Again? ==> Left(r.state) < Left(s)
  {
    var st := StartOf(s, opening);
    if st.out.Thrown? then Run(Thrown(st.out.error), st.state)
    else if st.state.currentPos == st.state.dataEnd && !st.state.hasMoreData then
      AvailableEmpty(st.state.source);
      Run(Done(Emit(EndNode, opening)), st.state)
    else
      var r := CharTurnOf(st.state, opening);
      ConsumedTrans(s, st.state, r.state);
      r
  }

  /** A turn of `readNode` on a character in the buffer: `peek` finds it there and consumes nothing. */
  function CharTurnOf(p: State, opening: bool): (r: Run<Turn>)
    requires Fine(p) && p.currentNode.None? && p.currentPos < p.dataEnd
    ensures r.out.Done? ==> Fine(r.state) && Consumed(p, r.state) && r.state.currentNode.None? && TurnFine(r.state, r.out.value, opening)
    ensures r.out.Done? && r.out.value.Again? ==> Left(r.state) < Left(p)
    ensures CharAt(p) != '<' && CharAt(p) != '\0' && !opening ==> r == Run(Thrown(S.UnexpectedChar(CharAt(p))), p)
    ensures r.out.Done? && r.out.value.Emit? && r.out.value.node.TextNode? ==> opening && CharAt(p) != '<' && CharAt(p) != '\0'
    ensures r.out.Done? && r.out.value.Emit? && !r.out.value.node.TextNode? ==> CharAt(p) == '<' || CharAt(p) == '\0'
    ensures r.out.Done? && r.out.value.Again? && CharAt(p) != '<' && CharAt(p) != '\0' ==> opening && !r.out.value.opening
  {
    assert PeekOf(p) == Step(Done(CharAt(p)), 0, p);
    var c := CharAt(p);
    if c == '<' || c == '\0' then
      var a := AdvanceOf(p);
      AdvanceFacts(p);
      var t := TagOf(a, opening);
      ConsumedTrans(p, a, t.state);
      t
    else if opening then
      var t := TextOf(p);
      if t.out.Thrown? then Run(Thrown(t.out.error), t.state)
      else if t.out.value.Some? then Run(Done(Emit(t.out.value.value, false)), t.state)
      else Run(Done(Again(false)), t.state)
    else Run(Thrown(S.UnexpectedChar(c)), p)
  }

  /** `readNode`: turns of its loop until one hands out a node. */
  function ReadNodeOf(s: State, opening: bool): (r: Run<(Node, bool)>)
    requires Fine(s) && s.currentNode.None?
    ensures r.out.Done? ==> Fine(r.state) && Consumed(s, r.state) && r.state.currentNode.None?
    ensures r.out.Done? ==> TurnFine(r.state, Emit(r.out.value.0, r.out.value.1), r.out.value.1) || r.out.value.0.EndNode?
    decreases Left(s)
  {
    var t := TurnOf(s, opening);
    if t.out.Thrown? then Run(Thrown(t.out.error), t.state)
    else match t.out.value
      case Emit(n, f) => Run(Done((n, f)), t.state)
      case Again(f) =>
        var r := ReadNodeOf(t.state, f);
        ConsumedTrans(s, t.state, r.state);
        r
  }

  /**
   * `nullTerminate`: the character just past a view is overwritten with
   * '\0', unless the view starts before the buffer or ends in its last slot
   * or beyond, which throws.
   */
  function NullTerminateOf(b: seq<char>, v: View): (r: Outcome<seq<char>>)
    ensures r.Done? <==> ViewFits(v, |b|)
    ensures r.Thrown? ==> r.error == S.OutsideBuffer
    ensures r.Done? ==> |r.value| == |b| && r.value[v.start + v.size] == '\0'
    ensures r.Done? ==> forall i :: 0 <= i < |b| && i != v.start + v.size ==> r.value[i] == b[i]
  {
    if ViewFits(v, |b|) then Done(b[v.start + v.size := '\0']) else Thrown(S.OutsideBuffer)
  }
}
