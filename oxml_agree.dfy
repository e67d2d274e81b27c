/**
 * The reader of module OxmlParse, as the original computes it, against the
 * reference reader of module OxmlSpec, on text without character
 * references.
 *
 * Without an '&' to replace, every scan of the original is the plain scan
 * of module OxmlSteps (`ScanIsRaw`), which reads what `OxmlSpec.ScanRaw`
 * reads; and `OxmlSpec.ScanDecoded` is `OxmlSpec.ScanRaw` too
 * (`DecodedIsRaw`). On such text every node parser of the original, and
 * `readNode` itself, hands out the node `OxmlSpec` reads, throws the error it
 * raises, and leaves unread what it leaves, with one exception: the '>' of
 * an empty tag is skipped without a `peek`, so when the '/' is the last
 * character in the buffer the '>' is left unread (and a source that fails
 * right there goes unnoticed).
 */
module OxmlAgree {

  import opened Chars
  import opened OxmlNodes
  import opened OxmlState
  import opened OxmlSteps
  import opened OxmlParse
  import S = OxmlSpec
  import Tags = OxmlTags

  /** Text without an '&': no character reference starts in it. */
  predicate NoRefs(x: seq<char>)
  {
    forall i :: 0 <= i < |x| ==> x[i] != '&'
  }

  lemma NoRefsSuffix(x: seq<char>, y: seq<char>)
    requires NoRefs(x) && S.IsSuffix(y, x)
    ensures NoRefs(y)
  {
    assert forall i :: 0 <= i < |y| ==> y[i] == x[|x| - |y| + i];
  }

  lemma NoRefsRest(x: seq<char>, v: seq<char>, y: seq<char>)
    requires NoRefs(x) && x == v + y
    ensures NoRefs(y)
  {
    assert forall i :: 0 <= i < |y| ==> y[i] == x[|v| + i];
  }

  /** On text without '&', the scan that replaces references is the one that does not. */
  lemma {:induction false} DecodedIsRaw(x: seq<char>, fail: bool, u: S.Until)
    requires NoRefs(x)
    ensures S.ScanDecoded(x, fail, u) == S.ScanRaw(x, fail, u)
    decreases |x|
  {
    if x != [] && S.Continues(u, x[0]) {
      NoRefsSuffix(x, x[1..]);
      DecodedIsRaw(x[1..], fail, u);
    }
  }

  /** A step of module OxmlSteps as a run of module OxmlParse: the view becomes a span, and the shift is forgotten. */
  function AsRun(t: Step<View>): Run<Span>
  {
    Run(if t.out.Done? then Done(Span(t.out.value.start, t.out.value.size)) else Thrown(t.out.error), t.state)
  }

  /*
   * `parseWhileFrom` as written, one case at a time: a character other than
   * '&' that continues the scan, the stop, the end of the data, a refill.
   */

  lemma ScanAdvancing(s: State, u: S.Until, start: int)
    requires Fine(s) && s.currentPos != s.dataEnd && S.Continues(u, s.buffer[s.currentPos]) && s.buffer[s.currentPos] != '&'
    ensures Fine(AdvanceOf(s)) && ScanOf(s, u, start) == ScanOf(AdvanceOf(s), u, start)
  {
    AdvanceFacts(s);
  }

  lemma ScanStopping(s: State, u: S.Until, start: int)
    requires Fine(s) && s.currentPos < s.dataEnd && !S.Continues(u, s.buffer[s.currentPos]) && s.readingOffset == 0
    ensures ScanOf(s, u, start) == Run(Done(Span(start, s.currentPos - start)), s)
  {
    assert MoveOf(s) == Run(Done(()), s);
    var f := FinishOf(s, start);
    assert f == Run(Done(Span(start, s.currentPos - start)), s);
    hide ScanOf, ScanEndOf, RefillOf, ReplaceOf, FinishOf;
    ScansSame(s, start, u);
    EndStops(s, u, start, f.out, f.state);
    ScanEnded(s, start, s, start, u, f.out, f.state);
  }

  lemma ScanEnding(s: State, u: S.Until, start: int)
    requires Fine(s) && s.currentPos == s.dataEnd && !s.hasMoreData
    ensures ScanOf(s, u, start) == Run(Thrown(S.UnexpectedEnd), s)
  {
    hide ScanOf, ScanEndOf, RefillOf, ReplaceOf, FinishOf;
    ScansSame(s, start, u);
    EndEnds(s, u, start);
    ScanEnded(s, start, s, start, u, Thrown(S.UnexpectedEnd), s);
  }

  lemma ScanRefilling(s: State, u: S.Until, start: int)
    requires Fine(s) && s.currentPos == s.dataEnd && s.hasMoreData
    ensures RefillOf(s).0.Thrown? ==> ScanOf(s, u, start) == Run(Thrown(RefillOf(s).0.error), RefillOf(s).1)
    ensures RefillOf(s).0.Done? ==> Fine(RefillOf(s).1) && ScanOf(s, u, start) == ScanOf(RefillOf(s).1, u, start + RefillOf(s).0.value)
  {
    hide ScanOf, ScanEndOf, RefillOf, ReplaceOf, FinishOf, Left, Onward, Stopped;
    var o, t := RefillOf(s).0, RefillOf(s).1;
    ScansSame(s, start, u);
    if o.Thrown? {
      EndRefilledThrown(s, u, start, o, t);
      ScanEnded(s, start, s, start, u, Thrown(o.error), t);
    } else {
      RefilledFacts(s, o, t);
      var r := ScanOf(t, u, start + o.value);
      EndRefilledDone(s, u, start, o, t, r.out, r.state);
      ScanEnded(s, start, s, start, u, r.out, r.state);
    }
  }

  /* The plain scan, one case at a time. */

  lemma RawAdvancing(s: State, u: S.Until, start: int)
    requires Inv(s) && OffsetsFine(s) && start <= s.currentPos && s.currentPos != s.dataEnd && S.Continues(u, s.buffer[s.currentPos])
    ensures Inv(AdvanceOf(s)) && OffsetsFine(AdvanceOf(s)) && RawOf(s, u, start) == RawOf(AdvanceOf(s), u, start)
  {
    AdvanceMoves(s);
  }

  lemma RawRefilling(s: State, u: S.Until, start: int)
    requires Inv(s) && OffsetsFine(s) && start <= s.currentPos == s.dataEnd && s.hasMoreData
    ensures RefillOf(s).0.Thrown? ==> RawOf(s, u, start) == Step(Thrown(RefillOf(s).0.error), 0, RefillOf(s).1)
    ensures RefillOf(s).0.Done? ==>
      && Inv(RefillOf(s).1) && OffsetsFine(RefillOf(s).1) && start + RefillOf(s).0.value <= RefillOf(s).1.currentPos
      && RawOf(s, u, start) == Later(RefillOf(s).0.value, RawOf(RefillOf(s).1, u, start + RefillOf(s).0.value))
  {
    assert RawOf(s, u, start) == RawRefillOf(s, u, start);
    hide RawOf, Inv, OffsetsFine, Unscanned, Measure;
    if RefillOf(s).0.Done? {
      RefillMoves(s);
    }
  }

  /** What a scan needs to be the plain one: nothing was replaced yet, and no '&' lies ahead. */
  ghost predicate Plain(s: State, start: int)
  {
    Inv(s) && OffsetsFine(s) && s.readingOffset == 0 && start <= s.currentPos && NoRefs(Unscanned(s))
  }

  /** A refill keeps a scan plain, its start moving with the data. */
  lemma PlainRefilled(s: State, start: int)
    requires Plain(s, start) && s.hasMoreData && RefillOf(s).0.Done?
    ensures Plain(RefillOf(s).1, start + RefillOf(s).0.value)
    ensures Left(RefillOf(s).1) < Left(s)
  {
    RefillDone(s);
  }

  /** Advancing over a character of the buffer keeps a scan plain. */
  lemma PlainAdvanced(s: State, start: int)
    requires Plain(s, start) && s.currentPos < s.dataEnd
    ensures Plain(AdvanceOf(s), start) && Left(AdvanceOf(s)) < Left(s)
    ensures s.buffer[s.currentPos] != '&'
  {
    AdvanceMoves(s);
    AdvanceHead(s);
    assert Unscanned(s)[0] == s.buffer[s.currentPos];
    NoRefsSuffix(Unscanned(s), Unscanned(s)[1..]);
  }

  lemma RawStopping(s: State, u: S.Until, start: int)
    requires Inv(s) && OffsetsFine(s) && start <= s.currentPos < s.dataEnd && !S.Continues(u, s.buffer[s.currentPos])
    ensures RawOf(s, u, start) == Step(Done(View(start, s.currentPos - start)), 0, s)
  {
  }

  lemma RawEnding(s: State, u: S.Until, start: int)
    requires Inv(s) && OffsetsFine(s) && start <= s.currentPos == s.dataEnd && !s.hasMoreData
    ensures RawOf(s, u, start) == Step(Thrown(S.UnexpectedEnd), 0, s)
  {
  }

  lemma PlainFine(s: State, start: int)
    requires Plain(s, start)
    ensures Fine(s) && Inv(s) && OffsetsFine(s) && start <= s.currentPos && s.readingOffset == 0
    ensures 0 <= s.currentPos <= s.dataEnd <= |s.buffer|
  {
  }

  /* The two scans side by side, one case at a time. */

  lemma PlainRefillable(s: State, start: int)
    requires Plain(s, start)
    ensures 0 <= s.dataStart <= s.currentPos <= s.dataEnd <= |s.buffer| && |s.buffer| > 0 && WellFormed(s.source)
  {
  }

  /** The current character is in the buffer and continues the scan. */
  ghost predicate Advancing(s: State, u: S.Until)
  {
    0 <= s.currentPos < s.dataEnd <= |s.buffer| && S.Continues(u, s.buffer[s.currentPos])
  }

  /** The current character is in the buffer and stops the scan. */
  ghost predicate Stopping(s: State, u: S.Until)
  {
    0 <= s.currentPos < s.dataEnd <= |s.buffer| && !S.Continues(u, s.buffer[s.currentPos])
  }

  /** The scan as written and the plain scan from `s` agree. */
  ghost predicate ScanMatches(s: State, u: S.Until, start: int)
    requires Plain(s, start)
  {
    PlainFine(s, start);
    ScanOf(s, u, start) == AsRun(RawOf(s, u, start))
  }

  lemma PlainAdvance(s: State, u: S.Until, start: int)
    requires Plain(s, start) && Advancing(s, u)
    ensures Plain(AdvanceOf(s), start) && Left(AdvanceOf(s)) < Left(s)
    ensures ScanMatches(AdvanceOf(s), u, start) ==> ScanMatches(s, u, start)
  {
    PlainFine(s, start);
    PlainAdvanced(s, start);
    ScanAdvancing(s, u, start);
    RawAdvancing(s, u, start);
  }

  lemma PlainStop(s: State, u: S.Until, start: int)
    requires Plain(s, start) && Stopping(s, u)
    ensures ScanMatches(s, u, start)
  {
    PlainFine(s, start);
    ScanStopping(s, u, start);
    RawStopping(s, u, start);
  }

  lemma PlainEnd(s: State, u: S.Until, start: int)
    requires Plain(s, start) && !Advancing(s, u) && !Stopping(s, u) && !s.hasMoreData
    ensures ScanMatches(s, u, start)
  {
    PlainFine(s, start);
    ScanEnding(s, u, start);
    RawEnding(s, u, start);
  }

  lemma PlainRefillThrown(s: State, u: S.Until, start: int)
    requires Plain(s, start) && !Advancing(s, u) && !Stopping(s, u) && s.hasMoreData && RefillOf(s).0.Thrown?
    ensures ScanMatches(s, u, start)
  {
    PlainFine(s, start);
    ScanRefilling(s, u, start);
    RawRefilling(s, u, start);
  }

  lemma PlainRefillDone(s: State, u: S.Until, start: int)
    requires Plain(s, start) && !Advancing(s, u) && !Stopping(s, u) && s.hasMoreData && RefillOf(s).0.Done?
    ensures Plain(RefillOf(s).1, start + RefillOf(s).0.value) && Left(RefillOf(s).1) < Left(s)
    ensures ScanMatches(RefillOf(s).1, u, start + RefillOf(s).0.value) ==> ScanMatches(s, u, start)
  {
    PlainFine(s, start);
    ScanRefilling(s, u, start);
    RawRefilling(s, u, start);
    PlainRefilled(s, start);
  }

  /** One step of the two scans: either they agree outright, or they agree if they agree from a later point. */
  lemma PlainStep(s: State, u: S.Until, start: int) returns (done: bool, next: State, from: int)
    requires Plain(s, start)
    ensures done ==> ScanMatches(s, u, start)
    ensures !done ==> Plain(next, from) && Left(next) < Left(s) && (ScanMatches(next, u, from) ==> ScanMatches(s, u, start))
  {
    PlainRefillable(s, start);
    hide *;
    done, next, from := true, s, start;
    if Advancing(s, u) {
      PlainAdvance(s, u, start);
      done, next := false, AdvanceOf(s);
    } else if Stopping(s, u) {
      PlainStop(s, u, start);
    } else if !s.hasMoreData {
      PlainEnd(s, u, start);
    } else if RefillOf(s).0.Thrown? {
      PlainRefillThrown(s, u, start);
    } else {
      PlainRefillDone(s, u, start);
      done, next, from := false, RefillOf(s).1, start + RefillOf(s).0.value;
    }
  }

  lemma {:induction false} PlainScansMatch(s: State, u: S.Until, start: int)
    requires Plain(s, start)
    ensures ScanMatches(s, u, start)
    decreases Left(s)
  {
    var done, next, from := PlainStep(s, u, start);
    if !done {
      PlainScansMatch(next, u, from);
    }
  }

  /**
   * On text without '&', `parseWhileFrom` as written is the plain scan: the
   * same outcome, the same view and the same state.
   */
  lemma ScanIsRaw(s: State, u: S.Until, start: int)
    requires Plain(s, start)
    ensures ScanOf(s, u, start) == AsRun(RawOf(s, u, start))
  {
    PlainScansMatch(s, u, start);
  }

  /*
   * With no node in flight, reading touches neither the node nor the
   * attribute name: `addressShift` has nothing to shift.
   */

  lemma RefillAlone(s: State)
    requires Fine(s) && s.currentNode.None?
    ensures RefillOf(s).1.currentNode.None? && RefillOf(s).1.tempAttrName == s.tempAttrName
  {
  }

  lemma PeekAlone(s: State)
    requires Fine(s) && s.currentNode.None?
    ensures PeekOf(s).state.currentNode.None? && PeekOf(s).state.tempAttrName == s.tempAttrName
  {
    if s.currentPos == s.dataEnd && s.hasMoreData {
      RefillAlone(s);
    }
  }

  lemma {:induction false} SkipAlone(s: State)
    requires Fine(s) && s.currentNode.None?
    ensures SkipOf(s).state.currentNode.None? && SkipOf(s).state.tempAttrName == s.tempAttrName
    decreases |Unscanned(s)| + Measure(s)
  {
    var p := PeekOf(s);
    PeekAlone(s);
    if p.out.Done? && IsSpace(p.out.value) {
      PeekAdvanceFine(s);
      assert SkipOf(s) == Later(p.shift, SkipOf(AdvanceOf(p.state)));
      SkipAlone(AdvanceOf(p.state));
    }
  }

  lemma {:induction false} RawAlone(s: State, u: S.Until, start: int)
    requires Inv(s) && OffsetsFine(s) && start <= s.currentPos && s.currentNode.None?
    ensures RawOf(s, u, start).state.currentNode.None? && RawOf(s, u, start).state.tempAttrName == s.tempAttrName
    decreases |Unscanned(s)| + Measure(s)
  {
    if s.currentPos != s.dataEnd && S.Continues(u, s.buffer[s.currentPos]) {
      RawAdvancing(s, u, start);
      AdvanceMoves(s);
      RawAlone(AdvanceOf(s), u, start);
    } else if s.currentPos == s.dataEnd && s.hasMoreData {
      RawRefilling(s, u, start);
      RefillAlone(s);
      if RefillOf(s).0.Done? {
        RefillMoves(s);
        RawAlone(RefillOf(s).1, u, start + RefillOf(s).0.value);
      }
    }
  }

  /** Between the reading steps: the state is sound, no replaced text awaits moving, and no '&' lies ahead. */
  ghost predicate Steady(s: State, fail: bool)
  {
    Sound(s, fail) && s.readingOffset == 0 && NoRefs(Unscanned(s))
  }

  /**
   * From `s` to `t` the reader only read: `t` is steady, the node in flight
   * says what it said (moved with the data, if the data moved), and with no
   * node in flight the attribute name was left alone.
   */
  ghost predicate Moved(s: State, t: State, fail: bool)
  {
    && Steady(t, fail)
    && NodeText(t) == NodeText(s)
    && (s.currentNode.None? ==> t.currentNode.None? && t.tempAttrName == s.tempAttrName)
    && (s.currentNode.Some? ==> Kept(s, t, t.dataStart - s.dataStart))
  }

  lemma MovedRefl(s: State, fail: bool)
    requires Steady(s, fail)
    ensures Moved(s, s, fail)
  {
    RefreshedRefl(s);
  }

  lemma MovedTrans(s: State, a: State, t: State, fail: bool)
    requires Moved(s, a, fail) && Moved(a, t, fail)
    ensures Moved(s, t, fail)
  {
    hide Kept, Steady, NodeText;
    if s.currentNode.Some? {
      MovedKept(s, a, t);
    }
  }

  /** The data kept while a node is in flight stays kept over two steps. */
  lemma MovedKept(s: State, a: State, t: State)
    requires s.currentNode.Some? && Kept(s, a, a.dataStart - s.dataStart)
    requires a.currentNode.Some? ==> Kept(a, t, t.dataStart - a.dataStart)
    ensures Kept(s, t, t.dataStart - s.dataStart)
  {
    assert a.currentNode.Some?;
    hide Kept;
    KeptTrans(s, a, t, a.dataStart - s.dataStart, t.dataStart - a.dataStart);
    assert (a.dataStart - s.dataStart) + (t.dataStart - a.dataStart) == t.dataStart - s.dataStart;
  }

  /** A step that kept the data, and left the rest of `t` steady, moved the reader. */
  lemma KeptMoved(s: State, t: State, d: int, fail: bool)
    requires Steady(s, fail) && Kept(s, t, d) && NoRefs(Unscanned(t))
    requires s.currentNode.None? ==> t.tempAttrName == s.tempAttrName
    ensures Moved(s, t, fail)
  {
  }

  /** Once `peek` has made the current character available, the buffer holds it exactly when some character is left. */
  lemma ReadyAt(s: State)
    requires Inv(s) && Ready(s)
    ensures s.currentPos < s.dataEnd <==> Unscanned(s) != []
    ensures s.currentPos < s.dataEnd ==> Unscanned(s)[0] == s.buffer[s.currentPos] && CharAt(s) == s.buffer[s.currentPos]
    ensures s.currentPos == s.dataEnd ==> CharAt(s) == '\0'
  {
    if s.currentPos == s.dataEnd {
      assert Unscanned(s) == Available(s.source);
    }
  }

  /** `peek` on a steady state: what `OxmlSpec.Peek` gives, and nothing consumed. */
  lemma PeekMoves(s: State, fail: bool)
    requires Steady(s, fail)
    ensures PeekOf(s).out.Thrown? <==> S.Peek(Unscanned(s), fail).Err?
    ensures PeekOf(s).out.Thrown? ==> PeekOf(s).out.error == S.ReadError
    ensures PeekOf(s).out.Done? ==>
      && Moved(s, PeekOf(s).state, fail) && Ready(PeekOf(s).state) && Unscanned(PeekOf(s).state) == Unscanned(s)
      && PeekOf(s).out.value == S.Peek(Unscanned(s), fail).value
  {
    PeekSpec(s, fail);
    if PeekOf(s).out.Done? {
      if s.currentNode.None? {
        PeekAlone(s);
      }
      KeptMoved(s, PeekOf(s).state, PeekOf(s).shift, fail);
    }
  }

  /** `advance` on a steady state: one character consumed if the buffer has it, none otherwise. */
  lemma AdvanceStep(s: State, fail: bool)
    requires Steady(s, fail)
    ensures Moved(s, AdvanceOf(s), fail)
    ensures s.currentPos < s.dataEnd ==> Unscanned(s) != [] && Unscanned(AdvanceOf(s)) == S.Advance(Unscanned(s))
    ensures s.currentPos == s.dataEnd ==> AdvanceOf(s) == s
    ensures Ready(s) ==> Unscanned(AdvanceOf(s)) == S.Advance(Unscanned(s))
  {
    if s.currentPos < s.dataEnd {
      AdvanceKept(s);
      AdvanceHead(s);
      NoRefsSuffix(Unscanned(s), Unscanned(s)[1..]);
      KeptMoved(s, AdvanceOf(s), 0, fail);
    } else {
      MovedRefl(s, fail);
      if Ready(s) {
        ReadyAt(s);
      }
    }
  }

  /** `skipWhitespace` on a steady state: what `OxmlSpec.SkipSpace` consumes. */
  lemma SkipMoves(s: State, fail: bool)
    requires Steady(s, fail)
    ensures SkipOf(s).out.Thrown? <==> S.SkipSpace(Unscanned(s), fail).Err?
    ensures SkipOf(s).out.Thrown? ==> SkipOf(s).out.error == S.ReadError
    ensures SkipOf(s).out.Done? ==>
      && Moved(s, SkipOf(s).state, fail) && Ready(SkipOf(s).state)
      && Unscanned(SkipOf(s).state) == S.SkipSpace(Unscanned(s), fail).rest
  {
    SkipSpec(s, fail);
    if SkipOf(s).out.Done? {
      if s.currentNode.None? {
        SkipAlone(s);
      }
      NoRefsSuffix(Unscanned(s), S.SkipSpace(Unscanned(s), fail).rest);
      KeptMoved(s, SkipOf(s).state, SkipOf(s).shift, fail);
    }
  }

  /**
   * What `parseWhileFrom` as written gives on a steady state, scanning for
   * `u` from the current position: what `OxmlSpec.ScanRaw` gives; with a
   * node in flight, a view of the characters scanned, starting where the
   * scan started once moved with the data.
   */
  ghost predicate ScanGave(s: State, u: S.Until, fail: bool, r: Run<Span>)
  {
    var q := S.ScanRaw(Unscanned(s), fail, u);
    && (r.out.Thrown? <==> q.Err?)
    && (r.out.Thrown? ==> r.out.error == q.error)
    && (r.out.Done? ==>
          && q.Ok? && Moved(s, r.state, fail)
          && Unscanned(r.state) == q.rest && r.state.currentPos < r.state.dataEnd
          && (s.currentNode.Some? ==>
                && r.out.value.start == s.currentPos + (r.state.dataStart - s.dataStart)
                && r.out.value.length == |q.value|
                && 0 <= r.out.value.start <= r.state.currentPos <= |r.state.buffer|
                && r.out.value.start + r.out.value.length == r.state.currentPos
                && r.state.buffer[r.out.value.start..r.state.currentPos] == q.value))
  }

  /** `parseWhileFrom` as written, from the current position of a steady state, reads what `OxmlSpec.ScanRaw` reads. */
  lemma ScanAgrees(s: State, u: S.Until, fail: bool)
    requires Steady(s, fail)
    ensures ScanGave(s, u, fail, ScanOf(s, u, s.currentPos))
  {
    ScanIsRaw(s, u, s.currentPos);
    RawSpec(s, u, s.currentPos, fail);
    var t := RawOf(s, u, s.currentPos);
    if t.out.Done? {
      var q := S.ScanRaw(Unscanned(s), fail, u);
      if s.currentNode.None? {
        RawAlone(s, u, s.currentPos);
      }
      NoRefsRest(Unscanned(s), q.value, q.rest);
      KeptMoved(s, t.state, t.shift, fail);
    }
  }

  /** Between two nodes: steady, no node in flight, and no attribute name held. */
  ghost predicate Clean(s: State, fail: bool)
  {
    Steady(s, fail) && s.currentNode.None? && s.tempAttrName == NullView
  }

  /** A run as written agrees with `OxmlSpec`: it throws what the reference raises, or returns its value and leaves unread what it leaves. */
  ghost predicate Agrees<T>(r: Run<T>, q: S.Res<T>, fail: bool)
  {
    && (r.out.Thrown? <==> q.Err?)
    && (r.out.Thrown? ==> r.out.error == q.error)
    && (r.out.Done? ==> r.out.value == q.value && Unscanned(r.state) == q.rest && Clean(r.state, fail))
  }

  /** `ignoreNodeEnd` as written skips what `OxmlSpec.IgnoreNodeEnd` skips. */
  lemma IgnoreEndAgrees(s: State, fail: bool)
    requires Clean(s, fail)
    ensures Agrees(IgnoreEndOf(s), S.IgnoreNodeEnd(Unscanned(s), fail), fail)
  {
    ScanAgrees(s, S.Char('>'), fail);
    var n := ScanOf(s, S.Char('>'), s.currentPos);
    if n.out.Done? {
      AdvanceStep(n.state, fail);
    }
  }

  /** The comment loop as written skips what `OxmlSpec.CommentBody` skips. */
  lemma {:induction false} CommentAgrees(s: State, fail: bool)
    requires Clean(s, fail)
    ensures Agrees(CommentOf(s), S.CommentBody(Unscanned(s), fail), fail)
    decreases |Unscanned(s)|
  {
    ScanAgrees(s, S.Char('-'), fail);
    var n := ScanOf(s, S.Char('-'), s.currentPos);
    if n.out.Done? {
      var a := AdvanceOf(n.state);
      AdvanceStep(n.state, fail);
      PeekMoves(a, fail);
      var p := PeekOf(a);
      if p.out.Done? {
        MovedTrans(n.state, a, p.state, fail);
        ReadyAt(p.state);
        if !(p.out.value == '-' || p.state.currentPos == p.state.dataEnd) {
          CommentAgrees(p.state, fail);
        }
      }
    }
  }

  /** After "<!-" as written: what `OxmlSpec.IgnoreComment` does. */
  lemma DashAgrees(s: State, fail: bool)
    requires Clean(s, fail) && Ready(s) && Unscanned(s) != []
    ensures Agrees(DashOf(s), S.IgnoreComment(Unscanned(s), fail), fail)
  {
    ReadyAt(s);
    AdvanceStep(s, fail);
    var s1 := AdvanceOf(s);
    PeekMoves(s1, fail);
    var q := PeekOf(s1);
    if q.out.Done? {
      MovedTrans(s, s1, q.state, fail);
      if q.out.value == '-' {
        ReadyAt(q.state);
        AdvanceStep(q.state, fail);
        var s2 := AdvanceOf(q.state);
        CommentAgrees(s2, fail);
        var c := CommentOf(s2);
        if c.out.Done? {
          IgnoreEndAgrees(c.state, fail);
        }
      }
    }
  }

  /** What `ignoreSpecialXML` does after "<![": skip to the first ']', then through the next '>'. */
  function Cdata(x: seq<char>, fail: bool): (r: S.Res<bool>)
    ensures r.Ok? ==> !r.value && |r.rest| < |x|
  {
    match S.ScanRaw(x, fail, S.Char(']'))
    case Err(e) => S.Err(e)
    case Ok(_, r2) =>
      match S.IgnoreNodeEnd(r2, fail)
      case Err(e) => S.Err(e)
      case Ok(_, r3) => S.Ok(false, r3)
  }

  /** After "<![" as written: what `Cdata` does. */
  lemma CdataAgrees(s: State, fail: bool)
    requires Clean(s, fail)
    ensures Agrees(CdataOf(s), Cdata(Unscanned(s), fail), fail)
  {
    ScanAgrees(s, S.Char(']'), fail);
    var n := ScanOf(s, S.Char(']'), s.currentPos);
    if n.out.Done? {
      IgnoreEndAgrees(n.state, fail);
    }
  }

  /** A special node that is neither a comment nor a CDATA section: skipped up to its '>'. */
  function Ended(x: seq<char>, fail: bool): (r: S.Res<bool>)
    ensures r.Ok? ==> !r.value && |r.rest| < |x|
  {
    match S.IgnoreNodeEnd(x, fail)
    case Err(e) => S.Err(e)
    case Ok(_, r2) => S.Ok(false, r2)
  }

  lemma DeclaredAgrees(s: State, fail: bool)
    requires Clean(s, fail)
    ensures Agrees(Declared(IgnoreEndOf(s), false), Ended(Unscanned(s), fail), fail)
  {
    IgnoreEndAgrees(s, fail);
  }

  /** `OxmlSpec.IgnoreSpecial`, case by case on the character after the '!'. */
  lemma SpecialSteps(x: seq<char>, fail: bool)
    requires x != []
    ensures S.Peek(S.Advance(x), fail).Err? ==> S.IgnoreSpecial(x, fail) == S.Err(S.Peek(S.Advance(x), fail).error)
    ensures S.Peek(S.Advance(x), fail).Ok? ==>
      (S.IgnoreSpecial(x, fail) ==
        var c := S.Peek(S.Advance(x), fail).value;
        if c == '-' then S.IgnoreComment(S.Advance(x), fail)
        else if c == '[' then Cdata(S.Advance(x), fail)
        else Ended(S.Advance(x), fail))
  {
  }

  /** `ignoreSpecialXML` as written, on the '!': what `OxmlSpec.IgnoreSpecial` does. */
  lemma SpecialAgrees(s: State, fail: bool)
    requires Clean(s, fail) && Ready(s) && Unscanned(s) != []
    ensures Agrees(SpecialOf(s), S.IgnoreSpecial(Unscanned(s), fail), fail)
  {
    SpecialSteps(Unscanned(s), fail);
    hide DashOf, CdataOf, IgnoreEndOf, Declared, S.IgnoreComment, Cdata, Ended, S.IgnoreSpecial, S.IgnoreNodeEnd, S.ScanRaw;
    ReadyAt(s);
    AdvanceStep(s, fail);
    var s1 := AdvanceOf(s);
    PeekMoves(s1, fail);
    var p := PeekOf(s1);
    if p.out.Done? {
      MovedTrans(s, s1, p.state, fail);
      ReadyAt(p.state);
      if p.out.value == '-' {
        DashAgrees(p.state, fail);
      } else if p.out.value == '[' {
        CdataAgrees(p.state, fail);
      } else {
        DeclaredAgrees(p.state, fail);
      }
    }
  }

  /** The node `n`, read in the buffer contents `b`, says `sn`. */
  ghost predicate Shows(b: seq<char>, n: Node, sn: S.Node)
  {
    NodeIn(n, 0, |b|) && Render(b, n) == sn
  }

  /** A node parser as written agrees with `OxmlSpec`: it throws what the reference raises, or hands out the node the reference reads and leaves unread what it leaves. */
  ghost predicate Gave(r: Run<Node>, q: S.Res<S.Node>, fail: bool)
  {
    && (r.out.Thrown? <==> q.Err?)
    && (r.out.Thrown? ==> r.out.error == q.error)
    && (r.out.Done? ==> Shows(r.state.buffer, r.out.value, q.value) && Unscanned(r.state) == q.rest && Clean(r.state, fail))
  }

  /** A node begins on a clean state: it stays steady, and the node is still empty-handed. */
  lemma BeginSteady(s: State, fail: bool, n: Node)
    requires Clean(s, fail) && (n == ClosingNode(NullView) || n == TextNode(NullView) || n == OpeningNode(NullView, false, []))
    ensures Steady(Begin(s, n), fail) && Unscanned(Begin(s, n)) == Unscanned(s)
    ensures Begin(s, n).dataStart == Begin(s, n).currentPos && Begin(s, n).tempAttrName == NullView
  {
  }

  /** A view the scan gave while a node was in flight shows the text scanned. */
  lemma ScannedView(s: State, u: S.Until, fail: bool, r: Run<Span>)
    requires Steady(s, fail) && s.currentNode.Some? && ScanGave(s, u, fail, r) && r.out.Done?
    ensures ViewOf(r.out.value).Done?
    ensures var v := ViewOf(r.out.value).value;
      && ViewIn(v, 0, |r.state.buffer|) && ViewText(r.state.buffer, v) == S.ScanRaw(Unscanned(s), fail, u).value
      && ViewKept(v, r.state.dataStart, r.state.dataEnd, |r.state.buffer|)
      && (s.dataStart == s.currentPos ==> v.start == r.state.dataStart)
  {
  }

  /** A node handed out at the end of a step that moved the reader leaves it clean. */
  lemma ReleaseClean(s: State, t: State, fail: bool)
    requires Moved(s, t, fail) && s.currentNode.Some? && s.tempAttrName == NullView
    ensures Clean(Release(t), fail) && Unscanned(Release(t)) == Unscanned(t) && Release(t).buffer == t.buffer
  {
  }

  /** `parseClosingNode` as written, on the '/' after a '<': what `OxmlSpec.ParseClosing` reads. */
  lemma ClosingAgrees(s: State, fail: bool)
    requires Clean(s, fail) && Ready(s) && Unscanned(s) != []
    ensures Gave(ClosingOf(s), S.ParseClosing(Unscanned(s), fail), fail)
  {
    ReadyAt(s);
    AdvanceStep(s, fail);
    var s1 := AdvanceOf(s);
    var s2 := Begin(s1, ClosingNode(NullView));
    BeginSteady(s1, fail, ClosingNode(NullView));
    DecodedIsRaw(Unscanned(s2), fail, S.Name);
    ScanAgrees(s2, S.Name, fail);
    var n := ScanOf(s2, S.Name, s2.currentPos);
    if n.out.Done? {
      ScannedView(s2, S.Name, fail, n);
      AdvanceStep(n.state, fail);
      MovedTrans(s2, n.state, AdvanceOf(n.state), fail);
      ReleaseClean(s2, AdvanceOf(n.state), fail);
    }
  }

  /** A text parser as written agrees with `OxmlSpec.ParseText`: the same error, or a node exactly when the reference has one, showing its text. */
  ghost predicate GaveText(r: Run<Option<Node>>, q: S.Res<Option<S.Node>>, fail: bool)
  {
    && (r.out.Thrown? <==> q.Err?)
    && (r.out.Thrown? ==> r.out.error == q.error)
    && (r.out.Done? ==>
          && (r.out.value.Some? <==> q.value.Some?)
          && (r.out.value.Some? ==> Shows(r.state.buffer, r.out.value.value, q.value.value))
          && Unscanned(r.state) == q.rest && Clean(r.state, fail))
  }

  /** What `OxmlSpec.ParseText` makes of the text its scan read. */
  function TextBy(q: S.Res<seq<char>>): (r: S.Res<Option<S.Node>>)
    ensures r.Err? <==> q.Err?
  {
    match q
    case Err(e) => S.Err(e)
    case Ok(text, rest) => S.Ok(if AllSpace(text) then None else Some(S.Text(text)), rest)
  }

  lemma TextSpec(x: seq<char>, fail: bool)
    requires NoRefs(x)
    ensures S.ParseText(x, fail) == TextBy(S.ScanRaw(x, fail, S.Char('<')))
  {
    DecodedIsRaw(x, fail, S.Char('<'));
  }

  /** `parseTextNode` as written, once its scan `t` is known. */
  lemma TextOfScan(s: State, t: Run<Span>)
    requires Fine(s) && t == ScanOf(Begin(s, TextNode(NullView)), S.Char('<'), s.currentPos)
    ensures t.out.Thrown? ==> TextOf(s) == Run(Thrown(t.out.error), t.state)
    ensures t.out.Done? && t.out.value.length >= 0 && ViewIn(View(t.out.value.start, t.out.value.length), 0, |t.state.buffer|) ==>
      var v := View(t.out.value.start, t.out.value.length);
      TextOf(s) == Run(Done(if AllSpace(ViewText(t.state.buffer, v)) then None else Some(TextNode(v))), Release(t.state))
  {
  }

  /** `parseTextNode` as written: what `OxmlSpec.ParseText` reads, references aside. */
  lemma TextAgrees(s: State, fail: bool)
    requires Clean(s, fail)
    ensures GaveText(TextOf(s), S.ParseText(Unscanned(s), fail), fail)
  {
    var s1 := Begin(s, TextNode(NullView));
    BeginSteady(s, fail, TextNode(NullView));
    ScanAgrees(s1, S.Char('<'), fail);
    var t := ScanOf(s1, S.Char('<'), s1.currentPos);
    TextSpec(Unscanned(s), fail);
    TextOfScan(s, t);
    hide TextOf, S.ParseText, ScanOf, RawOf, S.ScanDecoded, S.ScanRaw, Begin, Release, ViewText, AllSpace, Moved, Steady;
    if t.out.Done? {
      ScannedView(s1, S.Char('<'), fail, t);
      ReleaseClean(s1, t.state, fail);
    }
  }

  /**
   * An opening node is being built: steady, the node in flight is an
   * opening node not marked empty, no attribute name is held, and it says
   * `name` with the attributes `attrs` so far.
   */
  ghost predicate Building(s: State, fail: bool, name: seq<char>, attrs: seq<(seq<char>, seq<char>)>)
  {
    && Steady(s, fail) && s.currentNode.Some? && s.currentNode.value.OpeningNode? && !s.currentNode.value.empty
    && s.tempAttrName == NullView && NodeText(s) == Some((S.Open(name, false, attrs), []))
  }

  lemma MovedBuilding(s: State, t: State, fail: bool, name: seq<char>, attrs: seq<(seq<char>, seq<char>)>)
    requires Building(s, fail, name, attrs) && Moved(s, t, fail)
    ensures Building(t, fail, name, attrs)
  {
  }

  /** The opening node just begun gets the name the scan gave. */
  lemma NameSet(s1: State, n: State, fail: bool, v: View, name: seq<char>)
    requires Steady(s1, fail) && s1.currentNode == Some(OpeningNode(NullView, false, [])) && s1.tempAttrName == NullView && Moved(s1, n, fail)
    requires ViewIn(v, 0, |n.buffer|) && ViewText(n.buffer, v) == name && ViewKept(v, n.dataStart, n.dataEnd, |n.buffer|)
    ensures Building(SetName(n, v), fail, name, []) && Unscanned(SetName(n, v)) == Unscanned(n)
  {
    assert ShiftAttributes([], n.dataStart - s1.dataStart) == [];
  }

  /** The name of an attribute is held in `tempAttrName`. */
  lemma NameHeld(n: State, fail: bool, name: seq<char>, acc: seq<(seq<char>, seq<char>)>, v: View, attr: seq<char>)
    requires Building(n, fail, name, acc)
    requires ViewIn(v, 0, |n.buffer|) && ViewText(n.buffer, v) == attr && ViewKept(v, n.dataStart, n.dataEnd, |n.buffer|)
    ensures Steady(n.(tempAttrName := v), fail) && n.(tempAttrName := v).currentNode == n.currentNode
    ensures NodeText(n.(tempAttrName := v)) == Some((S.Open(name, false, acc), attr))
  {
  }

  /** Adding an attribute keeps the reader steady and reads nothing. */
  lemma AddedSteady(w: State, fail: bool, v: View)
    requires Steady(w, fail) && w.currentNode.Some? && w.currentNode.value.OpeningNode?
    requires ViewIn(v, 0, |w.buffer|) && ViewKept(v, w.dataStart, w.dataEnd, |w.buffer|)
    ensures Steady(AddAttribute(w, v), fail) && Unscanned(AddAttribute(w, v)) == Unscanned(w)
  {
    var n := w.currentNode.value;
    var attrs := n.attributes + [(w.tempAttrName, v)];
    assert attrs[..|attrs| - 1] == n.attributes;
    assert AttributesKept(attrs, w.dataStart, w.dataEnd, |w.buffer|);
  }

  /** The attribute whose name is held gets its value and joins the node. */
  lemma AttributeAdded(w: State, fail: bool, name: seq<char>, acc: seq<(seq<char>, seq<char>)>, attr: seq<char>, v: View, value: seq<char>)
    requires Steady(w, fail) && w.currentNode.Some? && w.currentNode.value.OpeningNode? && !w.currentNode.value.empty
    requires NodeText(w) == Some((S.Open(name, false, acc), attr))
    requires ViewIn(v, 0, |w.buffer|) && ViewText(w.buffer, v) == value && ViewKept(v, w.dataStart, w.dataEnd, |w.buffer|)
    ensures Building(AddAttribute(w, v), fail, name, acc + [(attr, value)]) && Unscanned(AddAttribute(w, v)) == Unscanned(w)
  {
    AddedSteady(w, fail, v);
    hide Steady, Unscanned;
    var n := w.currentNode.value;
    var attrs := n.attributes + [(w.tempAttrName, v)];
    assert attrs[..|attrs| - 1] == n.attributes;
    assert AttributesIn(attrs, 0, |w.buffer|);
    assert RenderAttributes(w.buffer, attrs) == acc + [(attr, value)];
  }

  /** An attribute name `attr` is held for the opening node being built, which says `name` with the attributes `acc` so far. */
  ghost predicate Holding(s: State, fail: bool, name: seq<char>, acc: seq<(seq<char>, seq<char>)>, attr: seq<char>)
  {
    && Steady(s, fail) && s.currentNode.Some? && s.currentNode.value.OpeningNode? && !s.currentNode.value.empty
    && NodeText(s) == Some((S.Open(name, false, acc), attr))
  }

  lemma MovedHolding(s: State, t: State, fail: bool, name: seq<char>, acc: seq<(seq<char>, seq<char>)>, attr: seq<char>)
    requires Holding(s, fail, name, acc, attr) && Moved(s, t, fail)
    ensures Holding(t, fail, name, acc, attr)
  {
  }

  /** What the attribute loop reads after the '=': the quote character, the value up to the same quote with references replaced, and the closing quote. */
  function Quoted(x: seq<char>, fail: bool): (r: S.Res<seq<char>>)
    ensures r.Ok? ==> |r.rest| < |x|
  {
    match S.Peek(x, fail)
    case Err(e) => S.Err(e)
    case Ok(quote, _) =>
      match S.ScanDecoded(S.Advance(x), fail, S.Char(quote))
      case Err(e) => S.Err(e)
      case Ok(value, r4) => S.Ok(value, S.Advance(r4))
  }

  /** `OxmlSpec.Attribute` put together from the parts the attribute loop reads: a name, one skipped character, a quoted value, white space. */
  function AttributeByParts(x: seq<char>, fail: bool): S.Res<(seq<char>, seq<char>)>
  {
    match S.ParseName(x, fail)
    case Err(e) => S.Err(e)
    case Ok(attr, r1) =>
      match Quoted(S.Advance(r1), fail)
      case Err(e) => S.Err(e)
      case Ok(value, r4) =>
        match S.SkipSpace(r4, fail)
        case Err(e) => S.Err(e)
        case Ok(_, r5) => S.Ok((attr, value), r5)
  }

  lemma AttributeParts(x: seq<char>, fail: bool)
    ensures S.Attribute(x, fail) == AttributeByParts(x, fail)
  {
  }

  /** The quoted value as written: what `Quoted` reads, as a view the node can keep. */
  lemma QuotedAgrees(e: State, fail: bool, name: seq<char>, acc: seq<(seq<char>, seq<char>)>, attr: seq<char>)
    requires Holding(e, fail, name, acc, attr)
    ensures var r, q := QuotedOf(e), Quoted(Unscanned(e), fail);
      && (r.out.Thrown? <==> q.Err?)
      && (r.out.Thrown? ==> r.out.error == q.error)
      && (r.out.Done? ==>
            && Holding(r.state, fail, name, acc, attr) && Unscanned(r.state) == q.rest
            && ViewIn(r.out.value, 0, |r.state.buffer|) && ViewText(r.state.buffer, r.out.value) == q.value
            && ViewKept(r.out.value, r.state.dataStart, r.state.dataEnd, |r.state.buffer|))
  {
    PeekMoves(e, fail);
    var p := PeekOf(e);
    if p.out.Done? {
      AdvanceStep(p.state, fail);
      var s1 := AdvanceOf(p.state);
      MovedTrans(e, p.state, s1, fail);
      DecodedIsRaw(Unscanned(s1), fail, S.Char(p.out.value));
      ScanAgrees(s1, S.Char(p.out.value), fail);
      var v := ScanOf(s1, S.Char(p.out.value), s1.currentPos);
      if v.out.Done? {
        ScannedView(s1, S.Char(p.out.value), fail, v);
        AdvanceStep(v.state, fail);
        MovedTrans(e, s1, v.state, fail);
        MovedTrans(e, v.state, AdvanceOf(v.state), fail);
        MovedHolding(e, AdvanceOf(v.state), fail, name, acc, attr);
      }
    }
  }

  /** One turn of the attribute loop as written: what `OxmlSpec.Attribute` reads, and the attribute joins the node. */
  lemma AttributeAgrees(s: State, fail: bool, name: seq<char>, acc: seq<(seq<char>, seq<char>)>)
    requires Building(s, fail, name, acc)
    ensures var r, q := AttributeOf(s), S.Attribute(Unscanned(s), fail);
      && (r.out.Thrown? <==> q.Err?)
      && (r.out.Thrown? ==> r.out.error == q.error)
      && (r.out.Done? ==> Building(r.state, fail, name, acc + [q.value]) && Unscanned(r.state) == q.rest)
  {
    AttributeParts(Unscanned(s), fail);
    DecodedIsRaw(Unscanned(s), fail, S.Name);
    ScanAgrees(s, S.Name, fail);
    var n := ScanOf(s, S.Name, s.currentPos);
    if n.out.Done? {
      ScannedView(s, S.Name, fail, n);
      var nv := ViewOf(n.out.value).value;
      MovedBuilding(s, n.state, fail, name, acc);
      var attr := S.ScanRaw(Unscanned(s), fail, S.Name).value;
      NameHeld(n.state, fail, name, acc, nv, attr);
      var n1 := n.state.(tempAttrName := nv);
      AdvanceStep(n1, fail);
      var e := AdvanceOf(n1);
      assert EqualsOf(n.state, nv) == e;
      MovedHolding(n1, e, fail, name, acc, attr);
      QuotedAgrees(e, fail, name, acc, attr);
      var v := QuotedOf(e);
      if v.out.Done? {
        AttributeAdded(v.state, fail, name, acc, attr, v.out.value, Quoted(Unscanned(e), fail).value);
        var s2 := AddAttribute(v.state, v.out.value);
        SkipMoves(s2, fail);
        if SkipOf(s2).out.Done? {
          MovedBuilding(s2, SkipOf(s2).state, fail, name, acc + [S.Attribute(Unscanned(s), fail).value]);
        }
      }
    }
  }

  /** The attribute loop as written: what `OxmlSpec.Attributes` reads, every attribute joining the node; it stops with '/' or '>' in the buffer. */
  lemma {:induction false} AttributesAgrees(s: State, fail: bool, name: seq<char>, acc: seq<(seq<char>, seq<char>)>)
    requires Building(s, fail, name, acc)
    ensures var r, q := AttributesOf(s), S.Attributes(Unscanned(s), fail, acc);
      && (r.out.Thrown? <==> q.Err?)
      && (r.out.Thrown? ==> r.out.error == q.error)
      && (r.out.Done? ==> Building(r.state, fail, name, q.value) && Unscanned(r.state) == q.rest && Ready(r.state))
    decreases |Unscanned(s)|
  {
    PeekMoves(s, fail);
    var p := PeekOf(s);
    if p.out.Done? {
      MovedBuilding(s, p.state, fail, name, acc);
      if p.out.value != '/' && p.out.value != '>' {
        AttributeAgrees(p.state, fail, name, acc);
        var t := AttributeOf(p.state);
        if t.out.Done? {
          AttributesAgrees(t.state, fail, name, acc + [S.Attribute(Unscanned(s), fail).value]);
        }
      }
    }
  }

  /** The characters `x` are those of `rest` with one more in front: a '>' the reader has still to consume. */
  predicate Lagging(x: seq<char>, rest: seq<char>)
  {
    x != [] && x[1..] == rest
  }

  /**
   * `parseOpeningNode` as written agrees with `OxmlSpec.ParseOpening`: an
   * error it throws is the reference's; where the reference reads a node,
   * the reader hands out that node, having consumed the same characters or,
   * when the '/' of an empty tag was the last character in the buffer, all
   * but the '>'; where the reference fails right after such a '/', the
   * reader hands out the empty node with nothing left to read.
   */
  ghost predicate OpenGave(r: Run<Node>, q: S.Res<S.Node>, fail: bool)
  {
    && (r.out.Thrown? ==> q.Err? && r.out.error == q.error)
    && (r.out.Done? ==> Clean(r.state, fail) && r.out.value.OpeningNode?)
    && (q.Ok? ==>
          && r.out.Done? && Shows(r.state.buffer, r.out.value, q.value)
          && (Unscanned(r.state) == q.rest || (q.value.empty && Lagging(Unscanned(r.state), q.rest))))
    && (q.Err? && r.out.Done? ==>
          q.error == S.ReadError && fail && Unscanned(r.state) == [] && r.out.value.empty)
  }

  /** What `OxmlSpec.ParseOpening` does once the attributes are read and `x` starts with '/' or '>'. */
  function OpeningEnd(x: seq<char>, fail: bool, name: seq<char>, attrs: seq<(seq<char>, seq<char>)>): S.Res<S.Node>
    requires x != []
  {
    var empty := x[0] == '/';
    var r4 := if empty then S.Advance(x) else x;
    match S.Peek(r4, fail)
    case Err(e) => S.Err(e)
    case Ok(_, _) => S.Ok(S.Open(name, empty, attrs), S.Advance(r4))
  }

  /** The opening node being built is marked empty. */
  lemma EmptySet(p: State, fail: bool, name: seq<char>, attrs: seq<(seq<char>, seq<char>)>)
    requires Building(p, fail, name, attrs)
    ensures Steady(SetEmpty(p), fail) && Unscanned(SetEmpty(p)) == Unscanned(p)
    ensures SetEmpty(p).tempAttrName == NullView && NodeText(SetEmpty(p)) == Some((S.Open(name, true, attrs), []))
  {
  }

  /** The end of `parseOpeningNode` as written, on '/' or '>': what `OpeningEnd` reads, but for the '>' it skips without a `peek`. */
  lemma OpeningEndAgrees(a: State, fail: bool, name: seq<char>, attrs: seq<(seq<char>, seq<char>)>)
    requires Building(a, fail, name, attrs) && Ready(a) && Unscanned(a) != [] && (Unscanned(a)[0] == '/' || Unscanned(a)[0] == '>')
    ensures OpenGave(OpeningEndOf(a), OpeningEnd(Unscanned(a), fail, name, attrs), fail)
  {
    ReadyAt(a);
    PeekMoves(a, fail);
    var p := PeekOf(a);
    MovedBuilding(a, p.state, fail, name, attrs);
    ReadyAt(p.state);
    var s1 := if p.out.value == '/' then AdvanceOf(SetEmpty(p.state)) else p.state;
    if p.out.value == '/' {
      EmptySet(p.state, fail, name, attrs);
      AdvanceStep(SetEmpty(p.state), fail);
    } else {
      MovedRefl(p.state, fail);
    }
    var e := if p.out.value == '/' then SetEmpty(p.state) else p.state;
    assert Moved(e, s1, fail);
    AdvanceStep(s1, fail);
    var s2 := AdvanceOf(s1);
    MovedTrans(e, s1, s2, fail);
    ReleaseClean(e, s2, fail);
  }

  /** `parseOpeningNode` as written, after the '<': what `OxmlSpec.ParseOpening` reads, up to the '>' left unread in one corner. */
  lemma OpeningAgrees(s: State, fail: bool)
    requires Clean(s, fail)
    ensures OpenGave(OpeningOf(s), S.ParseOpening(Unscanned(s), fail), fail)
  {
    var s1 := Begin(s, OpeningNode(NullView, false, []));
    BeginSteady(s, fail, OpeningNode(NullView, false, []));
    DecodedIsRaw(Unscanned(s1), fail, S.Name);
    ScanAgrees(s1, S.Name, fail);
    var n := ScanOf(s1, S.Name, s1.currentPos);
    if n.out.Done? {
      ScannedView(s1, S.Name, fail, n);
      var v := ViewOf(n.out.value).value;
      var name := S.ScanRaw(Unscanned(s1), fail, S.Name).value;
      NameSet(s1, n.state, fail, v, name);
      var s2 := SetName(n.state, v);
      SkipMoves(s2, fail);
      var k := SkipOf(s2);
      if k.out.Done? {
        MovedBuilding(s2, k.state, fail, name, []);
        AttributesAgrees(k.state, fail, name, []);
        var a := AttributesOf(k.state);
        if a.out.Done? {
          OpeningEndAgrees(a.state, fail, name, S.Attributes(Unscanned(k.state), fail, []).value);
        }
      }
    }
  }

  lemma MovedClean(s: State, t: State, fail: bool)
    requires Clean(s, fail) && Moved(s, t, fail)
    ensures Clean(t, fail)
  {
  }

  /** The start of a turn of `readNode` as written: what `OxmlSpec.ReadStart` does, and the next character is in the buffer unless the data has ended. */
  lemma StartAgrees(s: State, fail: bool, opening: bool)
    requires Clean(s, fail)
    ensures Agrees(StartOf(s, opening), S.ReadStart(Unscanned(s), fail, opening), fail)
    ensures StartOf(s, opening).out.Done? ==> Ready(StartOf(s, opening).state)
  {
    if !opening {
      SkipMoves(s, fail);
      if SkipOf(s).out.Done? {
        MovedClean(s, SkipOf(s).state, fail);
      }
    } else if s.currentPos == s.dataEnd {
      RefillThrows(s);
      AvailableEmpty(s.source);
      assert Unscanned(s) == Available(s.source);
      if RefillOf(s).0.Done? {
        RefillDone(s);
        RefillAlone(s);
        KeptMoved(s, RefillOf(s).1, RefillOf(s).0.value, fail);
      }
    }
  }

  /** What one turn of `readNode` yields in `OxmlSpec`: the start of the turn, then the end node once nothing is left, or one `ReadStep`. */
  function Turn(x: seq<char>, fail: bool, opening: bool): (q: S.Res<S.Step>)
    ensures q.Ok? && q.value.Skipped? ==> |q.rest| < |x|
  {
    match S.ReadStart(x, fail, opening)
    case Err(e) => S.Err(e)
    case Ok(_, r) => if r == [] then S.Ok(S.Got(S.End), r) else S.ReadStep(r, fail, opening)
  }

  /** `OxmlSpec.ReadNode` is `Turn` repeated until a node is read. */
  lemma ReadNodeTurns(x: seq<char>, fail: bool, opening: bool)
    ensures var q := Turn(x, fail, opening);
      S.ReadNode(x, fail, opening) ==
        if q.Err? then S.Err(q.error)
        else if q.value.Got? then S.Ok((q.value.node, if q.value.node.End? then opening else q.value.node.Open?), q.rest)
        else S.ReadNode(q.rest, fail, q.value.opening)
  {
  }

  /** What `OxmlSpec.ReadStep` does after a '<' (or '\0'), on the text `r1` that follows it. */
  function Tag(r1: seq<char>, fail: bool, opening: bool): S.Res<S.Step>
  {
    match S.Peek(r1, fail)
    case Err(e) => S.Err(e)
    case Ok(c, _) =>
      if c == '/' then
        match S.ParseClosing(r1, fail)
        case Err(e) => S.Err(e)
        case Ok(n, r2) => S.Ok(S.Got(n), r2)
      else if c == '?' then
        match S.IgnoreNodeEnd(r1, fail)
        case Err(e) => S.Err(e)
        case Ok(_, r2) => S.Ok(S.Skipped(opening), r2)
      else if c == '!' then
        match S.IgnoreSpecial(r1, fail)
        case Err(e) => S.Err(e)
        case Ok(marks, r2) => S.Ok(S.Skipped(opening || marks), r2)
      else
        match S.ParseOpening(r1, fail)
        case Err(e) => S.Err(e)
        case Ok(n, r2) => S.Ok(S.Got(n), r2)
  }

  /**
   * A node handed out as written against what `OxmlSpec` reads: the same
   * node, with the same characters consumed or, for an empty tag whose '/'
   * ended the buffer, all but the '>'; or, where the reference fails right
   * after such a '/', the empty opening node with nothing left to read.
   */
  ghost predicate EmitGave(r: State, n: Node, q: S.Res<S.Step>, fail: bool)
  {
    && (q.Ok? ==>
          && q.value.Got? && Shows(r.buffer, n, q.value.node)
          && (Unscanned(r) == q.rest || (q.value.node.Open? && q.value.node.empty && Lagging(Unscanned(r), q.rest))))
    && (q.Err? ==> q.error == S.ReadError && fail && Unscanned(r) == [] && n.OpeningNode? && n.empty)
  }

  /** A turn as written against the reference's: the same error, markup skipped exactly as the reference skips it, or a node as `EmitGave` says. */
  ghost predicate TurnGave(r: Run<Turn>, q: S.Res<S.Step>, fail: bool)
  {
    && (r.out.Thrown? ==> q.Err? && r.out.error == q.error)
    && (r.out.Done? ==> Clean(r.state, fail))
    && (r.out.Done? && r.out.value.Again? ==> q == S.Ok(S.Skipped(r.out.value.opening), Unscanned(r.state)))
    && (r.out.Done? && r.out.value.Emit? ==> EmitGave(r.state, r.out.value.node, q, fail))
  }

  /** After a '<' as written: what `Tag` reads. */
  lemma TagAgrees(a: State, fail: bool, opening: bool)
    requires Clean(a, fail)
    ensures TurnGave(TagOf(a, opening), Tag(Unscanned(a), fail, opening), fail)
  {
    hide ClosingOf, IgnoreEndOf, SpecialOf, OpeningOf, PeekOf, RefillOf;
    hide S.ParseClosing, S.IgnoreNodeEnd, S.IgnoreSpecial, S.ParseOpening, Shows, Lagging;
    PeekMoves(a, fail);
    var q := PeekOf(a);
    if q.out.Done? {
      MovedClean(a, q.state, fail);
      var c := q.out.value;
      if c == '/' {
        ClosingAgrees(q.state, fail);
      } else if c == '?' {
        IgnoreEndAgrees(q.state, fail);
      } else if c == '!' {
        SpecialAgrees(q.state, fail);
      } else {
        OpeningAgrees(q.state, fail);
      }
    }
  }

  lemma TagStep(x: seq<char>, fail: bool, opening: bool)
    requires x != [] && (x[0] == '<' || x[0] == '\0')
    ensures S.ReadStep(x, fail, opening) == Tag(x[1..], fail, opening)
  {
  }

  /** A turn of `readNode` as written, on a character in the buffer: what `OxmlSpec.ReadStep` reads. */
  lemma CharTurnAgrees(p: State, fail: bool, opening: bool)
    requires Clean(p, fail) && p.currentPos < p.dataEnd
    ensures Unscanned(p) != []
    ensures TurnGave(CharTurnOf(p, opening), S.ReadStep(Unscanned(p), fail, opening), fail)
  {
    hide TagOf, TextOf, Tag, S.ParseText, S.ParseClosing, S.ParseOpening, S.IgnoreSpecial, S.IgnoreNodeEnd;
    ReadyAt(p);
    var x := Unscanned(p);
    if CharAt(p) == '<' || CharAt(p) == '\0' {
      AdvanceStep(p, fail);
      MovedClean(p, AdvanceOf(p), fail);
      TagAgrees(AdvanceOf(p), fail, opening);
      TagStep(x, fail, opening);
    } else if opening {
      TextAgrees(p, fail);
    }
  }

  /** One turn of `readNode` as written: what `Turn` reads. */
  lemma TurnAgrees(s: State, fail: bool, opening: bool)
    requires Clean(s, fail)
    ensures TurnGave(TurnOf(s, opening), Turn(Unscanned(s), fail, opening), fail)
  {
    StartAgrees(s, fail, opening);
    var st := StartOf(s, opening);
    if st.out.Done? {
      var p := st.state;
      if p.currentPos == p.dataEnd && !p.hasMoreData {
        assert Unscanned(p) == Available(p.source);
      } else {
        CharTurnAgrees(p, fail, opening);
      }
    }
  }

  /**
   * `readNode` as written against `OxmlSpec.ReadNode`: an error it throws
   * is the reference's; where the reference reads a node, the reader hands
   * out that node and the same flag, having consumed the same characters
   * or, for an empty tag whose '/' ended the buffer, all but the '>'; where
   * the reference fails right after such a '/', the reader hands out the
   * empty opening node with nothing left to read.
   */
  ghost predicate NodeGave(r: Run<(Node, bool)>, q: S.Res<(S.Node, bool)>, fail: bool)
  {
    && (r.out.Thrown? ==> q.Err? && r.out.error == q.error)
    && (r.out.Done? ==> Clean(r.state, fail))
    && (q.Ok? ==>
          && r.out.Done? && Shows(r.state.buffer, r.out.value.0, q.value.0) && r.out.value.1 == q.value.1
          && (Unscanned(r.state) == q.rest || (q.value.0.Open? && q.value.0.empty && Lagging(Unscanned(r.state), q.rest))))
    && (q.Err? && r.out.Done? ==>
          q.error == S.ReadError && fail && Unscanned(r.state) == [] && r.out.value.0.OpeningNode? && r.out.value.0.empty)
  }

  /** `readNode` as written, on text without references, reads what `OxmlSpec.ReadNode` reads, up to the '>' of one corner. */
  lemma {:induction false} ReadNodeAgrees(s: State, fail: bool, opening: bool)
    requires Clean(s, fail)
    ensures NodeGave(ReadNodeOf(s, opening), S.ReadNode(Unscanned(s), fail, opening), fail)
    decreases |Unscanned(s)|
  {
    TurnAgrees(s, fail, opening);
    ReadNodeTurns(Unscanned(s), fail, opening);
    var t := TurnOf(s, opening);
    if t.out.Done? && t.out.value.Again? {
      ReadNodeAgrees(t.state, fail, t.out.value.opening);
    }
  }

  /**
   * `readNode` as written on an opening tag written out: the opening node
   * with its name and attributes, and text may follow; the rest is left, or,
   * for an empty tag whose '/' ended the buffer, the rest behind the '>'.
   */
  lemma ReaderReadsOpening(s: State, fail: bool, opening: bool, name: seq<char>, empty: bool, attrs: seq<(seq<char>, seq<char>)>, rest: seq<char>)
    requires Clean(s, fail) && Tags.IsName(name) && Tags.PlainAttributes(attrs) && Unscanned(s) == Tags.OpeningTag(name, empty, attrs) + rest
    ensures var r := ReadNodeOf(s, opening);
      && r.out.Done? && Shows(r.state.buffer, r.out.value.0, S.Open(name, empty, attrs)) && r.out.value.1
      && Clean(r.state, fail) && (Unscanned(r.state) == rest || (empty && Lagging(Unscanned(r.state), rest)))
  {
    Tags.ReadsOpening(name, empty, attrs, rest, fail, opening);
    ReadNodeAgrees(s, fail, opening);
  }

  /** `readNode` as written on a closing tag written out: the closing node with its name, no text may follow, and the rest is left. */
  lemma ReaderReadsClosing(s: State, fail: bool, opening: bool, name: seq<char>, rest: seq<char>)
    requires Clean(s, fail) && (forall i :: 0 <= i < |name| ==> IsNameChar(name[i])) && Unscanned(s) == Tags.ClosingTag(name) + rest
    ensures var r := ReadNodeOf(s, opening);
      && r.out.Done? && Shows(r.state.buffer, r.out.value.0, S.Close(name)) && !r.out.value.1
      && Clean(r.state, fail) && Unscanned(r.state) == rest
  {
    Tags.ReadsClosing(name, rest, fail, opening);
    ReadNodeAgrees(s, fail, opening);
  }

  /** `readNode` as written after an opening node, on text up to a '<': the text node, no more text may follow, and the '<' is left. */
  lemma ReaderReadsText(s: State, fail: bool, text: seq<char>, rest: seq<char>)
    requires Clean(s, fail) && text != [] && text[0] != '\0' && !AllSpace(text)
    requires (forall i :: 0 <= i < |text| ==> text[i] != '<') && Unscanned(s) == text + ['<'] + rest
    ensures var r := ReadNodeOf(s, true);
      && r.out.Done? && Shows(r.state.buffer, r.out.value.0, S.Text(text)) && !r.out.value.1
      && Clean(r.state, fail) && Unscanned(r.state) == ['<'] + rest
  {
    assert forall i :: 0 <= i < |text| ==> text[i] == Unscanned(s)[i];
    Tags.ReadsText(text, rest, fail);
    ReadNodeAgrees(s, fail, true);
  }
}
