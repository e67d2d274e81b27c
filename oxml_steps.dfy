/**
 * The reading steps of `oxml::Reader` as functions on its state: `peek`,
 * `skipWhitespace` and the scan `parseWhileFrom`, each with the loop and the
 * refills of the original. Module `Oxml` runs them in place; the lemmas here
 * prove that they read exactly what the functions of module `OxmlSpec` read
 * from the characters not consumed yet.
 */
module OxmlSteps {

  import opened Chars
  import opened OxmlNodes
  import opened OxmlState
  import S = OxmlSpec

  /** The character at the current position, '\0' once the buffer is consumed. */
  function CharAt(s: State): char
  {
    if 0 <= s.currentPos < s.dataEnd <= |s.buffer| then s.buffer[s.currentPos] else '\0'
  }

  /** `peek`: refills when the buffer is consumed and more data may come, then reads the current character. */
  function PeekOf(s: State): Step<char>
    requires Fine(s)
  {
    if s.currentPos == s.dataEnd && s.hasMoreData then
      var r := RefillOf(s);
      if r.0.Thrown? then Step(Thrown(r.0.error), 0, r.1) else Step(Done(CharAt(r.1)), r.0.value, r.1)
    else Step(Done(CharAt(s)), 0, s)
  }

  /** `peek` reads what `OxmlSpec.Peek` reads, throws when it does, and consumes nothing. */
  lemma PeekSpec(s: State, fail: bool)
    requires Sound(s, fail)
    ensures PeekOf(s).out.Thrown? <==> S.Peek(Unscanned(s), fail).Err?
    ensures PeekOf(s).out.Thrown? ==> PeekOf(s).out.error == S.ReadError
    ensures PeekOf(s).out.Done? ==> PeekOf(s).out.value == S.Peek(Unscanned(s), fail).value
    ensures PeekOf(s).out.Done? ==> Refreshed(s, PeekOf(s).state, PeekOf(s).shift) && Ready(PeekOf(s).state)
  {
    if s.currentPos == s.dataEnd && s.hasMoreData {
      RefillThrows(s);
      if RefillOf(s).0.Thrown? {
        assert Unscanned(s) == [];
      } else {
        RefillDone(s);
        PeekValue(RefillOf(s).1, fail);
      }
    } else {
      RefreshedRefl(s);
      PeekValue(s, fail);
    }
  }

  /** Once `peek` has found a character in the buffer, moving past it consumes it: the state stays sound and the reader makes progress. */
  lemma PeekAdvance(s: State)
    requires Inv(s) && OffsetsFine(s) && PeekOf(s).out.Done? && PeekOf(s).out.value != '\0'
    ensures Inv(AdvanceOf(PeekOf(s).state)) && OffsetsFine(AdvanceOf(PeekOf(s).state))
    ensures Fails(AdvanceOf(PeekOf(s).state).source) == Fails(s.source)
    ensures |Unscanned(AdvanceOf(PeekOf(s).state))| + Measure(AdvanceOf(PeekOf(s).state)) < |Unscanned(s)| + Measure(s)
  {
    PeekSpec(s, Fails(s.source));
    AdvanceHead(PeekOf(s).state);
  }

  /**
   * `peek`, whatever the views the reader holds: nothing is consumed, the
   * positions stay ordered, the node in flight moves by the distance the data
   * moved, and the character returned is the current one, or '\0' once the
   * data has ended.
   */
  lemma PeekFine(s: State)
    requires Fine(s) && PeekOf(s).out.Done?
    ensures var p := PeekOf(s);
      && Fine(p.state) && Unscanned(p.state) == Unscanned(s) && Measure(p.state) <= Measure(s) && Ready(p.state)
      && p.out.value == CharAt(p.state) && p.state.readingOffset == s.readingOffset
      && (p.state.currentNode.Some? <==> s.currentNode.Some?)
      && (s.currentNode.Some? ==> p.state.currentNode == Some(ShiftNode(s.currentNode.value, p.shift)))
  {
    if s.currentPos == s.dataEnd && s.hasMoreData {
      RefillFine(s);
    } else if s.currentNode.Some? {
      ShiftZero(s.currentNode.value);
    }
  }

  /** Once `peek` has found a character other than '\0', moving past it consumes it. */
  lemma PeekAdvanceFine(s: State)
    requires Fine(s) && PeekOf(s).out.Done? && PeekOf(s).out.value != '\0'
    ensures Fine(AdvanceOf(PeekOf(s).state))
    ensures |Unscanned(AdvanceOf(PeekOf(s).state))| + Measure(AdvanceOf(PeekOf(s).state)) < |Unscanned(s)| + Measure(s)
  {
    PeekFine(s);
    AdvanceHead(PeekOf(s).state);
  }

  /** `skipWhitespace`, whatever the views the reader holds: it consumes, keeps the positions ordered, and leaves the character after the spaces at hand. */
  lemma {:induction false} SkipFine(s: State)
    requires Fine(s) && SkipOf(s).out.Done?
    ensures var k := SkipOf(s);
      && Fine(k.state) && |Unscanned(k.state)| + Measure(k.state) <= |Unscanned(s)| + Measure(s) && Ready(k.state)
      && k.state.readingOffset == s.readingOffset
      && (k.state.currentNode.Some? <==> s.currentNode.Some?)
      && (s.currentNode.Some? ==> k.state.currentNode == Some(ShiftNode(s.currentNode.value, k.shift)))
    decreases |Unscanned(s)| + Measure(s)
  {
    var p := PeekOf(s);
    PeekFine(s);
    if IsSpace(p.out.value) {
      PeekAdvanceFine(s);
      var a := AdvanceOf(p.state);
      assert SkipOf(s) == Later(p.shift, SkipOf(a));
      SkipFine(a);
      SkipFineLater(s, p, a, SkipOf(a));
    }
  }

  /** `SkipFine` carried over the character `peek` found and `advance` dropped. */
  lemma SkipFineLater(s: State, p: Step<char>, a: State, k: Step<()>)
    requires Fine(s) && p.out.Done?
    requires Fine(p.state) && Unscanned(p.state) == Unscanned(s) && Measure(p.state) <= Measure(s)
    requires p.state.readingOffset == s.readingOffset && (p.state.currentNode.Some? <==> s.currentNode.Some?)
    requires s.currentNode.Some? ==> p.state.currentNode == Some(ShiftNode(s.currentNode.value, p.shift))
    requires a == AdvanceOf(p.state) && |Unscanned(a)| + Measure(a) < |Unscanned(s)| + Measure(s)
    requires k.out.Done? && Fine(k.state) && |Unscanned(k.state)| + Measure(k.state) <= |Unscanned(a)| + Measure(a) && Ready(k.state)
    requires k.state.readingOffset == a.readingOffset && (k.state.currentNode.Some? <==> a.currentNode.Some?)
    requires a.currentNode.Some? ==> k.state.currentNode == Some(ShiftNode(a.currentNode.value, k.shift))
    ensures var l := Later(p.shift, k);
      && Fine(l.state) && |Unscanned(l.state)| + Measure(l.state) <= |Unscanned(s)| + Measure(s) && Ready(l.state)
      && l.state.readingOffset == s.readingOffset
      && (l.state.currentNode.Some? <==> s.currentNode.Some?)
      && (s.currentNode.Some? ==> l.state.currentNode == Some(ShiftNode(s.currentNode.value, l.shift)))
  {
    if s.currentNode.Some? {
      ShiftTwice(s.currentNode.value, p.shift, k.shift);
    }
  }

  /** `skipWhitespace`: peeks and advances while the character is a space. */
  function SkipOf(s: State): Step<()>
    requires Fine(s)
    decreases |Unscanned(s)| + Measure(s)
  {
    var p := PeekOf(s);
    if p.out.Thrown? then Step(Thrown(p.out.error), p.shift, p.state)
    else if !IsSpace(p.out.value) then Step(Done(()), p.shift, p.state)
    else
      PeekAdvanceFine(s);
      Later(p.shift, SkipOf(AdvanceOf(p.state)))
  }

  /** `skipWhitespace` consumes what `OxmlSpec.SkipSpace` consumes and throws when it does. */
  lemma {:induction false} SkipSpec(s: State, fail: bool)
    requires Sound(s, fail)
    ensures SkipOf(s).out.Thrown? <==> S.SkipSpace(Unscanned(s), fail).Err?
    ensures SkipOf(s).out.Thrown? ==> SkipOf(s).out.error == S.ReadError
    ensures SkipOf(s).out.Done? ==> Kept(s, SkipOf(s).state, SkipOf(s).shift) && Ready(SkipOf(s).state)
    ensures SkipOf(s).out.Done? ==> Unscanned(SkipOf(s).state) == S.SkipSpace(Unscanned(s), fail).rest
    decreases |Unscanned(s)| + Measure(s)
  {
    var p := PeekOf(s);
    PeekSpec(s, fail);
    S.SkipAtPeek(Unscanned(s), fail);
    if p.out.Done? && IsSpace(p.out.value) {
      PeekAdvance(s);
      var a := AdvanceOf(p.state);
      assert SkipOf(s) == Later(p.shift, SkipOf(a));
      AdvanceAfter(s, p.state, p.shift);
      AdvanceConsumes(p.state);
      SkipSpec(a, fail);
      KeptLater(s, a, p.shift, SkipOf(a), SkipOf(s));
    } else {
      assert SkipOf(s).state == p.state && SkipOf(s).shift == p.shift;
    }
  }

  /** Moving past a character in the buffer keeps the state sound and makes progress. */
  lemma AdvanceMoves(s: State)
    requires Inv(s) && OffsetsFine(s) && s.currentPos < s.dataEnd
    ensures Inv(AdvanceOf(s)) && OffsetsFine(AdvanceOf(s)) && AdvanceOf(s).currentPos == s.currentPos + 1
    ensures |Unscanned(AdvanceOf(s))| + Measure(AdvanceOf(s)) < |Unscanned(s)| + Measure(s)
  {
    AdvanceHead(s);
  }

  /** A refill at the end of the buffer, with more data to come, keeps the state sound and makes progress. */
  lemma RefillMoves(s: State)
    requires Inv(s) && OffsetsFine(s) && s.hasMoreData && RefillOf(s).0.Done?
    ensures Inv(RefillOf(s).1) && OffsetsFine(RefillOf(s).1) && RefillOf(s).1.currentPos == s.currentPos + RefillOf(s).0.value
    ensures |Unscanned(RefillOf(s).1)| + Measure(RefillOf(s).1) < |Unscanned(s)| + Measure(s)
  {
    RefillDone(s);
  }

  /**
   * `parseWhileFrom` with `ignoreCR` set: advances while the current
   * character continues `u`, refilling whenever the buffer runs out, and
   * throws once the data has ended. `start`, where the view begins, moves
   * with the data.
   */
  function RawOf(s: State, u: S.Until, start: int): Step<View>
    requires Inv(s) && OffsetsFine(s) && start <= s.currentPos
    decreases |Unscanned(s)| + Measure(s), 1
  {
    if s.currentPos != s.dataEnd && S.Continues(u, s.buffer[s.currentPos]) then
      AdvanceMoves(s);
      RawOf(AdvanceOf(s), u, start)
    else if s.currentPos != s.dataEnd then Step(Done(View(start, s.currentPos - start)), 0, s)
    else if !s.hasMoreData then Step(Thrown(S.UnexpectedEnd), 0, s)
    else RawRefillOf(s, u, start)
  }

  /** The scan at the end of the buffer: refill, then go on with the view's start moved along with the data. */
  function RawRefillOf(s: State, u: S.Until, start: int): Step<View>
    requires Inv(s) && OffsetsFine(s) && start <= s.currentPos && s.hasMoreData
    decreases |Unscanned(s)| + Measure(s), 0
  {
    var r := RefillOf(s);
    if r.0.Thrown? then Step(Thrown(r.0.error), 0, r.1)
    else
      RefillMoves(s);
      Later(r.0.value, RawOf(r.1, u, start + r.0.value))
  }

  /**
   * What a scan from `s` with the view starting at `start` must give: it
   * consumes what `OxmlSpec.ScanRaw` consumes and throws when it does; it
   * keeps the data, stops on a character in the buffer, and its view runs
   * from where `start` has moved to up to the current position.
   */
  ghost predicate RawResult(s: State, u: S.Until, start: int, fail: bool, r: Step<View>)
  {
    && (r.out.Thrown? <==> S.ScanRaw(Unscanned(s), fail, u).Err?)
    && (r.out.Thrown? ==> r.out.error == S.ScanRaw(Unscanned(s), fail, u).error)
    && (r.out.Done? ==>
          && Kept(s, r.state, r.shift)
          && Unscanned(r.state) == S.ScanRaw(Unscanned(s), fail, u).rest
          && r.state.currentPos < r.state.dataEnd
          && r.out.value.start == start + r.shift
          && r.out.value.start + r.out.value.size == r.state.currentPos
          && RawShows(s, start, r, S.ScanRaw(Unscanned(s), fail, u).value))
  }

  /**
   * With a node in flight, a view that starts in the data kept since the
   * node began shows the characters from `start` to the current position
   * followed by those the scan consumed.
   */
  ghost predicate RawShows(s: State, start: int, r: Step<View>, scanned: seq<char>)
  {
    r.out.Done? && s.currentNode.Some? && 0 <= s.dataStart <= start <= s.currentPos <= |s.buffer| ==>
      && 0 <= r.out.value.start <= r.state.currentPos <= |r.state.buffer|
      && r.state.buffer[r.out.value.start..r.state.currentPos] == s.buffer[start..s.currentPos] + scanned
  }

  /** The scan result after a character that continues the scan is the result from the next character on. */
  lemma RawAdvanced(s: State, a: State, u: S.Until, start: int, fail: bool, t: Step<View>)
    requires Kept(s, a, 0) && Unscanned(s) != [] && S.Continues(u, Unscanned(s)[0]) && Unscanned(a) == Unscanned(s)[1..]
    requires a == AdvanceOf(s) && s.currentPos < s.dataEnd <= |s.buffer| && Unscanned(s)[0] == s.buffer[s.currentPos]
    requires RawResult(a, u, start, fail, t)
    ensures RawResult(s, u, start, fail, t)
  {
    KeptLater(s, a, 0, t, t);
    if t.out.Done? {
      ShowsAdvanced(s, a, start, t, S.ScanRaw(Unscanned(a), fail, u).value);
    }
  }

  lemma ShowsAdvanced(s: State, a: State, start: int, t: Step<View>, scanned: seq<char>)
    requires a == AdvanceOf(s) && 0 <= s.currentPos < s.dataEnd <= |s.buffer| && RawShows(a, start, t, scanned)
    ensures RawShows(s, start, t, [s.buffer[s.currentPos]] + scanned)
  {
    if t.out.Done? && s.currentNode.Some? && 0 <= s.dataStart <= start <= s.currentPos {
      assert a.buffer[start..a.currentPos] == s.buffer[start..s.currentPos] + [s.buffer[s.currentPos]];
    }
  }

  lemma ShowsRefilled(s: State, s1: State, d: int, start: int, t: Step<View>, scanned: seq<char>)
    requires s.currentNode.Some? ==> Carries(s, s1, d) && s1.currentNode.Some?
    requires s1.currentPos == s.currentPos + d && RawShows(s1, start + d, t, scanned)
    ensures RawShows(s, start, Later(d, t), scanned)
  {
    if t.out.Done? && s.currentNode.Some? && 0 <= s.dataStart <= start <= s.currentPos <= |s.buffer| {
      CarriedFrom(s, s1, d, start);
    }
  }

  /** Once the read succeeds, the scan goes on from the refilled state with its start moved along. */
  lemma RawRefillUnfold(s: State, s1: State, d: int, u: S.Until, start: int, r: Step<View>)
    requires Inv(s) && OffsetsFine(s) && start <= s.currentPos && s.hasMoreData && RefillOf(s).0.Done?
    requires s1 == RefillOf(s).1 && d == RefillOf(s).0.value
    requires Inv(s1) && OffsetsFine(s1) && start + d <= s1.currentPos
    requires r == RawOf(s, u, start) && s.currentPos == s.dataEnd
    ensures r == Later(d, RawOf(s1, u, start + d))
  {
  }

  /** When the read fails, the scan throws what the refill threw. */
  lemma RawRefillThrown(s: State, u: S.Until, start: int, r: Step<View>)
    requires Inv(s) && OffsetsFine(s) && start <= s.currentPos == s.dataEnd && s.hasMoreData && RefillOf(s).0.Thrown?
    requires r == RawOf(s, u, start)
    ensures r.out == Thrown(RefillOf(s).0.error)
  {
  }

  /** Where a scan that returned leaves the reader: positions, offsets and the node in flight moved with the data. */
  lemma RawPlaced(s: State, u: S.Until, start: int)
    requires Inv(s) && OffsetsFine(s) && start <= s.currentPos
    ensures var r := RawOf(s, u, start);
      r.out.Done? ==>
        && Inv(r.state) && OffsetsFine(r.state) && r.shift <= 0 && Fails(r.state.source) == Fails(s.source)
        && r.out.value.start == start + r.shift && r.out.value.start + r.out.value.size == r.state.currentPos < r.state.dataEnd
        && r.state.readingOffset == s.readingOffset
        && S.ScanRaw(Unscanned(s), Fails(s.source), u).Ok?
        && Unscanned(r.state) == S.ScanRaw(Unscanned(s), Fails(s.source), u).rest && Measure(r.state) <= Measure(s)
        && (s.currentNode.Some? ==>
              && r.state.currentNode == Some(ShiftNode(s.currentNode.value, r.shift))
              && r.state.dataStart == s.dataStart + r.shift
              && (s.readingOffset > 0 ==> r.state.firstOffset == s.firstOffset + r.shift))
  {
    RawSpec(s, u, start, Fails(s.source));
  }

  /** What a successful refill keeps, in terms of the refilled state and shift. */
  lemma RefillKeeps(s: State, s1: State, d: int)
    requires Inv(s) && OffsetsFine(s) && RefillOf(s).0.Done? && s1 == RefillOf(s).1 && d == RefillOf(s).0.value
    ensures Kept(s, s1, d) && Unscanned(s1) == Unscanned(s) && s1.currentPos == s.currentPos + d
  {
    RefillDone(s);
  }

  /** The scan result after a refill that moved the data by `d` is the result from there on, the shifts adding up. */
  lemma {:induction false} RawRefilled(s: State, s1: State, d: int, u: S.Until, start: int, fail: bool, r: Step<View>)
    requires Sound(s, fail) && start <= s.currentPos
    requires Kept(s, s1, d) && Unscanned(s1) == Unscanned(s) && Inv(s1) && s1.currentPos == s.currentPos + d
    requires start + d <= s1.currentPos && |Unscanned(s1)| + Measure(s1) < |Unscanned(s)| + Measure(s)
    requires r == Later(d, RawOf(s1, u, start + d))
    ensures RawResult(s, u, start, fail, r)
    decreases |Unscanned(s)| + Measure(s), 0
  {
    RawSpec(s1, u, start + d, fail);
    KeptLater(s, s1, d, RawOf(s1, u, start + d), r);
    if r.out.Done? {
      ShowsRefilled(s, s1, d, start, RawOf(s1, u, start + d), S.ScanRaw(Unscanned(s1), fail, u).value);
    }
  }

  /** A scan at the end of the buffer whose refill returns goes on from the refilled state. */
  lemma {:induction false} RawRefillCase(s: State, u: S.Until, start: int, fail: bool, r: Step<View>)
    requires Sound(s, fail) && start <= s.currentPos == s.dataEnd && s.hasMoreData && RefillOf(s).0.Done?
    requires r == RawOf(s, u, start)
    ensures RawResult(s, u, start, fail, r)
    decreases |Unscanned(s)| + Measure(s), 1
  {
    var s1, d := RefillOf(s).1, RefillOf(s).0.value;
    RefillMoves(s);
    RawRefillUnfold(s, s1, d, u, start, r);
    RefillKeeps(s, s1, d);
    RawRefilled(s, s1, d, u, start, fail, r);
  }

  /** A scan that stops at once gives an empty view at the current position. */
  lemma RawStopped(s: State, u: S.Until, start: int, fail: bool)
    requires Sound(s, fail) && start <= s.currentPos < s.dataEnd && !S.Continues(u, s.buffer[s.currentPos])
    ensures RawResult(s, u, start, fail, Step(Done(View(start, s.currentPos - start)), 0, s))
  {
    AdvanceHead(s);
    RefreshedRefl(s);
    if s.currentNode.Some? && 0 <= s.dataStart <= start {
      assert s.buffer[start..s.currentPos] + [] == s.buffer[start..s.currentPos];
    }
  }

  /** A scan that runs out of data throws what `OxmlSpec.ScanRaw` throws. */
  lemma RawOut(s: State, u: S.Until, start: int, fail: bool, r: Step<View>)
    requires Unscanned(s) == [] && r.out.Thrown? && r.out.error == S.OutOfData(fail)
    ensures RawResult(s, u, start, fail, r)
  {
  }

  /** The scan consumes what `OxmlSpec.ScanRaw` consumes, throws when it does, and gives the view of what it consumed. */
  lemma {:induction false} RawSpec(s: State, u: S.Until, start: int, fail: bool)
    requires Sound(s, fail) && start <= s.currentPos
    ensures RawResult(s, u, start, fail, RawOf(s, u, start))
    decreases |Unscanned(s)| + Measure(s), 2
  {
    if s.currentPos != s.dataEnd && S.Continues(u, s.buffer[s.currentPos]) {
      AdvanceMoves(s);
      AdvanceHead(s);
      var a := AdvanceOf(s);
      assert RawOf(s, u, start) == RawOf(a, u, start);
      AdvanceKept(s);
      RawSpec(a, u, start, fail);
      RawAdvanced(s, a, u, start, fail, RawOf(s, u, start));
    } else if s.currentPos != s.dataEnd {
      assert RawOf(s, u, start) == Step(Done(View(start, s.currentPos - start)), 0, s);
      RawStopped(s, u, start, fail);
    } else if !s.hasMoreData {
      assert Unscanned(s) == [];
      RawOut(s, u, start, fail, RawOf(s, u, start));
    } else {
      RefillThrows(s);
      if RefillOf(s).0.Thrown? {
        RawRefillThrown(s, u, start, RawOf(s, u, start));
        assert Unscanned(s) == [];
        RawOut(s, u, start, fail, RawOf(s, u, start));
      } else {
        RawRefillCase(s, u, start, fail, RawOf(s, u, start));
      }
    }
  }
}
