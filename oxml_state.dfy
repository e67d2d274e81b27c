/**
 * The state of the streaming XML reader (`oxml::Reader`) as a value, and
 * what each step of the reader does to it.
 *
 * The class `Reader` of module `Oxml` updates its fields in place. Its
 * methods state their effect on a snapshot of those fields (`Reader.St`),
 * and the reasoning about positions, views and buffer contents happens here,
 * on values.
 */
module OxmlState {

  import opened Chars
  import opened OxmlNodes
  import S = OxmlSpec

  /** What one call of the read callback delivers. */
  datatype Chunk = Data(bytes: seq<char>) | Failure

  /** A value, or the `std::runtime_error` thrown instead. */
  datatype Outcome<T> = Done(value: T) | Thrown(error: S.Error)

  /** A well-behaved source never delivers an empty chunk: a read of 0 bytes means the end of the data. */
  predicate WellFormed(src: seq<Chunk>)
  {
    forall i :: 0 <= i < |src| ==> src[i].Data? ==> |src[i].bytes| > 0
  }

  /** The characters the source will deliver before it ends or fails. */
  function Available(src: seq<Chunk>): seq<char>
  {
    if src == [] || src[0].Failure? then [] else src[0].bytes + Available(src[1..])
  }

  /** Whether the source fails once its available characters are read. */
  predicate Fails(src: seq<Chunk>)
  {
    src != [] && (src[0].Failure? || Fails(src[1..]))
  }

  /** The source after a read of `n` characters from its first chunk. */
  function AfterRead(src: seq<Chunk>, n: nat): seq<Chunk>
    requires src != [] && src[0].Data? && 0 < n <= |src[0].bytes|
  {
    (if n < |src[0].bytes| then [Data(src[0].bytes[n..])] else []) + src[1..]
  }

  /** A read hands out the first characters the source had available, and nothing else about the source changes. */
  lemma AfterReadFacts(src: seq<Chunk>, n: nat)
    requires src != [] && src[0].Data? && 0 < n <= |src[0].bytes| && WellFormed(src)
    ensures WellFormed(AfterRead(src, n))
    ensures Fails(AfterRead(src, n)) == Fails(src)
    ensures Available(src) == src[0].bytes[..n] + Available(AfterRead(src, n))
  {
    if n < |src[0].bytes| {
      AfterPartRead(src, n);
    } else {
      AfterWholeRead(src, n);
    }
  }

  /** `AfterReadFacts` for a read that leaves part of the first chunk. */
  lemma AfterPartRead(src: seq<Chunk>, n: nat)
    requires src != [] && src[0].Data? && 0 < n < |src[0].bytes| && WellFormed(src)
    ensures WellFormed(AfterRead(src, n))
    ensures Fails(AfterRead(src, n)) == Fails(src)
    ensures Available(src) == src[0].bytes[..n] + Available(AfterRead(src, n))
  {
    var b := src[0].bytes;
    var r := AfterRead(src, n);
    assert r == [Data(b[n..])] + src[1..];
    assert r[1..] == src[1..];
    assert Available(r) == b[n..] + Available(src[1..]);
    assert Available(src) == b + Available(src[1..]);
    assert b == b[..n] + b[n..];
  }

  /** `AfterReadFacts` for a read of the whole first chunk. */
  lemma AfterWholeRead(src: seq<Chunk>, n: nat)
    requires src != [] && src[0].Data? && n == |src[0].bytes| && 0 < n && WellFormed(src)
    ensures WellFormed(AfterRead(src, n))
    ensures Fails(AfterRead(src, n)) == Fails(src)
    ensures Available(src) == src[0].bytes[..n] + Available(AfterRead(src, n))
  {
    assert AfterRead(src, n) == src[1..];
    assert src[0].bytes[..n] == src[0].bytes;
  }

  /** A source has nothing available exactly when it is exhausted or fails next. */
  lemma AvailableEmpty(src: seq<Chunk>)
    requires WellFormed(src)
    ensures Available(src) == [] <==> src == [] || src[0].Failure?
  {
  }

  /** The fields of a reader, except the flag `lastNodeWasOpening`. */
  datatype State = State(
    source: seq<Chunk>,
    buffer: seq<char>,
    dataStart: int,
    currentPos: int,
    dataEnd: int,
    hasMoreData: bool,
    currentNode: Option<Node>,
    tempAttrName: View,
    readingOffset: int,
    firstOffset: int)

  /**
   * What the reader's positions and source satisfy after every step,
   * whatever the views it holds: the positions are ordered within a
   * non-empty buffer, the source is well formed and ended once `hasMoreData`
   * is false, and the offset of replaced text is not negative.
   */
  ghost predicate Fine(s: State)
  {
    && |s.buffer| > 0
    && 0 <= s.dataStart <= s.currentPos <= s.dataEnd <= |s.buffer|
    && WellFormed(s.source)
    && (!s.hasMoreData ==> s.source == [])
    && s.readingOffset >= 0
  }

  /**
   * The positions are ordered within a non-empty buffer; the source is
   * well formed and ended once `hasMoreData` is false; the views of the node
   * in flight lie in the data kept since the node began.
   */
  ghost predicate Inv(s: State)
  {
    && |s.buffer| > 0
    && 0 <= s.dataStart <= s.currentPos <= s.dataEnd <= |s.buffer|
    && WellFormed(s.source)
    && (!s.hasMoreData ==> s.source == [])
    && s.readingOffset >= 0
    && (s.currentNode.Some? ==>
          NodeKept(s.currentNode.value, s.dataStart, s.dataEnd, |s.buffer|) && ViewKept(s.tempAttrName, s.dataStart, s.dataEnd, |s.buffer|))
  }

  /** While text is read at an offset, the characters still to be moved back lie after the ones written so far. */
  ghost predicate OffsetsFine(s: State)
  {
    s.readingOffset == 0 || (s.currentNode.Some? && s.dataStart <= s.firstOffset - s.readingOffset && s.firstOffset <= s.currentPos)
  }

  /** What holds between the operations of the reader, `fail` saying how the source ends. */
  ghost predicate Sound(s: State, fail: bool)
  {
    Inv(s) && OffsetsFine(s) && Fails(s.source) == fail
  }

  /** The current character is in the buffer, or the data has ended. */
  ghost predicate Ready(s: State)
  {
    s.currentPos < s.dataEnd || !s.hasMoreData
  }

  /** The characters not consumed yet: the rest of the buffer, then what the source will deliver. */
  ghost function Unscanned(s: State): seq<char>
  {
    if 0 <= s.currentPos <= s.dataEnd <= |s.buffer| then s.buffer[s.currentPos..s.dataEnd] + Available(s.source)
    else Available(s.source)
  }

  /** What the node in flight and the attribute name being read say (under `Inv`). */
  ghost function NodeText(s: State): Option<(S.Node, seq<char>)>
  {
    if s.currentNode.Some? && NodeIn(s.currentNode.value, 0, |s.buffer|) && ViewIn(s.tempAttrName, 0, |s.buffer|) then
      Some((Render(s.buffer, s.currentNode.value), ViewText(s.buffer, s.tempAttrName)))
    else None
  }

  /** Reads still to come: it drops with every successful refill. */
  ghost function Measure(s: State): nat
  {
    |Available(s.source)| + (if s.hasMoreData then 1 else 0)
  }

  /**
   * From `s0` to `s1` the data kept since the node in flight began moved
   * `d <= 0` places towards the front, the node's views moved with it, and
   * the node says what it said; the current position moved with the data
   * and may have advanced.
   */
  ghost predicate Follows(s0: State, s1: State, d: int)
  {
    && Inv(s0) && Inv(s1)
    && Fails(s1.source) == Fails(s0.source) && Measure(s1) <= Measure(s0)
    && |s1.buffer| >= |s0.buffer| && d <= 0 && s0.currentPos + d <= s1.currentPos
    && (s0.currentNode.None? ==> s1.currentNode.None?)
    && (s0.currentNode.Some? ==>
          && s1.dataStart == s0.dataStart + d
          && s1.currentNode == Some(ShiftNode(s0.currentNode.value, d))
          && s1.tempAttrName == ShiftView(s0.tempAttrName, d))
    && NodeText(s1) == NodeText(s0)
  }

  /**
   * `Follows`, and the characters from `dataStart` to the current position
   * reappear unchanged; text read at an offset stays at that offset.
   */
  ghost predicate Kept(s0: State, s1: State, d: int)
  {
    && Follows(s0, s1, d) && OffsetsFine(s1)
    && s1.readingOffset == s0.readingOffset
    && (s0.currentNode.Some? ==> Carries(s0, s1, d))
  }

  /** The characters of `s0` from `dataStart` to the current position reappear `d` places further in `s1`, and so does `firstOffset`. */
  ghost predicate Carries(s0: State, s1: State, d: int)
  {
    && 0 <= s0.dataStart <= s0.currentPos <= |s0.buffer|
    && 0 <= s1.dataStart == s0.dataStart + d && s0.currentPos + d <= |s1.buffer|
    && s1.buffer[s1.dataStart..s0.currentPos + d] == s0.buffer[s0.dataStart..s0.currentPos]
    && (s0.readingOffset > 0 ==> s1.firstOffset == s0.firstOffset + d)
  }

  /** `Kept`, and nothing was consumed: the current position moved with the data. */
  ghost predicate Refreshed(s0: State, s1: State, d: int)
  {
    && Kept(s0, s1, d)
    && Unscanned(s1) == Unscanned(s0)
    && s1.currentPos == s0.currentPos + d
  }

  /** `Refreshed` by a read that returned: either more data is in the buffer, or the data has ended. */
  ghost predicate Refilled(s0: State, s1: State, d: int)
  {
    && Refreshed(s0, s1, d)
    && (s0.source == [] ==> !s1.hasMoreData)
    && (s0.source != [] ==> s1.currentPos < s1.dataEnd)
    && (s0.hasMoreData ==> Measure(s1) < Measure(s0))
  }

  /** The characters carried from `dataStart` on include those from any later `start` on. */
  lemma CarriedFrom(s0: State, s1: State, d: int, start: int)
    requires Carries(s0, s1, d) && s0.dataStart <= start <= s0.currentPos
    ensures s1.buffer[start + d..s0.currentPos + d] == s0.buffer[start..s0.currentPos]
  {
    assert s1.buffer[start + d..s0.currentPos + d] == s1.buffer[s1.dataStart..s0.currentPos + d][start - s0.dataStart..];
    assert s0.buffer[start..s0.currentPos] == s0.buffer[s0.dataStart..s0.currentPos][start - s0.dataStart..];
  }

  lemma RefreshedRefl(s: State)
    requires Inv(s) && OffsetsFine(s)
    ensures Refreshed(s, s, 0)
  {
    if s.currentNode.Some? {
      ShiftZero(s.currentNode.value);
    }
  }

  lemma FollowsTrans(s0: State, s1: State, s2: State, d1: int, d2: int)
    requires Follows(s0, s1, d1) && Follows(s1, s2, d2)
    ensures Follows(s0, s2, d1 + d2)
  {
    if s0.currentNode.Some? {
      ShiftTwice(s0.currentNode.value, d1, d2);
    }
  }

  lemma CarriesTrans(s0: State, s1: State, s2: State, d1: int, d2: int)
    requires Carries(s0, s1, d1) && Carries(s1, s2, d2) && s1.readingOffset == s0.readingOffset
    requires s0.currentPos + d1 <= s1.currentPos
    ensures Carries(s0, s2, d1 + d2)
  {
    SliceShift(s1.buffer, s2.buffer, s1.dataStart, d2, s1.currentPos, s0.currentPos + d1);
  }

  /** A slice that reappears `d` places further reappears with every part of it. */
  lemma SliceShift(b1: seq<char>, b2: seq<char>, i: int, d: int, k: int, j: int)
    requires 0 <= i <= j <= k <= |b1| && 0 <= i + d && k + d <= |b2| && b2[i + d..k + d] == b1[i..k]
    ensures b2[i + d..j + d] == b1[i..j] && (j < k ==> b2[j + d] == b1[j])
  {
    assert b2[i + d..j + d] == b2[i + d..k + d][..j - i];
    assert b1[i..j] == b1[i..k][..j - i];
    if j < k {
      assert b2[j + d] == b2[i + d..k + d][j - i];
    }
  }

  lemma KeptTrans(s0: State, s1: State, s2: State, d1: int, d2: int)
    requires Kept(s0, s1, d1) && Kept(s1, s2, d2)
    ensures Kept(s0, s2, d1 + d2)
  {
    FollowsTrans(s0, s1, s2, d1, d2);
    if s0.currentNode.Some? {
      CarriesTrans(s0, s1, s2, d1, d2);
    }
  }

  lemma RefreshedTrans(s0: State, s1: State, s2: State, d1: int, d2: int)
    requires Refreshed(s0, s1, d1) && Refreshed(s1, s2, d2)
    ensures Refreshed(s0, s2, d1 + d2)
  {
    KeptTrans(s0, s1, s2, d1, d2);
  }

  /** Once the current character is at hand, `peek` sees what `OxmlSpec.Peek` sees. */
  lemma PeekValue(s: State, fail: bool)
    requires Inv(s) && Ready(s) && Fails(s.source) == fail
    ensures S.Peek(Unscanned(s), fail) == S.Ok(if s.currentPos != s.dataEnd then s.buffer[s.currentPos] else '\0', Unscanned(s))
  {
    if s.currentPos == s.dataEnd {
      assert Unscanned(s) == [];
    } else {
      assert Unscanned(s)[0] == s.buffer[s.currentPos];
    }
  }

  /** `advance`: the current position moves past the current character, if it is in the buffer. */
  function AdvanceOf(s: State): State
  {
    s.(currentPos := if s.currentPos != s.dataEnd then s.currentPos + 1 else s.currentPos)
  }

  /** Advancing keeps everything before the current position. */
  lemma AdvanceFollows(s: State)
    requires Inv(s)
    ensures Follows(s, AdvanceOf(s), 0) && Measure(AdvanceOf(s)) == Measure(s)
  {
    if s.currentNode.Some? {
      ShiftZero(s.currentNode.value);
    }
  }

  /** Advancing keeps everything, offsets included. */
  lemma AdvanceKept(s: State)
    requires Inv(s) && OffsetsFine(s)
    ensures Kept(s, AdvanceOf(s), 0) && Measure(AdvanceOf(s)) == Measure(s)
  {
    AdvanceFollows(s);
  }

  /** Once the current character is at hand, advancing consumes exactly that character. */
  lemma AdvanceConsumes(s: State)
    requires Inv(s)
    ensures |Unscanned(AdvanceOf(s))| <= |Unscanned(s)|
    ensures Ready(s) ==> Unscanned(AdvanceOf(s)) == S.Advance(Unscanned(s))
    ensures s.currentPos < s.dataEnd ==> |Unscanned(AdvanceOf(s))| < |Unscanned(s)|
    ensures Ready(s) && Unscanned(s) != [] ==> s.currentPos < s.dataEnd
  {
    if s.currentPos < s.dataEnd {
      assert Unscanned(AdvanceOf(s)) == Unscanned(s)[1..];
    }
  }

  /** The current character, when it is in the buffer, heads what is unscanned, and advancing drops it. */
  lemma AdvanceHead(s: State)
    requires Fine(s) && s.currentPos < s.dataEnd
    ensures Unscanned(s) != [] && Unscanned(s)[0] == s.buffer[s.currentPos]
    ensures Unscanned(AdvanceOf(s)) == Unscanned(s)[1..] && Measure(AdvanceOf(s)) == Measure(s)
  {
    assert Unscanned(AdvanceOf(s)) == Unscanned(s)[1..];
  }

  lemma SliceSnoc(b: seq<char>, i: int, j: int)
    requires 0 <= i <= j < |b|
    ensures b[i..j + 1] == b[i..j] + [b[j]]
  {
  }

  /**
   * The first part of `refillBuffer`: the data from `dataStart` to
   * `dataEnd` of `s1` went to the front of the buffer of `s2`, which is at
   * least as long, and a read appended what the source delivered; the
   * node in flight has not been shifted yet.
   */
  ghost predicate ReadInto(s1: State, s2: State)
  {
    && 0 <= s1.dataStart <= s1.currentPos <= s1.dataEnd <= |s1.buffer|
    && s2.dataStart == 0 && s2.currentPos == s1.currentPos - s1.dataStart
    && s1.dataEnd - s1.dataStart <= s2.dataEnd <= |s2.buffer| && |s2.buffer| >= |s1.buffer|
    && s2.buffer[..s1.dataEnd - s1.dataStart] == s1.buffer[s1.dataStart..s1.dataEnd]
    && s2.buffer[s2.currentPos..s2.dataEnd] + Available(s2.source) == s1.buffer[s1.currentPos..s1.dataEnd] + Available(s1.source)
    && WellFormed(s2.source) && Fails(s2.source) == Fails(s1.source) && (!s2.hasMoreData ==> s2.source == [])
    && (s2.hasMoreData ==> s1.hasMoreData) && |Available(s2.source)| <= |Available(s1.source)|
    && s2.readingOffset == s1.readingOffset && s2.currentNode == s1.currentNode && s2.tempAttrName == s1.tempAttrName
    && (s1.readingOffset > 0 ==> s2.firstOffset == s1.firstOffset - s1.dataStart)
    && (s1.source == [] ==> !s2.hasMoreData)
    && (s1.source != [] ==> s2.currentPos < s2.dataEnd && |Available(s2.source)| < |Available(s1.source)|)
  }

  /**
   * What making room does: the data from `dataStart` to `dataEnd` moves to
   * the front of a buffer at least as long, with room after it; positions
   * move with it, and nothing else changes.
   */
  ghost predicate MadeRoom(s1: State, sm: State)
  {
    && 0 <= s1.dataStart <= s1.dataEnd <= |s1.buffer|
    && |sm.buffer| >= |s1.buffer| && sm.dataEnd < |sm.buffer|
    && sm.dataStart == 0 && sm.currentPos == s1.currentPos - s1.dataStart && sm.dataEnd == s1.dataEnd - s1.dataStart
    && (s1.readingOffset > 0 ==> sm.firstOffset == s1.firstOffset - s1.dataStart)
    && sm.buffer[..sm.dataEnd] == s1.buffer[s1.dataStart..s1.dataEnd]
    && sm == s1.(buffer := sm.buffer, dataStart := 0, currentPos := sm.currentPos, dataEnd := sm.dataEnd, firstOffset := sm.firstOffset)
  }

  /**
   * What one call of the read callback does: `n` characters, the first the
   * source had available, land at `at`; nothing before `at` and nothing but
   * the buffer and the source changes.
   */
  ghost predicate Fetched(sm: State, sr: State, at: int, n: int)
  {
    && 0 <= at && 0 <= n && at + n <= |sr.buffer|
    && sr == sm.(buffer := sr.buffer, source := sr.source)
    && (n == 0 ==> sm.source == [] && sr == sm)
    && (n > 0 ==> && |sr.buffer| == |sm.buffer| && sr.buffer[..at] == sm.buffer[..at]
                  && WellFormed(sr.source) && Fails(sr.source) == Fails(sm.source)
                  && sr.buffer[at..at + n] + Available(sr.source) == Available(sm.source)
                  && |Available(sr.source)| < |Available(sm.source)|)
  }

  /** Making room, reading at `dataEnd`, and moving `dataEnd` past what was read, gives `ReadInto`. */
  lemma ReadMoreFacts(s1: State, sm: State, sr: State, n: int)
    requires 0 <= s1.dataStart <= s1.currentPos <= s1.dataEnd <= |s1.buffer|
    requires WellFormed(s1.source) && (!s1.hasMoreData ==> s1.source == [])
    requires MadeRoom(s1, sm) && Fetched(sm, sr, sm.dataEnd, n)
    ensures ReadInto(s1, sr.(dataEnd := sr.dataEnd + n, hasMoreData := if n == 0 then false else sr.hasMoreData))
  {
    var s2 := sr.(dataEnd := sr.dataEnd + n, hasMoreData := if n == 0 then false else sr.hasMoreData);
    Spliced(s1.buffer, sm.buffer, sr.buffer, s1.dataStart, s1.currentPos, s1.dataEnd, n, Available(s1.source), Available(sr.source));
  }

  /**
   * The data of `b0` from `lo` to `end` moved to the front of `b1`, and a
   * read put `n` more characters after it in `b2`: the characters from the
   * current position on are the same as before.
   */
  lemma Spliced(b0: seq<char>, b1: seq<char>, b2: seq<char>, lo: int, cur: int, end: int, n: int, tail0: seq<char>, tail2: seq<char>)
    requires 0 <= lo <= cur <= end <= |b0| && 0 <= n && end - lo + n <= |b2| && end - lo <= |b1|
    requires b1[..end - lo] == b0[lo..end]
    requires n == 0 ==> b2 == b1 && tail2 == tail0
    requires n > 0 ==> b2[..end - lo] == b1[..end - lo] && b2[end - lo..end - lo + n] + tail2 == tail0
    ensures b2[..end - lo] == b0[lo..end]
    ensures b2[cur - lo..end - lo + n] + tail2 == b0[cur..end] + tail0
  {
    assert b2[..end - lo] == b1[..end - lo];
    assert b2[cur - lo..end - lo + n] == b2[cur - lo..end - lo] + b2[end - lo..end - lo + n];
    assert b2[cur - lo..end - lo] == b2[..end - lo][cur - lo..];
    assert b0[cur..end] == b0[lo..end][cur - lo..];
  }

  /** `addressShift`: when the data moved by `d`, so do the views of the node in flight and `tempAttrName`. */
  function ShiftedBy(s: State, d: int): State
  {
    if s.currentNode.Some? then s.(currentNode := Some(ShiftNode(s.currentNode.value, d)), tempAttrName := ShiftView(s.tempAttrName, d))
    else s
  }

  /** A node whose data moved from `[lo, hi)` of `b0` to the front of `b2` still says what it said once shifted by `d`. */
  lemma Carried(b0: seq<char>, b2: seq<char>, n: Node, v: View, lo: int, hi: int, hi2: int, d: int)
    requires NodeKept(n, lo, hi, |b0|) && ViewKept(v, lo, hi, |b0|) && 0 <= lo <= hi <= |b0| && lo + d == 0 && |b0| <= |b2| && hi + d <= hi2
    requires b2[..hi - lo] == b0[lo..hi]
    ensures NodeKept(ShiftNode(n, d), 0, hi2, |b2|) && ViewKept(ShiftView(v, d), 0, hi2, |b2|)
    ensures NodeIn(ShiftNode(n, d), 0, |b2|) && ViewIn(ShiftView(v, d), 0, |b2|)
    ensures NodeIn(n, 0, |b0|) && ViewIn(v, 0, |b0|)
    ensures Render(b2, ShiftNode(n, d)) == Render(b0, n) && ViewText(b2, ShiftView(v, d)) == ViewText(b0, v)
  {
    KeptIsIn(n, v, lo, hi, |b0|);
    ShiftKept(n, v, lo, hi, hi2, |b0|, |b2|, d);
    RenderMoved(b0, b2, n, lo, hi, d);
    ViewMoved(b0, b2, v, lo, hi, d);
  }

  /** `refillBuffer` as a whole: drop the consumed data when no node is in flight, move and read, shift the node. */
  lemma RefillFacts(s0: State, s1: State, s2: State, s3: State, d: int)
    requires Inv(s0) && OffsetsFine(s0)
    requires s1 == s0.(dataStart := if s0.currentNode.None? then s0.currentPos else s0.dataStart)
    requires ReadInto(s1, s2) && d == s2.dataStart - s1.dataStart && s3 == ShiftedBy(s2, d)
    ensures Refilled(s0, s3, d)
  {
    if s0.currentNode.Some? {
      Carried(s0.buffer, s3.buffer, s0.currentNode.value, s0.tempAttrName, s0.dataStart, s0.dataEnd, s3.dataEnd, d);
      RefillCarries(s0, s3, d);
    }
    assert Unscanned(s3) == Unscanned(s1);
  }

  lemma RefillCarries(s0: State, s3: State, d: int)
    requires Inv(s0) && 0 == s0.dataStart + d == s3.dataStart && s0.currentPos + d == s3.currentPos
    requires s0.dataEnd + d <= |s3.buffer| && s3.buffer[..s0.dataEnd + d] == s0.buffer[s0.dataStart..s0.dataEnd]
    requires s0.readingOffset > 0 ==> s3.firstOffset == s0.firstOffset + d
    ensures Carries(s0, s3, d)
  {
    assert s3.buffer[..s0.currentPos + d] == s3.buffer[..s0.dataEnd + d][..s0.currentPos + d];
    assert s0.buffer[s0.dataStart..s0.currentPos] == s0.buffer[s0.dataStart..s0.dataEnd][..s0.currentPos + d];
  }

  /** The value of a step of the reader: what it returned or threw, how far the kept data moved, and the state afterwards. */
  datatype Step<T> = Step(out: Outcome<T>, shift: int, state: State)

  /** A step taken after the kept data has already moved by `d`. */
  function Later<T>(d: int, t: Step<T>): Step<T>
  {
    t.(shift := d + t.shift)
  }

  /** Steps taken one after the other: the data moved by both distances. */
  lemma LaterLater<T>(x: Step<T>, y: Step<T>, z: Step<T>, d: int, e: int)
    requires x == Later(d, y) && y == Later(e, z)
    ensures x == Later(d + e, z)
  {
  }

  /** The start of `refillBuffer`: with no node in flight, nothing before the current position is kept. */
  function DropOf(s: State): State
  {
    if s.currentNode.None? then s.(dataStart := s.currentPos) else s
  }

  /** `b` with its characters `[lo, hi)` copied to the front (`memmove`) and the rest as it was. */
  function MovedToFront(b: seq<char>, lo: int, hi: int): (r: seq<char>)
    requires 0 <= lo <= hi <= |b|
    ensures |r| == |b|
    ensures forall i :: 0 <= i < |b| ==> r[i] == if i < hi - lo then b[lo + i] else b[i]
  {
    seq(|b|, i requires 0 <= i < |b| => if i < hi - lo then b[lo + i] else b[i])
  }

  /** `b` with `d` written over it from position `at` on. */
  function WrittenAt(b: seq<char>, at: int, d: seq<char>): (r: seq<char>)
    requires 0 <= at && at + |d| <= |b|
    ensures |r| == |b|
    ensures forall i :: 0 <= i < |b| ==> r[i] == if at <= i < at + |d| then d[i - at] else b[i]
  {
    seq(|b|, i requires 0 <= i < |b| => if at <= i < at + |d| then d[i - at] else b[i])
  }

  /**
   * The moving part of `refillBuffer`: data that does not start at the
   * front is moved there (`memmove`), a buffer whose data is all consumed
   * starts over, and a full buffer doubles in size.
   */
  function MakeRoomOf(s: State): (r: State)
    requires 0 <= s.dataStart <= s.currentPos <= s.dataEnd <= |s.buffer| && |s.buffer| > 0
    ensures r.dataEnd < |r.buffer|
  {
    if s.dataStart != 0 && s.dataStart != s.dataEnd then
      var shift := -s.dataStart;
      s.(buffer := MovedToFront(s.buffer, s.dataStart, s.dataEnd),
         dataEnd := s.dataEnd + shift, currentPos := s.currentPos + shift, firstOffset := s.firstOffset + shift, dataStart := 0)
    else if s.dataStart == s.dataEnd then
      s.(dataStart := 0, currentPos := 0, dataEnd := 0, firstOffset := |s.buffer|)
    else if s.dataStart == 0 && s.dataEnd == |s.buffer| then
      s.(buffer := s.buffer + seq(|s.buffer|, _ => '\0'))
    else s
  }

  /** The read callback: copies at most `room` characters of the first chunk to `buffer[at..]` and returns their count, negative on a failure. */
  function ReadOf(s: State, at: int, room: int): (r: (int, State))
    requires 0 <= at && at + room <= |s.buffer| && room > 0 && WellFormed(s.source)
  {
    if s.source == [] then (0, s)
    else if s.source[0].Failure? then (-1, s)
    else
      var b := s.source[0].bytes;
      var n := if |b| < room then |b| else room;
      AfterReadFacts(s.source, n);
      (n, s.(buffer := WrittenAt(s.buffer, at, b[..n]), source := AfterRead(s.source, n)))
  }

  /**
   * The end of `refillBuffer` once the read callback returned `n >= 0`: the
   * data grows by `n`, a read of nothing ends the data, and the node in
   * flight moves by the distance `dataStart` moved from `oldDataStart`.
   */
  function ReadDoneOf(sr: State, n: int, oldDataStart: int): State
  {
    var s2 := sr.(dataEnd := sr.dataEnd + n, hasMoreData := if n == 0 then false else sr.hasMoreData);
    ShiftedBy(s2, s2.dataStart - oldDataStart)
  }

  /** `refillBuffer`: drop, make room, read, and shift the node in flight by the distance its data moved. */
  function RefillOf(s: State): (Outcome<int>, State)
    requires 0 <= s.dataStart <= s.currentPos <= s.dataEnd <= |s.buffer| && |s.buffer| > 0
    requires WellFormed(s.source)
  {
    var s1 := DropOf(s);
    var sm := MakeRoomOf(s1);
    var (n, sr) := ReadOf(sm, sm.dataEnd, |sm.buffer| - sm.dataEnd);
    if n < 0 then (Thrown(S.ReadError), sr)
    else
      (Done(sr.dataStart - s1.dataStart), ReadDoneOf(sr, n, s1.dataStart))
  }

  /** Making room moves the data from `dataStart` on to the front of a buffer at least as long, with room after it. */
  lemma MakeRoomMoves(s: State)
    requires 0 <= s.dataStart <= s.currentPos <= s.dataEnd <= |s.buffer| && |s.buffer| > 0
    ensures var sm := MakeRoomOf(s);
      && |sm.buffer| >= |s.buffer| && sm.dataEnd < |sm.buffer|
      && sm.dataStart == 0 && sm.currentPos == s.currentPos - s.dataStart && sm.dataEnd == s.dataEnd - s.dataStart
      && sm.buffer[..sm.dataEnd] == s.buffer[s.dataStart..s.dataEnd]
      && sm == s.(buffer := sm.buffer, dataStart := 0, currentPos := sm.currentPos, dataEnd := sm.dataEnd, firstOffset := sm.firstOffset)
  {
  }

  /**
   * A refill that returns, whatever the views it holds: nothing unconsumed
   * is lost, the positions stay ordered, the node in flight moves by the
   * distance returned, and more data arrives or the data ends.
   */
  lemma RefillFine(s: State)
    requires Fine(s) && RefillOf(s).0.Done?
    ensures Grown(s, RefillOf(s).1, RefillOf(s).0.value)
  {
    hide *;
    var s1, sm, sr, n, s2 := RefillPieces(s);
    RefillSteps(s, s1, sm, sr, n, s2);
    GrownFrom(s, s1, sm, sr, n, s2);
  }

  lemma RefillSteps(s: State, s1: State, sm: State, sr: State, n: int, s2: State)
    requires Fine(s) && s1 == DropOf(s) && sm == MakeRoomOf(s1) && n >= 0 && (n, sr) == ReadOf(sm, sm.dataEnd, |sm.buffer| - sm.dataEnd)
    requires s2 == sr.(dataEnd := sr.dataEnd + n, hasMoreData := if n == 0 then false else sr.hasMoreData)
    ensures GrownSteps(s, s1, sm, sr, n, s2)
  {
    MakeRoomMoves(s1);
    ReadFacts(sm, sm.dataEnd, |sm.buffer| - sm.dataEnd);
  }

  /** The steps of a refill that returns `n` characters: drop, make room, read, move the end. */
  ghost predicate GrownSteps(s: State, s1: State, sm: State, sr: State, n: int, s2: State)
  {
    && Fine(s) && s1 == DropOf(s) && n >= 0
    && |sm.buffer| >= |s1.buffer| && sm.dataEnd < |sm.buffer|
    && sm.dataStart == 0 && sm.currentPos == s1.currentPos - s1.dataStart && sm.dataEnd == s1.dataEnd - s1.dataStart
    && sm.buffer[..sm.dataEnd] == s1.buffer[s1.dataStart..s1.dataEnd]
    && sm == s1.(buffer := sm.buffer, dataStart := 0, currentPos := sm.currentPos, dataEnd := sm.dataEnd, firstOffset := sm.firstOffset)
    && (n == 0 <==> sm.source == [])
    && Fetched(sm, sr, sm.dataEnd, n)
    && s2 == sr.(dataEnd := sr.dataEnd + n, hasMoreData := if n == 0 then false else sr.hasMoreData)
  }

  /** What a refill that returns does, whatever the views the reader holds. */
  ghost predicate Grown(s: State, r: State, d: int)
  {
    && Fine(r) && Unscanned(r) == Unscanned(s) && Measure(r) <= Measure(s) && r.currentPos == s.currentPos + d
    && r.readingOffset == s.readingOffset
    && (r.currentNode.Some? <==> s.currentNode.Some?)
    && (s.currentNode.Some? ==> r.currentNode == Some(ShiftNode(s.currentNode.value, d)))
    && (s.source == [] ==> !r.hasMoreData)
    && (s.source != [] ==> r.currentPos < r.dataEnd)
    && (s.hasMoreData ==> Measure(r) < Measure(s))
  }

  lemma RefillPieces(s: State) returns (s1: State, sm: State, sr: State, n: int, s2: State)
    requires Fine(s) && RefillOf(s).0.Done?
    ensures s1 == DropOf(s) && sm == MakeRoomOf(s1) && n >= 0 && (n, sr) == ReadOf(sm, sm.dataEnd, |sm.buffer| - sm.dataEnd)
    ensures s2 == sr.(dataEnd := sr.dataEnd + n, hasMoreData := if n == 0 then false else sr.hasMoreData)
    ensures RefillOf(s) == (Done(s2.dataStart - s1.dataStart), ShiftedBy(s2, s2.dataStart - s1.dataStart))
  {
    s1 := DropOf(s);
    sm := MakeRoomOf(s1);
    n, sr := ReadOf(sm, sm.dataEnd, |sm.buffer| - sm.dataEnd).0, ReadOf(sm, sm.dataEnd, |sm.buffer| - sm.dataEnd).1;
    s2 := sr.(dataEnd := sr.dataEnd + n, hasMoreData := if n == 0 then false else sr.hasMoreData);
  }

  lemma GrownFrom(s: State, s1: State, sm: State, sr: State, n: int, s2: State)
    requires GrownSteps(s, s1, sm, sr, n, s2)
    ensures Grown(s, ShiftedBy(s2, s2.dataStart - s1.dataStart), s2.dataStart - s1.dataStart)
  {
    GrownPieces(s, s1, sm, sr, n, s2);
    GrownText(s, s2, s1.dataStart, sm.buffer, n);
  }

  /** What a refill keeps to scan: the characters not yet scanned, then those the source still has. */
  lemma GrownText(s: State, s2: State, lo: int, b1: seq<char>, n: int)
    requires 0 <= lo <= s.currentPos <= s.dataEnd <= |s.buffer| && 0 <= n
    requires s.dataEnd - lo + n <= |s2.buffer| && s.dataEnd - lo <= |b1|
    requires b1[..s.dataEnd - lo] == s.buffer[lo..s.dataEnd]
    requires n == 0 ==> s2.buffer == b1 && Available(s2.source) == Available(s.source)
    requires n > 0 ==> && s2.buffer[..s.dataEnd - lo] == b1[..s.dataEnd - lo]
                       && s2.buffer[s.dataEnd - lo..s.dataEnd - lo + n] + Available(s2.source) == Available(s.source)
    requires s2.currentPos == s.currentPos - lo && s2.dataEnd == s.dataEnd - lo + n
    ensures Unscanned(s2) == Unscanned(s)
  {
    Spliced(s.buffer, b1, s2.buffer, lo, s.currentPos, s.dataEnd, n, Available(s.source), Available(s2.source));
    UnscannedIs(s);
    UnscannedIs(s2);
  }

  /** The premises of `GrownText`, from the steps of a refill. */
  lemma GrownPieces(s: State, s1: State, sm: State, sr: State, n: int, s2: State)
    requires GrownSteps(s, s1, sm, sr, n, s2)
    ensures var lo, end := s1.dataStart, s.dataEnd;
      && 0 <= lo <= s.currentPos <= end <= |s.buffer| && end - lo + n <= |s2.buffer| && end - lo <= |sm.buffer|
      && sm.buffer[..end - lo] == s.buffer[lo..end]
      && (n == 0 ==> s2.buffer == sm.buffer && Available(s2.source) == Available(s.source))
      && (n > 0 ==> s2.buffer[..end - lo] == sm.buffer[..end - lo] && s2.buffer[end - lo..end - lo + n] + Available(s2.source) == Available(s.source))
      && s2.currentPos == s.currentPos - lo && s2.dataEnd == end - lo + n
  {
  }

  lemma UnscannedIs(s: State)
    requires 0 <= s.currentPos <= s.dataEnd <= |s.buffer|
    ensures Unscanned(s) == s.buffer[s.currentPos..s.dataEnd] + Available(s.source)
  {
  }

  /** A refill throws exactly when the source fails next, and then nothing was left to read. */
  lemma MakeRoomFacts(s: State)
    requires 0 <= s.dataStart <= s.currentPos <= s.dataEnd <= |s.buffer| && |s.buffer| > 0
    requires s.readingOffset > 0 ==> s.dataStart < s.currentPos
    ensures MadeRoom(s, MakeRoomOf(s))
  {
  }

  lemma ReadFacts(s: State, at: int, room: int)
    requires 0 <= at && at + room <= |s.buffer| && room > 0 && WellFormed(s.source)
    ensures ReadOf(s, at, room).0 < 0 <==> s.source != [] && s.source[0].Failure?
    ensures ReadOf(s, at, room).0 == 0 <==> s.source == []
    ensures ReadOf(s, at, room).0 >= 0 ==> Fetched(s, ReadOf(s, at, room).1, at, ReadOf(s, at, room).0)
  {
    if s.source != [] && s.source[0].Data? {
      ReadFetched(s, at, room);
    }
  }

  lemma ReadFetched(s: State, at: int, room: int)
    requires 0 <= at && at + room <= |s.buffer| && room > 0 && WellFormed(s.source)
    requires s.source != [] && s.source[0].Data?
    ensures Fetched(s, ReadOf(s, at, room).1, at, ReadOf(s, at, room).0)
  {
    var b := s.source[0].bytes;
    var n := if |b| < room then |b| else room;
    AfterReadFacts(s.source, n);
    var b2 := WrittenAt(s.buffer, at, b[..n]);
    assert b2[..at] == s.buffer[..at] && b2[at..at + n] == b[..n];
  }

  lemma RefillThrows(s: State)
    requires Inv(s) && OffsetsFine(s)
    ensures RefillOf(s).0.Thrown? <==> s.source != [] && s.source[0].Failure?
    ensures RefillOf(s).0.Thrown? ==> RefillOf(s).0.error == S.ReadError && Available(s.source) == []
  {
  }

  /**
   * A refill that returns keeps every unconsumed character, the node in
   * flight and its text, and brings in more data or ends it.
   */
  lemma RefillDone(s: State)
    requires Inv(s) && OffsetsFine(s) && RefillOf(s).0.Done?
    ensures Refilled(s, RefillOf(s).1, RefillOf(s).0.value)
  {
    hide *;
    InvFine(s);
    var s1, sm, sr, n, s2 := RefillPieces(s);
    RefillRead(s, s1, sm, sr, n, s2);
    RefillFacts(s, s1, s2, ShiftedBy(s2, s2.dataStart - s1.dataStart), s2.dataStart - s1.dataStart);
  }

  lemma InvFine(s: State)
    requires Inv(s)
    ensures Fine(s)
  {
  }

  /** Dropping, making room, reading and moving the end read into the data kept. */
  lemma RefillRead(s: State, s1: State, sm: State, sr: State, n: int, s2: State)
    requires Inv(s) && OffsetsFine(s) && s1 == DropOf(s) && sm == MakeRoomOf(s1) && n >= 0 && (n, sr) == ReadOf(sm, sm.dataEnd, |sm.buffer| - sm.dataEnd)
    requires s2 == sr.(dataEnd := sr.dataEnd + n, hasMoreData := if n == 0 then false else sr.hasMoreData)
    ensures s1 == s.(dataStart := if s.currentNode.None? then s.currentPos else s.dataStart)
    ensures ReadInto(s1, s2)
  {
    MakeRoomFacts(s1);
    ReadFacts(sm, sm.dataEnd, |sm.buffer| - sm.dataEnd);
    ReadMoreFacts(s1, sm, sr, n);
  }





  /** Advancing after a step keeps what the step kept. */
  lemma AdvanceAfter(s0: State, s1: State, d: int)
    requires Kept(s0, s1, d)
    ensures Kept(s0, AdvanceOf(s1), d)
  {
    AdvanceKept(s1);
    KeptTrans(s0, s1, AdvanceOf(s1), d, 0);
  }

  /** A step taken after another that kept the data keeps it too, the shifts adding up. */
  lemma KeptLater<T>(s0: State, s1: State, d: int, t: Step<T>, r: Step<T>)
    requires Kept(s0, s1, d) && (t.out.Done? ==> Kept(s1, t.state, t.shift)) && r == Later(d, t)
    ensures r.out.Done? ==> Kept(s0, r.state, r.shift)
  {
    hide *;
    LaterIs(d, t, r);
    if t.out.Done? {
      KeptTrans(s0, s1, t.state, d, t.shift);
    }
  }

  lemma LaterIs<T>(d: int, t: Step<T>, r: Step<T>)
    requires r == Later(d, t)
    ensures r.out == t.out && r.state == t.state && r.shift == d + t.shift
  {
  }
}
