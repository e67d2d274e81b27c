/**
 * `oxml::Reader`, the streaming, in-situ XML reader of the `.xopp` loader.
 *
 * The reader keeps one buffer, a `std::vector<char>` modelled as a sequence
 * the methods reassign, and four positions in it, `dataStart <= currentPos
 * <= dataEnd <= |buffer|`. It fills the buffer from a read callback, moves
 * the data it still needs to the front, and doubles the buffer when it is
 * full. Character references are replaced in place: the
 * replacement is written over the reference, `readingOffset` counts how far
 * the text read since then lags behind where it belongs, and `firstOffset`
 * marks the first character that still has to be moved back.
 *
 * The read callback is the field `source`, a sequence of chunks: each call
 * copies as much of the first chunk as fits, a `Failure` chunk is a call that
 * returns a negative count, and an exhausted source returns 0.
 *
 * Every method is proved to compute, on the reader's state, the function
 * of module `OxmlParse` that models the original's operation as written
 * (`RefillOf`, `PeekOf`, `ScanOf`, `OpeningOf`, `ReadNodeOf`, ...). The
 * refill, `peek`, `skipWhitespace` and the raw scans are in turn proved
 * to agree with module `OxmlSpec` on the characters not yet consumed,
 * however the source splits its data. The replacing scans and the node
 * parsers agree with it on text without '&' (module `OxmlAgree`), save for
 * the '>' of an empty tag whose '/' ends the buffer; on other inputs they
 * differ from it (module `OxmlFindings`).
 */
module Oxml {

  import opened Chars
  import opened OxmlNodes
  import opened OxmlState
  import opened OxmlSteps
  import opened OxmlParse
  import D = OxmlDecode
  import Utf8
  import S = OxmlSpec

  /** `INITIAL_BUFFER_SIZE`, 1 << 10. */
  const InitialBufferSize: nat := 1024

  class Reader {
    var source: seq<Chunk>
    var buffer: seq<char>
    var dataStart: int
    var currentPos: int
    var dataEnd: int
    var hasMoreData: bool
    var lastNodeWasOpening: bool
    /** The node being built, whose views are shifted when the data moves; `None` for `nullptr`. */
    var currentNode: Option<Node>
    var tempAttrName: View
    var readingOffset: int
    var firstOffset: int
    /** Whether the source ends in a read error rather than at the end of the data. */
    ghost const failing: bool

    /** The fields as a value. */
    ghost function St(): State
      reads this
    {
      State(source, buffer, dataStart, currentPos, dataEnd, hasMoreData, currentNode, tempAttrName, readingOffset, firstOffset)
    }

    ghost predicate Valid()
      reads this
    {
      Inv(St()) && OffsetsFine(St()) && Fails(source) == failing
    }

    /** `Reader::Reader`, with the read callback given as the chunks it will deliver. */
    constructor (src: seq<Chunk>)
      requires WellFormed(src)
      ensures Valid() && Unscanned(St()) == Available(src) && failing == Fails(src)
      ensures |buffer| == InitialBufferSize && currentNode.None? && !lastNodeWasOpening && readingOffset == 0
    {
      source := src;
      buffer := seq(InitialBufferSize, _ => '\0');
      dataStart, currentPos, dataEnd := 0, 0, 0;
      hasMoreData := true;
      lastNodeWasOpening := false;
      currentNode := None;
      tempAttrName := NullView;
      readingOffset := 0;
      firstOffset := InitialBufferSize;
      failing := Fails(src);
    }

    /** The read callback: copies at most `room` characters of the first chunk to `buffer[at..]` and returns their count. */
    method Read(at: int, room: int) returns (n: int)
      requires 0 <= at && at + room <= |buffer| && room > 0 && WellFormed(source)
      modifies this`source, this`buffer
      ensures (n, St()) == ReadOf(old(St()), at, room)
    {
      if source == [] {
        n := 0;
      } else if source[0].Failure? {
        n := -1;
      } else {
        var b := source[0].bytes;
        n := if |b| < room then |b| else room;
        buffer := WrittenAt(buffer, at, b[..n]);
        AfterReadFacts(source, n);
        source := AfterRead(source, n);
      }
    }

    /** `addressShift`: when `dataStart` moved, the node in flight and `tempAttrName` move with it. */
    method AddressShift(oldDataStart: int) returns (shift: int)
      modifies this`currentNode, this`tempAttrName
      ensures shift == old(St()).dataStart - oldDataStart
      ensures St() == ShiftedBy(old(St()), shift)
    {
      shift := dataStart - oldDataStart;
      if shift != 0 && currentNode.Some? {
        currentNode := Some(ShiftNode(currentNode.value, shift));
        if tempAttrName.size != 0 {
          tempAttrName := ShiftView(tempAttrName, shift);
        }
      } else if currentNode.Some? {
        ShiftZero(currentNode.value);
      }
    }

    /**
     * The first half of `refillBuffer`: the data from `dataStart` on moves to
     * the front of the buffer (`memmove`); when there is none it is all
     * dropped; a full buffer is doubled in size, the new half zeroed.
     */
    method MakeRoom()
      requires 0 <= dataStart <= currentPos <= dataEnd <= |buffer| && |buffer| > 0
      modifies this`dataStart, this`currentPos, this`dataEnd, this`firstOffset, this`buffer
      ensures St() == MakeRoomOf(old(St()))
    {
      if dataStart != 0 && dataStart != dataEnd {
        var shift := -dataStart;
        buffer := MovedToFront(buffer, dataStart, dataEnd);
        dataEnd := dataEnd + shift;
        currentPos := currentPos + shift;
        firstOffset := firstOffset + shift;
        dataStart := 0;
      } else if dataStart == dataEnd {
        dataStart, currentPos, dataEnd := 0, 0, 0;
        firstOffset := |buffer|;
      } else if dataStart == 0 && dataEnd == |buffer| {
        buffer := buffer + seq(|buffer|, _ => '\0');
      }
    }

    /**
     * `refillBuffer`: keeps the data from `dataStart` on (from `currentPos`
     * on when no node is in flight), moving it to the front of the buffer,
     * or doubles a full buffer, then reads. The value is the distance the
     * kept data moved.
     */
    method RefillBuffer() returns (o: Outcome<int>)
      requires Fine(St())
      modifies this`dataStart, this`currentPos, this`dataEnd, this`firstOffset, this`buffer, this`source, this`hasMoreData, this`currentNode, this`tempAttrName
      ensures (o, St()) == RefillOf(old(St()))
    {
      if currentNode.None? {
        dataStart := currentPos;
      }
      var oldDataStart := dataStart;
      MakeRoom();
      var n := Read(dataEnd, |buffer| - dataEnd);
      if n < 0 {
        return Thrown(S.ReadError);
      }
      var shift := ReadDone(n, oldDataStart);
      return Done(shift);
    }

    /** The end of `refillBuffer`, once the read callback returned `n >= 0`. */
    method ReadDone(n: int, oldDataStart: int) returns (shift: int)
      modifies this`dataEnd, this`hasMoreData, this`currentNode, this`tempAttrName
      ensures St() == ReadDoneOf(old(St()), n, oldDataStart) && shift == dataStart - oldDataStart
    {
      dataEnd := dataEnd + n;
      if n == 0 {
        hasMoreData := false;
      }
      shift := AddressShift(oldDataStart);
    }

    /**
     * `peek`: the current character, refilling the buffer first when it has
     * all been consumed and more data may come; '\0' once the data has ended.
     * `d` is how far a refill moved the kept data.
     */
    method Peek() returns (o: Outcome<char>, ghost d: int)
      requires Fine(St())
      modifies this`dataStart, this`currentPos, this`dataEnd, this`firstOffset, this`buffer, this`source, this`hasMoreData, this`currentNode, this`tempAttrName
      ensures Step(o, d, St()) == PeekOf(old(St()))
    {
      d := 0;
      if currentPos == dataEnd && hasMoreData {
        var r := RefillBuffer();
        if r.Thrown? {
          return Thrown(r.error), d;
        }
        d := r.value;
      }
      var c := if currentPos != dataEnd then buffer[currentPos] else '\0';
      return Done(c), d;
    }

    /** `advance`: moves past the current character, if it is in the buffer. */
    method Advance()
      modifies this`currentPos
      ensures St() == AdvanceOf(old(St()))
    {
      if currentPos != dataEnd {
        currentPos := currentPos + 1;
      }
    }

    /** `skipWhitespace`. */
    method SkipWhitespace() returns (o: Outcome<()>, ghost d: int)
      requires Fine(St())
      modifies this`dataStart, this`currentPos, this`dataEnd, this`firstOffset, this`buffer, this`source, this`hasMoreData, this`currentNode, this`tempAttrName
      ensures Step(o, d, St()) == SkipOf(old(St()))
    {
      ghost var s0 := St();
      d := 0;
      while true
        invariant Fine(St()) && SkipOf(s0) == Later(d, SkipOf(St()))
        decreases |Unscanned(St())| + Measure(St())
      {
        ghost var s1 := St();
        var c, dd := Peek();
        if c.Thrown? {
          return Thrown(c.error), d + dd;
        }
        d := d + dd;
        if !IsSpace(c.value) {
          return Done(()), d;
        }
        PeekAdvanceFine(s1);
        Advance();
      }
    }

    /** `moveOffsetData`: the text read since the last replacement moves back over the gap (`memmove`). */
    method MoveOffsetData() returns (o: Outcome<()>)
      requires Fine(St())
      modifies this`buffer, this`firstOffset
      ensures Run(o, St()) == MoveOf(old(St()))
    {
      if readingOffset != 0 {
        var movingBlockSize := currentPos - firstOffset;
        if movingBlockSize > 0 {
          if firstOffset - readingOffset < 0 {
            return Thrown(S.Undefined);
          }
          buffer := buffer[..firstOffset - readingOffset] + buffer[firstOffset..currentPos] + buffer[currentPos - readingOffset..];
          firstOffset := currentPos;
        }
      }
      return Done(());
    }

    /**
     * `replaceUnicodeReference`: writes the UTF-8 bytes of the code point
     * that `digits` give in `base` where the reference began, and widens the
     * gap by what they save; no digits, no change.
     */
    method ReplaceUnicodeReference(digits: seq<char>, base: nat, entitySize: nat)
      requires Utf8.IsBase(base) && |digits| < entitySize && 0 <= readingOffset
      requires 0 <= currentPos - readingOffset - entitySize - 1 && currentPos <= |buffer|
      modifies this`buffer, this`readingOffset, this`firstOffset
      ensures St() == D.UnicodeOf(old(St()), digits, base, entitySize)
    {
      if digits != [] {
        Utf8.FromCharsFits(digits, base);
        var bytes := Utf8.Encode(Utf8.FromChars(digits, base));
        var at := currentPos - readingOffset - entitySize - 1;
        buffer := buffer[..at] + bytes + buffer[at + |bytes|..];
        readingOffset := readingOffset + entitySize + 2 - |bytes|;
        firstOffset := currentPos + 1;
      }
    }

    /**
     * The rewriting part of `replaceCharacterReference`, the current
     * character being the ';' after `name`: a predefined entity or a numeric
     * reference is written in front of the gap; an unknown one is left alone.
     */
    method WriteReference(name: seq<char>)
      requires 0 <= readingOffset && 0 <= currentPos - readingOffset - |name| - 1 && currentPos < |buffer|
      modifies this`buffer, this`readingOffset, this`firstOffset
      ensures St() == D.WriteReferenceOf(old(St()), name)
    {
      var entity := S.Entity(name);
      if entity.Some? {
        readingOffset := readingOffset + |name| + 1;
        buffer := buffer[currentPos - readingOffset := entity.value];
        firstOffset := currentPos + 1;
      } else if |name| >= 2 && name[0] == '#' {
        if name[1] == 'x' {
          ReplaceUnicodeReference(name[2..], 16, |name|);
        } else {
          ReplaceUnicodeReference(name[1..], 10, |name|);
        }
      }
    }

    /**
     * The rewriting part of `replaceCharacterReference`, on the span the
     * nested scan returned, as `OxmlParse.WriteOf` reads it.
     */
    method WriteReferenceAt(sp: Span) returns (o: Outcome<()>)
      requires Fine(St()) && currentPos < dataEnd
      modifies this`buffer, this`readingOffset, this`firstOffset
      ensures Run(o, St()) == WriteOf(old(St()), sp)
    {
      hide WriteNamedOf;
      if SpanIn(buffer, sp) {
        o := WriteNamed(buffer[sp.start..sp.start + sp.length]);
      } else if sp.length < 0 {
        o := if 0 <= sp.start < |buffer| && buffer[sp.start] != '#' then Done(()) else Thrown(S.Undefined);
      } else {
        o := if sp.length < 2 then Done(()) else Thrown(S.Undefined);
      }
    }

    /** The rewriting of a reference whose name lies in the buffer. */
    method WriteNamed(name: seq<char>) returns (o: Outcome<()>)
      requires Fine(St()) && currentPos < dataEnd
      modifies this`buffer, this`readingOffset, this`firstOffset
      ensures Run(o, St()) == WriteNamedOf(old(St()), name)
    {
      if 0 <= currentPos - readingOffset - |name| - 1 {
        WriteReference(name);
        return Done(());
      }
      o := if Writes(name) then Thrown(S.Undefined) else Done(());
    }

    /**
     * `replaceCharacterReference`, on an '&': moves the offset data back,
     * skips the '&', and goes on with `ReplaceName`.
     */
    method ReplaceCharacterReference() returns (o: Outcome<int>)
      requires Fine(St()) && currentPos < dataEnd
      modifies this`dataStart, this`currentPos, this`dataEnd, this`firstOffset, this`buffer, this`source, this`hasMoreData, this`currentNode, this`tempAttrName, this`readingOffset
      ensures ReplaceIs(old(St()), o, St())
      decreases Left(St()), 3
    {
      ghost var s := St();
      var m := MoveOffsetData();
      ghost var ms := St();
      ReplaceMoved(s, m, ms);
      if m.Thrown? {
        return Thrown(m.error);
      }
      Advance();
      o := ReplaceName();
      ReplaceNamed(s, ms, AdvanceOf(ms), o, St());
    }

    /**
     * `replaceCharacterReference` after the '&': scans the name up to the
     * ';' (a scan that replaces references too), rewrites, and returns
     * `addressShift` from where `dataStart` stood after the '&'.
     */
    method ReplaceName() returns (o: Outcome<int>)
      requires Fine(St())
      modifies this`dataStart, this`currentPos, this`dataEnd, this`firstOffset, this`buffer, this`source, this`hasMoreData, this`currentNode, this`tempAttrName, this`readingOffset
      ensures NamedIs(old(St()), o, St())
      decreases Left(St()), 8
    {
      ghost var a := St();
      var oldDataStart := dataStart;
      var n := ParseWhileFrom(S.Char(';'), currentPos);
      NameScanned(a, n, St());
      if n.Thrown? {
        return Thrown(n.error);
      }
      ghost var ns := St();
      o := Rewrite(n.value, oldDataStart);
      NameRewritten(a, n.value, ns, o, St());
    }

    /** The rewriting, then `addressShift(oldDataStart)`. */
    method Rewrite(sp: Span, oldDataStart: int) returns (o: Outcome<int>)
      requires Fine(St()) && currentPos < dataEnd
      modifies this`buffer, this`readingOffset, this`firstOffset, this`currentNode, this`tempAttrName
      ensures Run(o, St()) == RewriteOf(old(St()), sp, oldDataStart)
    {
      ghost var t := St();
      var w := WriteReferenceAt(sp);
      if w.Thrown? {
        RewriteThrown(t, sp, oldDataStart, w, St());
        return Thrown(w.error);
      }
      ghost var ws := St();
      var shift := AddressShift(oldDataStart);
      RewriteDone(t, sp, oldDataStart, ws, shift, St());
      return Done(shift);
    }

    /**
     * The loop of `parseWhileFrom`: moves past the characters that continue
     * `u`, replacing each reference it meets and moving `start` by the shift
     * reported, up to the end of the buffer or a character that stops `u`.
     */
    method ScanLoop(u: S.Until, start: int) returns (o: Outcome<int>)
      requires Fine(St())
      modifies this`dataStart, this`currentPos, this`dataEnd, this`firstOffset, this`buffer, this`source, this`hasMoreData, this`currentNode, this`tempAttrName, this`readingOffset
      ensures o.Thrown? ==> ScanIs(old(St()), u, start, Thrown(o.error), St())
      ensures o.Done? ==> Fine(St()) && !Moves(St(), u) && Left(St()) <= Left(old(St())) && ScansAs(old(St()), start, St(), o.value, u)
      decreases Left(St()), 5
    {
      hide ScanOf, ScanEndOf, ReplaceOf, RefillOf, ScansAs, ScanIs;
      ghost var s0 := St();
      var st := start;
      ScansSame(s0, start, u);
      while currentPos != dataEnd && S.Continues(u, buffer[currentPos])
        invariant Fine(St()) && Left(St()) <= Left(s0)
        invariant ScansAs(s0, start, St(), st, u)
        decreases Left(St())
      {
        ghost var g := St();
        var k := ScanStep(u, st);
        if k.Thrown? {
          ScansEnd(s0, start, g, st, u, Thrown(k.error), St());
          return Thrown(k.error);
        }
        ScansTrans(s0, start, g, st, St(), st + k.value, u);
        st := st + k.value;
      }
      return Done(st);
    }

    /**
     * One turn of that loop: an '&' has its reference replaced, then the
     * reader moves past the current character.
     */
    method ScanStep(u: S.Until, st: int) returns (k: Outcome<int>)
      requires Fine(St()) && currentPos != dataEnd && S.Continues(u, buffer[currentPos])
      modifies this`dataStart, this`currentPos, this`dataEnd, this`firstOffset, this`buffer, this`source, this`hasMoreData, this`currentNode, this`tempAttrName, this`readingOffset
      ensures k.Thrown? ==> ScanIs(old(St()), u, st, Thrown(k.error), St())
      ensures k.Done? ==> Fine(St()) && Left(St()) < Left(old(St())) && ScansAs(old(St()), st, St(), st + k.value, u)
      decreases Left(St()), 4
    {
      hide ScanOf, ScanEndOf, ReplaceOf, RefillOf, ScansAs, ScanIs;
      ghost var g := St();
      if buffer[currentPos] == '&' {
        var r := ReplaceCharacterReference();
        if r.Thrown? {
          ScanReplacedThrown(g, u, st, r, St());
          return Thrown(r.error);
        }
        ReplacedFacts(g, r, St());
        ScanReplacedDone(g, u, st, r, St());
        k := Done(r.value);
      } else {
        ScanAdvanced(g, u, st);
        k := Done(0);
      }
      Advance();
    }

    /** `parseWhileFrom`: the loop, then what follows it. */
    method ParseWhileFrom(u: S.Until, start: int) returns (o: Outcome<Span>)
      requires Fine(St())
      modifies this`dataStart, this`currentPos, this`dataEnd, this`firstOffset, this`buffer, this`source, this`hasMoreData, this`currentNode, this`tempAttrName, this`readingOffset
      ensures ScanIs(old(St()), u, start, o, St())
      decreases Left(St()), 6
    {
      ghost var s0 := St();
      var l := ScanLoop(u, start);
      if l.Thrown? {
        return Thrown(l.error);
      }
      ghost var s1 := St();
      o := ScanEnd(u, l.value);
      ScanEnded(s0, start, s1, l.value, u, o, St());
    }

    /**
     * `parseWhileFrom` after its loop: at the end of the buffer a refill,
     * `start` moving with the data, and a call of itself; once the data has
     * ended it throws. Otherwise `Finish`.
     */
    method ScanEnd(u: S.Until, st: int) returns (o: Outcome<Span>)
      requires Fine(St()) && !Moves(St(), u)
      modifies this`dataStart, this`currentPos, this`dataEnd, this`firstOffset, this`buffer, this`source, this`hasMoreData, this`currentNode, this`tempAttrName, this`readingOffset
      ensures EndIs(old(St()), u, st, o, St())
      decreases Left(St()), 5
    {
      ghost var s1 := St();
      if currentPos == dataEnd {
        if hasMoreData {
          var r := RefillBuffer();
          if r.Thrown? {
            EndRefilledThrown(s1, u, st, r, St());
            return Thrown(r.error);
          }
          ghost var t := St();
          RefilledFacts(s1, r, t);
          o := ParseWhileFrom(u, st + r.value);
          EndRefilledDone(s1, u, st, r, t, o, St());
          return;
        }
        EndEnds(s1, u, st);
        return Thrown(S.UnexpectedEnd);
      }
      o := Finish(st);
      EndStops(s1, u, st, o, St());
    }

    /** The end of `parseWhileFrom`: the offset data moves back, the view is taken, and `readingOffset` is cleared. */
    method Finish(start: int) returns (o: Outcome<Span>)
      requires Fine(St())
      modifies this`buffer, this`firstOffset, this`readingOffset
      ensures Run(o, St()) == FinishOf(old(St()), start)
    {
      var m := MoveOffsetData();
      if m.Thrown? {
        return Thrown(m.error);
      }
      o := Done(Span(start, currentPos - readingOffset - start));
      readingOffset := 0;
    }

    /**
     * `parseOpeningNode`, after the '<': the node begins at the current
     * position and gets its name; white space, the attributes and the end of
     * the tag follow. Handing the node out sets `lastNodeWasOpening`.
     */
    method ParseOpeningNode() returns (o: Outcome<Node>)
      requires Fine(St())
      modifies this`dataStart, this`currentPos, this`dataEnd, this`firstOffset, this`buffer, this`source, this`hasMoreData, this`currentNode, this`tempAttrName, this`readingOffset, this`lastNodeWasOpening
      ensures Run(o, St()) == OpeningOf(old(St()))
      ensures lastNodeWasOpening == (o.Done? || old(lastNodeWasOpening))
    {
      ghost var s := St();
      dataStart := currentPos;
      currentNode := Some(OpeningNode(NullView, false, []));
      assert St() == Begin(s, OpeningNode(NullView, false, []));
      var n := ParseWhileFrom(S.Name, currentPos);
      if n.Thrown? {
        return Thrown(n.error);
      }
      var v := ViewOf(n.value);
      if v.Thrown? {
        return Thrown(v.error);
      }
      currentNode := Some(currentNode.value.(name := v.value));
      ghost var s2 := St();
      var k, d := SkipWhitespace();
      if k.Thrown? {
        return Thrown(k.error);
      }
      SkipFacts(s2);
      var a := ParseAttributes();
      if a.Thrown? {
        return Thrown(a.error);
      }
      o := ParseOpeningEnd();
    }

    /** The attribute loop of `parseOpeningNode`, until `peek` finds '/' or '>'. */
    method ParseAttributes() returns (o: Outcome<()>)
      requires Fine(St()) && currentNode.Some? && currentNode.value.OpeningNode?
      modifies this`dataStart, this`currentPos, this`dataEnd, this`firstOffset, this`buffer, this`source, this`hasMoreData, this`currentNode, this`tempAttrName, this`readingOffset
      ensures Run(o, St()) == AttributesOf(old(St()))
    {
      ghost var s0 := St();
      while true
        invariant Fine(St()) && currentNode.Some? && currentNode.value.OpeningNode?
        invariant AttributesOf(s0) == AttributesOf(St())
        decreases Left(St())
      {
        ghost var g := St();
        var p, d := Peek();
        if p.Thrown? {
          return Thrown(p.error);
        }
        PeekFacts(g);
        if p.value == '/' || p.value == '>' {
          return Done(());
        }
        var t := ParseAttribute();
        if t.Thrown? {
          return Thrown(t.error);
        }
      }
    }

    /**
     * One attribute: its name, kept in `tempAttrName` so that refills shift
     * it; one character skipped for the '='; the quoted value; then white
     * space.
     */
    method ParseAttribute() returns (o: Outcome<()>)
      requires Fine(St()) && currentNode.Some? && currentNode.value.OpeningNode?
      modifies this`dataStart, this`currentPos, this`dataEnd, this`firstOffset, this`buffer, this`source, this`hasMoreData, this`currentNode, this`tempAttrName, this`readingOffset
      ensures Run(o, St()) == AttributeOf(old(St()))
    {
      var n := ParseWhileFrom(S.Name, currentPos);
      if n.Thrown? {
        return Thrown(n.error);
      }
      var name := ViewOf(n.value);
      if name.Thrown? {
        return Thrown(name.error);
      }
      tempAttrName := name.value;
      Advance();
      var v := ParseQuoted();
      if v.Thrown? {
        return Thrown(v.error);
      }
      currentNode := Some(currentNode.value.(attributes := currentNode.value.attributes + [(tempAttrName, v.value)]));
      tempAttrName := NullView;
      var k, d := SkipWhitespace();
      if k.Thrown? {
        return Thrown(k.error);
      }
      return Done(());
    }

    /** A quoted value: the quote `peek` finds, skipped; `parseUntil` that quote; the closing quote, skipped. */
    method ParseQuoted() returns (o: Outcome<View>)
      requires Fine(St())
      modifies this`dataStart, this`currentPos, this`dataEnd, this`firstOffset, this`buffer, this`source, this`hasMoreData, this`currentNode, this`tempAttrName, this`readingOffset
      ensures Run(o, St()) == QuotedOf(old(St()))
    {
      ghost var s := St();
      var q, d := Peek();
      if q.Thrown? {
        return Thrown(q.error);
      }
      PeekFacts(s);
      Advance();
      AdvanceFacts(PeekOf(s).state);
      var v := ParseWhileFrom(S.Char(q.value), currentPos);
      if v.Thrown? {
        return Thrown(v.error);
      }
      o := ViewOf(v.value);
      if o.Done? {
        Advance();
      }
    }

    /**
     * The end of `parseOpeningNode`: an empty node when `peek` finds '/',
     * which is skipped; then one character skipped for the '>', without a
     * `peek`; the node is handed out.
     */
    method ParseOpeningEnd() returns (o: Outcome<Node>)
      requires Fine(St()) && currentNode.Some? && currentNode.value.OpeningNode?
      modifies this`dataStart, this`currentPos, this`dataEnd, this`firstOffset, this`buffer, this`source, this`hasMoreData, this`currentNode, this`tempAttrName, this`readingOffset, this`lastNodeWasOpening
      ensures Run(o, St()) == OpeningEndOf(old(St()))
      ensures lastNodeWasOpening == (o.Done? || old(lastNodeWasOpening))
    {
      ghost var s := St();
      var p, d := Peek();
      if p.Thrown? {
        return Thrown(p.error);
      }
      PeekFacts(s);
      if p.value == '/' {
        currentNode := Some(currentNode.value.(empty := true));
        Advance();
      }
      Advance();
      var node := currentNode.value;
      currentNode := None;
      lastNodeWasOpening := true;
      return Done(node);
    }

    /** `parseClosingNode`, on the '/' after the '<': skip it, read the name, skip one character for the '>'. */
    method ParseClosingNode() returns (o: Outcome<Node>)
      requires Fine(St())
      modifies this`dataStart, this`currentPos, this`dataEnd, this`firstOffset, this`buffer, this`source, this`hasMoreData, this`currentNode, this`tempAttrName, this`readingOffset, this`lastNodeWasOpening
      ensures Run(o, St()) == ClosingOf(old(St()))
      ensures lastNodeWasOpening == (old(lastNodeWasOpening) && o.Thrown?)
    {
      Advance();
      dataStart := currentPos;
      currentNode := Some(ClosingNode(NullView));
      var n := ParseWhileFrom(S.Name, currentPos);
      if n.Thrown? {
        return Thrown(n.error);
      }
      var v := ViewOf(n.value);
      if v.Thrown? {
        return Thrown(v.error);
      }
      Advance();
      currentNode := None;
      lastNodeWasOpening := false;
      return Done(ClosingNode(v.value));
    }

    /**
     * `parseTextNode`: the text up to the next '<'; `None` for text that is
     * all white space, which is dropped.
     */
    method ParseTextNode() returns (o: Outcome<Option<Node>>)
      requires Fine(St())
      modifies this`dataStart, this`currentPos, this`dataEnd, this`firstOffset, this`buffer, this`source, this`hasMoreData, this`currentNode, this`tempAttrName, this`readingOffset, this`lastNodeWasOpening
      ensures Run(o, St()) == TextOf(old(St()))
      ensures lastNodeWasOpening == (old(lastNodeWasOpening) && o.Thrown?)
    {
      dataStart := currentPos;
      currentNode := Some(TextNode(NullView));
      var t := ParseWhileFrom(S.Char('<'), currentPos);
      if t.Thrown? {
        return Thrown(t.error);
      }
      var v := ViewOf(t.value);
      if v.Thrown? {
        return Thrown(v.error);
      }
      currentNode := None;
      if !ViewIn(v.value, 0, |buffer|) {
        return Thrown(S.Undefined);
      }
      lastNodeWasOpening := false;
      if AllSpace(ViewText(buffer, v.value)) {
        return Done(None);
      }
      return Done(Some(TextNode(v.value)));
    }

    /** `ignoreNodeEnd`: everything up to the next '>', and the '>'. */
    method IgnoreNodeEnd() returns (o: Outcome<()>)
      requires Fine(St())
      modifies this`dataStart, this`currentPos, this`dataEnd, this`firstOffset, this`buffer, this`source, this`hasMoreData, this`currentNode, this`tempAttrName, this`readingOffset
      ensures Run(o, St()) == IgnoreEndOf(old(St()))
    {
      var n := ParseWhileFrom(S.Char('>'), currentPos);
      if n.Thrown? {
        return Thrown(n.error);
      }
      Advance();
      return Done(());
    }

    /**
     * `ignoreSpecialXML`, on the '!' after the '<': a comment, a CDATA
     * section or another declaration. The value says whether it was a
     * comment, after which `lastNodeWasOpening` is set.
     */
    method IgnoreSpecialXML() returns (o: Outcome<bool>)
      requires Fine(St())
      modifies this`dataStart, this`currentPos, this`dataEnd, this`firstOffset, this`buffer, this`source, this`hasMoreData, this`currentNode, this`tempAttrName, this`readingOffset, this`lastNodeWasOpening
      ensures Run(o, St()) == SpecialOf(old(St()))
      ensures lastNodeWasOpening == (old(lastNodeWasOpening) || (o.Done? && o.value))
    {
      hide DashOf, RefillOf;
      ghost var s := St();
      Advance();
      AdvanceFacts(s);
      ghost var s1 := St();
      var p, d := Peek();
      if p.Thrown? {
        return Thrown(p.error);
      }
      PeekFacts(s1);
      if p.value == '-' {
        o := IgnoreDashes();
      } else if p.value == '[' {
        o := IgnoreCdata();
      } else {
        var e := IgnoreNodeEnd();
        o := if e.Thrown? then Thrown(e.error) else Done(false);
      }
    }

    /** After "<!-": a second '-' starts a comment, which is skipped up to its end; anything else ends here. */
    method IgnoreDashes() returns (o: Outcome<bool>)
      requires Fine(St())
      modifies this`dataStart, this`currentPos, this`dataEnd, this`firstOffset, this`buffer, this`source, this`hasMoreData, this`currentNode, this`tempAttrName, this`readingOffset, this`lastNodeWasOpening
      ensures Run(o, St()) == DashOf(old(St()))
      ensures lastNodeWasOpening == (old(lastNodeWasOpening) || (o.Done? && o.value))
    {
      ghost var s := St();
      Advance();
      AdvanceFacts(s);
      ghost var s1 := St();
      var q, d := Peek();
      if q.Thrown? {
        return Thrown(q.error);
      }
      PeekFacts(s1);
      if q.value != '-' {
        return Done(false);
      }
      ghost var s2 := St();
      Advance();
      AdvanceFacts(s2);
      var c := SkipComment();
      if c.Thrown? {
        return Thrown(c.error);
      }
      var e := IgnoreNodeEnd();
      if e.Thrown? {
        return Thrown(e.error);
      }
      lastNodeWasOpening := true;
      return Done(true);
    }

    /** The loop over a comment: `parseUntil('-')` and skip it, until `peek` finds a second '-' or the buffer is consumed. */
    method SkipComment() returns (o: Outcome<()>)
      requires Fine(St())
      modifies this`dataStart, this`currentPos, this`dataEnd, this`firstOffset, this`buffer, this`source, this`hasMoreData, this`currentNode, this`tempAttrName, this`readingOffset
      ensures Run(o, St()) == CommentOf(old(St()))
    {
      ghost var s0 := St();
      while true
        invariant Fine(St()) && CommentOf(s0) == CommentOf(St())
        decreases Left(St())
      {
        ghost var g := St();
        var n := ParseWhileFrom(S.Char('-'), currentPos);
        if n.Thrown? {
          return Thrown(n.error);
        }
        ghost var ns := St();
        Advance();
        AdvanceFacts(ns);
        ghost var a := St();
        var p, d := Peek();
        if p.Thrown? {
          return Thrown(p.error);
        }
        PeekFacts(a);
        if p.value == '-' || currentPos == dataEnd {
          return Done(());
        }
      }
    }

    /** After "<![": everything up to the first ']', then `ignoreNodeEnd`. */
    method IgnoreCdata() returns (o: Outcome<bool>)
      requires Fine(St())
      modifies this`dataStart, this`currentPos, this`dataEnd, this`firstOffset, this`buffer, this`source, this`hasMoreData, this`currentNode, this`tempAttrName, this`readingOffset
      ensures Run(o, St()) == CdataOf(old(St()))
    {
      var n := ParseWhileFrom(S.Char(']'), currentPos);
      if n.Thrown? {
        return Thrown(n.error);
      }
      var e := IgnoreNodeEnd();
      o := if e.Thrown? then Thrown(e.error) else Done(false);
    }

    /**
     * `readNode`: turns of its loop until one hands out a node, which comes
     * with the new `lastNodeWasOpening`.
     */
    method ReadNode() returns (o: Outcome<Node>)
      requires Fine(St()) && currentNode.None?
      modifies this`dataStart, this`currentPos, this`dataEnd, this`firstOffset, this`buffer, this`source, this`hasMoreData, this`currentNode, this`tempAttrName, this`readingOffset, this`lastNodeWasOpening
      ensures o.Done? ==> ReadNodeOf(old(St()), old(lastNodeWasOpening)) == Run(Done((o.value, lastNodeWasOpening)), St())
      ensures o.Thrown? ==> ReadNodeOf(old(St()), old(lastNodeWasOpening)) == Run(Thrown(o.error), St())
    {
      ghost var s0, f0 := St(), lastNodeWasOpening;
      while true
        invariant Fine(St()) && currentNode.None?
        invariant ReadNodeOf(s0, f0) == ReadNodeOf(St(), lastNodeWasOpening)
        decreases Left(St())
      {
        var t := ReadTurn();
        if t.Thrown? {
          return Thrown(t.error);
        }
        if t.value.Emit? {
          return Done(t.value.node);
        }
      }
    }

    /**
     * One turn of `readNode`: skip white space (after anything but an
     * opening node) or refill a consumed buffer; the end of the data; else
     * the character at hand.
     */
    method ReadTurn() returns (t: Outcome<Turn>)
      requires Fine(St()) && currentNode.None?
      modifies this`dataStart, this`currentPos, this`dataEnd, this`firstOffset, this`buffer, this`source, this`hasMoreData, this`currentNode, this`tempAttrName, this`readingOffset, this`lastNodeWasOpening
      ensures Run(t, St()) == TurnOf(old(St()), old(lastNodeWasOpening))
      ensures t.Done? ==> lastNodeWasOpening == t.value.opening
    {
      hide CharTurnOf, SkipOf, RefillOf, PeekOf, TagOf, TextOf;
      ghost var s := St();
      if !lastNodeWasOpening {
        var k, d := SkipWhitespace();
        if k.Thrown? {
          return Thrown(k.error);
        }
        SkipFacts(s);
      } else if currentPos == dataEnd {
        var r := RefillBuffer();
        if r.Thrown? {
          return Thrown(r.error);
        }
        OxmlParse.RefillFacts(s);
      }
      if currentPos == dataEnd && !hasMoreData {
        return Done(Emit(EndNode, lastNodeWasOpening));
      }
      t := CharTurn();
    }

    /** A turn on a character in the buffer: a tag after '<' (or '\0'), a text node after an opening node, or an error. */
    method CharTurn() returns (t: Outcome<Turn>)
      requires Fine(St()) && currentNode.None? && currentPos < dataEnd
      modifies this`dataStart, this`currentPos, this`dataEnd, this`firstOffset, this`buffer, this`source, this`hasMoreData, this`currentNode, this`tempAttrName, this`readingOffset, this`lastNodeWasOpening
      ensures Run(t, St()) == CharTurnOf(old(St()), old(lastNodeWasOpening))
      ensures t.Done? ==> lastNodeWasOpening == t.value.opening
    {
      ghost var p := St();
      var c, d := Peek();
      assert c == Done(CharAt(p)) && St() == p;
      if c.value == '<' || c.value == '\0' {
        Advance();
        AdvanceFacts(p);
        t := TagTurn();
      } else if lastNodeWasOpening {
        var x := ParseTextNode();
        if x.Thrown? {
          return Thrown(x.error);
        }
        if x.value.Some? {
          return Done(Emit(x.value.value, false));
        }
        return Done(Again(false));
      } else {
        return Thrown(S.UnexpectedChar(c.value));
      }
    }

    /** After a '<': a closing node, a prolog (ignored), a special node (ignored) or an opening node, by what `peek` finds. */
    method TagTurn() returns (t: Outcome<Turn>)
      requires Fine(St()) && currentNode.None?
      modifies this`dataStart, this`currentPos, this`dataEnd, this`firstOffset, this`buffer, this`source, this`hasMoreData, this`currentNode, this`tempAttrName, this`readingOffset, this`lastNodeWasOpening
      ensures Run(t, St()) == TagOf(old(St()), old(lastNodeWasOpening))
      ensures t.Done? ==> lastNodeWasOpening == t.value.opening
    {
      ghost var a := St();
      var q, d := Peek();
      if q.Thrown? {
        return Thrown(q.error);
      }
      PeekFacts(a);
      if q.value == '/' {
        var c := ParseClosingNode();
        if c.Thrown? {
          return Thrown(c.error);
        }
        return Done(Emit(c.value, false));
      } else if q.value == '?' {
        var e := IgnoreNodeEnd();
        if e.Thrown? {
          return Thrown(e.error);
        }
        return Done(Again(lastNodeWasOpening));
      } else if q.value == '!' {
        var e := IgnoreSpecialXML();
        if e.Thrown? {
          return Thrown(e.error);
        }
        return Done(Again(lastNodeWasOpening));
      } else {
        var n := ParseOpeningNode();
        if n.Thrown? {
          return Thrown(n.error);
        }
        return Done(Emit(n.value, true));
      }
    }

    /**
     * `nullTerminate`: writes '\0' just past a view and returns where the
     * view starts; a view that starts before the buffer or leaves no slot
     * after it in the buffer throws.
     */
    method NullTerminate(v: View) returns (o: Outcome<int>)
      modifies this`buffer
      ensures NullTerminateOf(old(buffer), v) == if o.Thrown? then Thrown(o.error) else Done(buffer)
      ensures o.Done? ==> o.value == v.start
      ensures o.Thrown? ==> buffer == old(buffer)
    {
      if v.start < 0 || v.start + v.size >= |buffer| {
        return Thrown(S.OutsideBuffer);
      }
      buffer := buffer[v.start + v.size := '\0'];
      return Done(v.start);
    }
  }
}
