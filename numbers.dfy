/**
 * Number lists in attribute values and stroke text, read with
 * `g_ascii_strtod`.
 *
 * The C routine is a parameter here: for a text it gives the number read and
 * how many characters it consumed, 0 when no number starts the text (then
 * `endPtr == nptr`). Whatever it does with leading white space, exponents or
 * special values stays inside that parameter; the loops of the loader only
 * look at the count.
 */
module Numbers {

  /** The result of `g_ascii_strtod` on a text: the value and the number of characters consumed. */
  datatype Scan = Scan(value: real, used: nat)

  /** A number reader; it never consumes more than its input. */
  type NumberReader = f: string -> Scan | forall s: string :: f(s).used <= |s|
    witness (s: string) => Scan(0.0, 0)

  /**
   * The numbers read one after another from `s` until the text is used up or
   * a number cannot be read: the pressures of `XmlParser::parseStrokeTag`
   * and the coordinates of the legacy stroke text in `LoadHandler::parserText`.
   */
  function Tokens(f: NumberReader, s: string): seq<real>
    decreases |s|
  {
    if s == [] then []
    else
      var t := f(s);
      if t.used == 0 then [] else [t.value] + Tokens(f, s[t.used..])
  }

  /**
   * The coordinate pairs of `XmlParser::parseStrokeText`: read x, then read y
   * from where x ended, and stop as soon as y cannot be read. Only the second
   * read is checked: a failed first read leaves the text where it was, so the
   * second read fails too.
   */
  function Pairs(f: NumberReader, s: string): seq<(real, real)>
    decreases |s|
  {
    if s == [] then []
    else
      var x := f(s);
      var s1 := s[x.used..];
      var y := f(s1);
      if y.used == 0 then [] else [(x.value, y.value)] + Pairs(f, s1[y.used..])
  }

  /** Consecutive values taken two at a time; an odd last value is dropped. */
  function PairUp(v: seq<real>): (r: seq<(real, real)>)
    ensures |r| == |v| / 2
    ensures forall i :: 0 <= i < |r| ==> r[i] == (v[2 * i], v[2 * i + 1])
  {
    if |v| < 2 then [] else [(v[0], v[1])] + PairUp(v[2..])
  }

  /**
   * Reading pairs is reading the number list and pairing it up: the single
   * check in `parseStrokeText` loses no error, and its points are exactly
   * those of the number list the legacy parser reads.
   */
  lemma {:induction false} PairsAreTokens(f: NumberReader, s: string)
    ensures Pairs(f, s) == PairUp(Tokens(f, s))
    decreases |s|
  {
    if s != [] {
      var x := f(s);
      var s1 := s[x.used..];
      if x.used == 0 {
        assert s1 == s;
      } else if s1 == [] {
        assert f(s1).used <= |s1|;
        assert Tokens(f, s1) == [];
      } else {
        var y := f(s1);
        assert y.used <= |s1|;
        if y.used != 0 {
          PairsAreTokens(f, s1[y.used..]);
          var v := Tokens(f, s);
          assert v == [x.value, y.value] + Tokens(f, s1[y.used..]);
          assert v[2..] == Tokens(f, s1[y.used..]);
        }
      }
    }
  }

  /** Every number read consumed at least one character, so there are at most as many numbers as characters. */
  lemma {:induction false} TokensBound(f: NumberReader, s: string)
    ensures |Tokens(f, s)| <= |s|
    decreases |s|
  {
    if s != [] {
      var t := f(s);
      if t.used != 0 {
        TokensBound(f, s[t.used..]);
      }
    }
  }

  /** The pressure loop of `XmlParser::parseStrokeTag`: read numbers until the text ends or one cannot be read. */
  method ReadNumbers(f: NumberReader, text: string) returns (v: seq<real>)
    ensures v == Tokens(f, text)
  {
    v := [];
    var rest := text;
    while rest != []
      invariant v + Tokens(f, rest) == Tokens(f, text)
      decreases |rest|
    {
      var t := f(rest);
      if t.used == 0 {
        break;
      }
      v, rest := v + [t.value], rest[t.used..];
    }
  }

  /** The loop of `XmlParser::parseStrokeText`: read x, then y, until the text ends or a y cannot be read. */
  method ReadPairs(f: NumberReader, text: string) returns (points: seq<(real, real)>)
    ensures points == Pairs(f, text)
  {
    points := [];
    var rest := text;
    while rest != []
      invariant points + Pairs(f, rest) == Pairs(f, text)
      decreases |rest|
    {
      var x := f(rest);
      var afterX := rest[x.used..];
      var y := f(afterX);
      if y.used == 0 {
        break;
      }
      points, rest := points + [(x.value, y.value)], afterX[y.used..];
    }
  }
}
