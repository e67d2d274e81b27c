/**
 * The two helpers the XML reader relies on when it rewrites a numeric
 * character reference (section 4.1 of XML 1.0) in place:
 *
 *  - `FromChars`: `std::from_chars` into a 32-bit unsigned code point, in
 *    base 10 or 16. It reads the longest run of digits. When there is no
 *    digit, or the value does not fit in 32 bits, it leaves the target
 *    untouched, and the target was zero-initialised.
 *  - `Encode`: the UTF-8 encoding of a code point, as in section 3 of
 *    RFC 3629. Code points above U+10FFFF, which RFC 3629 excludes but a
 *    32-bit value can hold, use the 5- and 6-byte forms of the original
 *    UTF-8 definition.
 *
 * Bytes are represented as characters below U+0100.
 */
module Utf8 {

  import opened Chars

  const Limit32: nat := 0x1_0000_0000

  predicate IsBase(base: nat)
  {
    base == 10 || base == 16
  }

  /** The value of `c` as a digit of `base`, or -1 when it is not one. Hex digits may be upper or lower case. */
  function DigitValue(c: char, base: nat): int
    requires IsBase(base)
  {
    if '0' <= c <= '9' then c as int - '0' as int
    else if base == 16 && 'a' <= c <= 'f' then c as int - 'a' as int + 10
    else if base == 16 && 'A' <= c <= 'F' then c as int - 'A' as int + 10
    else -1
  }

  predicate IsDigitOf(c: char, base: nat)
    requires IsBase(base)
  {
    DigitValue(c, base) >= 0
  }

  predicate AllDigits(s: seq<char>, base: nat)
    requires IsBase(base)
  {
    forall i :: 0 <= i < |s| ==> IsDigitOf(s[i], base)
  }

  /** Length of the longest prefix of `s` made of digits of `base`. */
  function DigitRun(s: seq<char>, base: nat): (n: nat)
    requires IsBase(base)
    ensures n <= |s|
    ensures AllDigits(s[..n], base)
    ensures n < |s| ==> !IsDigitOf(s[n], base)
  {
    if s == [] || !IsDigitOf(s[0], base) then 0
    else
      var n := DigitRun(s[1..], base);
      assert s[..n + 1] == [s[0]] + s[1..][..n];
      n + 1
  }

  /** The number a string of digits denotes. */
  function ValueOf(s: seq<char>, base: nat): nat
    requires IsBase(base) && AllDigits(s, base)
  {
    if s == [] then 0 else ValueOf(s[..|s| - 1], base) * base + DigitValue(s[|s| - 1], base)
  }

  function Pow(b: nat, n: nat): nat
  {
    if n == 0 then 1 else b * Pow(b, n - 1)
  }

  /** `std::from_chars` into a `gunichar` that starts out as 0. */
  function FromChars(s: seq<char>, base: nat): (cp: nat)
    requires IsBase(base)
    ensures cp < Limit32
  {
    var n := DigitRun(s, base);
    if n == 0 then 0
    else
      var v := ValueOf(s[..n], base);
      if v < Limit32 then v else 0
  }

  /** Number of bytes the encoding of `cp` takes. */
  function EncodedLength(cp: nat): (n: nat)
    ensures 1 <= n <= 6
  {
    if cp < 0x80 then 1
    else if cp < 0x800 then 2
    else if cp < 0x1_0000 then 3
    else if cp < 0x20_0000 then 4
    else if cp < 0x400_0000 then 5
    else 6
  }

  /** The marker bits of a lead byte that starts an encoding of `n` bytes. */
  function LeadMark(n: nat): nat
  {
    match n
    case 1 => 0
    case 2 => 0xC0
    case 3 => 0xE0
    case 4 => 0xF0
    case 5 => 0xF8
    case _ => 0xFC
  }

  /** 64 to the power `k`, for the at most five continuation bytes of an encoding. */
  function Pow64(k: nat): nat
  {
    match k
    case 0 => 1
    case 1 => 64
    case 2 => 4096
    case 3 => 262144
    case 4 => 16777216
    case _ => 1073741824
  }

  /** The `k` continuation bytes (`10xxxxxx`) that carry the low `6k` bits of `cp`, most significant first. */
  function Continuation(cp: nat, k: nat): (s: seq<char>)
    ensures |s| == k
    ensures forall i :: 0 <= i < k ==> '\U{0080}' <= s[i] < '\U{00C0}'
  {
    if k == 0 then [] else Continuation(cp / 64, k - 1) + [(0x80 + cp % 64) as char]
  }

  function Encode(cp: nat): (s: seq<char>)
    requires cp < Limit32
    ensures |s| == EncodedLength(cp)
  {
    var n := EncodedLength(cp);
    LeadBound(cp);
    [(LeadMark(n) + cp / Pow64(n - 1)) as char] + Continuation(cp, n - 1)
  }

  lemma LeadBound(cp: nat)
    requires cp < Limit32
    ensures LeadMark(EncodedLength(cp)) + cp / Pow64(EncodedLength(cp) - 1) < 0x100
  {
  }

  /** Length of the encoding a lead byte announces; 0 for a byte that cannot start one. */
  function LengthOfLead(b: nat): nat
  {
    if b < 0x80 then 1
    else if b < 0xC0 then 0
    else if b < 0xE0 then 2
    else if b < 0xF0 then 3
    else if b < 0xF8 then 4
    else if b < 0xFC then 5
    else 6
  }

  /** The bits carried by a run of continuation bytes, or None when one of them is not `10xxxxxx`. */
  function ContinuationValue(s: seq<char>): Option<nat>
  {
    if s == [] then Some(0)
    else if !('\U{0080}' <= s[|s| - 1] < '\U{00C0}') then None
    else
      match ContinuationValue(s[..|s| - 1])
      case None => None
      case Some(v) => Some(v * 64 + (s[|s| - 1] as int - 0x80))
  }

  /** Decoder for one encoded code point; the partner of `Encode`. */
  function Decode(s: seq<char>): Option<nat>
  {
    if s == [] || s[0] as int >= 0x100 then None
    else
      var n := LengthOfLead(s[0] as int);
      if n == 0 || |s| != n then None
      else
        match ContinuationValue(s[1..])
        case None => None
        case Some(v) => Some((s[0] as int - LeadMark(n)) * Pow64(n - 1) + v)
  }

  lemma {:induction false} ContinuationRoundTrip(cp: nat, k: nat)
    requires k <= 5
    ensures ContinuationValue(Continuation(cp, k)) == Some(cp % Pow64(k))
  {
    if k > 0 {
      ContinuationRoundTrip(cp / 64, k - 1);
      ContinuationStep(cp, k, (cp / 64) % Pow64(k - 1));
      PowStep(k);
      hide *;
      DivModStep(cp, Pow64(k - 1));
    } else {
      assert Continuation(cp, 0) == [] && Pow64(0) == 1;
    }
  }

  /** One more continuation byte adds its six bits below the others. */
  lemma ContinuationStep(cp: nat, k: nat, v: nat)
    requires 0 < k && ContinuationValue(Continuation(cp / 64, k - 1)) == Some(v)
    ensures ContinuationValue(Continuation(cp, k)) == Some(v * 64 + cp % 64)
  {
    var s := Continuation(cp, k);
    assert s[..|s| - 1] == Continuation(cp / 64, k - 1);
  }

  lemma PowStep(k: nat)
    requires 0 < k <= 5
    ensures Pow64(k) == 64 * Pow64(k - 1)
    ensures Pow64(k - 1) == Pow64(0) || Pow64(k - 1) == Pow64(1) || Pow64(k - 1) == Pow64(2) || Pow64(k - 1) == Pow64(3) || Pow64(k - 1) == Pow64(4)
  {
  }

  /** `(cp / 64) % p * 64 + cp % 64 == cp % (64 * p)`, for the powers of 64 an encoding uses. */
  lemma DivModStep(cp: nat, p: nat)
    requires p == Pow64(0) || p == Pow64(1) || p == Pow64(2) || p == Pow64(3) || p == Pow64(4)
    ensures (cp / 64) % p * 64 + cp % 64 == cp % (64 * p)
  {
    if p == 64 {
      DivModStep64(cp);
    } else if p == 4096 {
      DivModStep4096(cp);
    } else if p == 262144 {
      DivModStep262144(cp);
    } else if p == 16777216 {
      DivModStep16777216(cp);
    }
  }

  lemma DivModStep64(cp: nat)
    ensures (cp / 64) % 64 * 64 + cp % 64 == cp % 4096
  {
    var q := cp / 64;
    ModOf(cp, 4096, q / 64, q % 64 * 64 + cp % 64);
  }

  lemma DivModStep4096(cp: nat)
    ensures (cp / 64) % 4096 * 64 + cp % 64 == cp % 262144
  {
    var q := cp / 64;
    ModOf(cp, 262144, q / 4096, q % 4096 * 64 + cp % 64);
  }

  lemma DivModStep262144(cp: nat)
    ensures (cp / 64) % 262144 * 64 + cp % 64 == cp % 16777216
  {
    var q := cp / 64;
    ModOf(cp, 16777216, q / 262144, q % 262144 * 64 + cp % 64);
  }

  lemma DivModStep16777216(cp: nat)
    ensures (cp / 64) % 16777216 * 64 + cp % 64 == cp % 1073741824
  {
    var q := cp / 64;
    ModOf(cp, 1073741824, q / 16777216, q % 16777216 * 64 + cp % 64);
  }

  /** The remainder is the `t` of any `x == k * n + t` with `0 <= t < n`. */
  lemma ModOf(x: int, n: int, k: int, t: int)
    requires n > 0 && 0 <= t < n && x == k * n + t
    ensures x % n == t
  {
    var k2, r := x / n, x % n;
    assert x == k2 * n + r && 0 <= r < n;
    assert (k - k2) * n == r - t;
    if k > k2 {
      MulAtLeast(k - k2, n);
    } else if k < k2 {
      MulAtLeast(k2 - k, n);
    }
  }

  lemma MulAtLeast(a: int, n: int)
    requires a >= 1 && n > 0
    ensures a * n >= n
  {
    assert a * n == n + (a - 1) * n;
  }

  /** Decoding an encoded code point gives it back. */
  lemma {:induction false} DecodeEncode(cp: nat)
    requires cp < Limit32
    ensures Decode(Encode(cp)) == Some(cp)
  {
    var n := EncodedLength(cp);
    var s := Encode(cp);
    var p := Pow64(n - 1);
    LeadBound(cp);
    var lead := LeadMark(n) + cp / p;
    assert s[0] as int == lead;
    assert LengthOfLead(lead) == n;
    assert s[1..] == Continuation(cp, n - 1);
    ContinuationRoundTrip(cp, n - 1);
    DecodeParts(s, n, cp % p);
    assert (lead - LeadMark(n)) * p + cp % p == cp;
  }

  /** A lead byte announcing `n` characters followed by continuations worth `v` decodes to the lead's bits above `v`. */
  lemma DecodeParts(s: seq<char>, n: nat, v: nat)
    requires s != [] && s[0] as int < 0x100 && LengthOfLead(s[0] as int) == n && n > 0 && |s| == n
    requires ContinuationValue(s[1..]) == Some(v)
    ensures Decode(s) == Some((s[0] as int - LeadMark(n)) * Pow64(n - 1) + v)
  {
  }

  lemma {:induction false} ValueBound(s: seq<char>, base: nat)
    requires IsBase(base) && AllDigits(s, base)
    ensures ValueOf(s, base) < Pow(base, |s|)
  {
    if s != [] {
      var p := s[..|s| - 1];
      ValueBound(p, base);
      var d := DigitValue(s[|s| - 1], base);
      assert d < base;
      assert ValueOf(p, base) + 1 <= Pow(base, |p|);
      calc {
        ValueOf(s, base);
        == ValueOf(p, base) * base + d;
        < ValueOf(p, base) * base + base;
        == (ValueOf(p, base) + 1) * base;
        <= Pow(base, |p|) * base;
      }
    }
  }

  lemma {:induction false} PowMonotone(n: nat)
    ensures Pow(10, n) <= Pow(16, n)
  {
    if n > 0 {
      PowMonotone(n - 1);
    }
  }

  /**
   * A numeric reference written with `k >= 1` digit characters never encodes
   * to more than `k + 1` bytes, so the rewritten text always fits in the room
   * the reference took.
   */
  lemma FromCharsFits(s: seq<char>, base: nat)
    requires IsBase(base) && |s| >= 1
    ensures EncodedLength(FromChars(s, base)) <= |s| + 1
  {
    var n := DigitRun(s, base);
    if n > 0 && n < 5 {
      var v := ValueOf(s[..n], base);
      ValueBound(s[..n], base);
      PowMonotone(n);
      assert v < Pow(16, n);
      assert Pow(16, 1) == 16 && Pow(16, 2) == 256 && Pow(16, 3) == 4096 && Pow(16, 4) == 65536;
    }
  }
}
