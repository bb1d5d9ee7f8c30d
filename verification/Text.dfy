/**
 Strings as their UTF-8 bytes: well-formedness, splitting at an ASCII byte,
 the byte order used by ordered maps, and decimal numbers.
 */
module Text {
  import opened Prelude

  const PLUS: Byte := 0x2B
  const DASH: Byte := 0x2D
  const DOT: Byte := 0x2E
  const COLON: Byte := 0x3A
  const AT: Byte := 0x40
  const UNDERSCORE: Byte := 0x5F

  /** The bytes of a literal. */
  function Ascii(s: string): (b: Bytes)
    ensures |b| == |s| && forall i :: 0 <= i < |s| ==> b[i] as int == s[i] as int % 256
  {
    seq(|s|, i requires 0 <= i < |s| => (s[i] as int % 256) as Byte)
  }

  // ----- UTF-8 ---------------------------------------------------------------

  predicate Continuation(b: Byte) {
    0x80 <= b <= 0xBF
  }

  /** Length of the well-formed character that starts `s`, or 0 when there is none. */
  function CharLength(s: Bytes): (n: nat)
    requires s != []
    ensures n <= |s|
    ensures forall k :: 1 <= k < n ==> s[k] >= 0x80
    ensures s[0] < 0x80 <==> n == 1
  {
    var b := s[0];
    if b < 0x80 then 1
    else if 0xC2 <= b <= 0xDF && |s| >= 2 && Continuation(s[1]) then 2
    else if 0xE0 <= b <= 0xEF && |s| >= 3 && Continuation(s[1]) && Continuation(s[2])
            && (b == 0xE0 ==> s[1] >= 0xA0) && (b == 0xED ==> s[1] <= 0x9F) then 3
    else if 0xF0 <= b <= 0xF4 && |s| >= 4 && Continuation(s[1]) && Continuation(s[2]) && Continuation(s[3])
            && (b == 0xF0 ==> s[1] >= 0x90) && (b == 0xF4 ==> s[1] <= 0x8F) then 4
    else 0
  }

  predicate Utf8(s: Bytes)
    decreases |s|
  {
    s == [] || (CharLength(s) > 0 && Utf8(s[CharLength(s)..]))
  }

  /** More text after a complete character does not change its length. */
  lemma CharLengthExtend(s: Bytes, t: Bytes)
    requires s != []
    ensures CharLength(s) > 0 ==> CharLength(s + t) == CharLength(s)
    ensures t != [] && t[0] < 0x80 ==> CharLength(s + t) == CharLength(s)
  {
    var u := s + t;
    assert forall k :: 0 <= k < |s| ==> u[k] == s[k];
    if t != [] && t[0] < 0x80 {
      assert u[|s|] == t[0];
    }
  }

  lemma {:induction false} Utf8Concat(s: Bytes, t: Bytes)
    requires Utf8(s) && Utf8(t)
    ensures Utf8(s + t)
    decreases |s|
  {
    if s == [] {
      assert s + t == t;
    } else {
      Utf8Concat(s[CharLength(s)..], t);
      Utf8Step(s, t, CharLength(s));
    }
  }

  /** A character, and well-formed text after it. */
  lemma Utf8Step(s: Bytes, t: Bytes, n: nat)
    requires s != [] && 0 < n == CharLength(s) && Utf8(s[n..] + t)
    ensures Utf8(s + t)
  {
    CharLengthExtend(s, t);
    assert (s + t)[n..] == s[n..] + t;
  }

  /** Cutting well-formed text at an ASCII byte leaves two well-formed halves. */
  lemma {:induction false} Utf8Cut(a: Bytes, c: Byte, b: Bytes)
    requires c < 0x80
    requires Utf8(a + [c] + b)
    ensures Utf8(a) && Utf8(b)
    decreases |a|
  {
    if a == [] {
      assert (a + [c] + b)[0] == c && (a + [c] + b)[1..] == b;
    } else {
      var n := CharLength(a);
      Utf8CutStep(a, c, b);
      Utf8Cut(a[n..], c, b);
    }
  }

  lemma Utf8CutStep(a: Bytes, c: Byte, b: Bytes)
    requires a != [] && c < 0x80 && Utf8(a + [c] + b)
    ensures CharLength(a) > 0 && Utf8(a[CharLength(a)..] + [c] + b)
  {
    assert a + [c] + b == a + ([c] + b);
    CharLengthExtend(a, [c] + b);
    var n := CharLength(a);
    assert (a + [c] + b)[n..] == a[n..] + [c] + b;
  }

  predicate IsAscii(s: Bytes) {
    forall i :: 0 <= i < |s| ==> s[i] < 0x80
  }

  lemma {:induction false} AsciiIsUtf8(s: Bytes)
    requires IsAscii(s)
    ensures Utf8(s)
    decreases |s|
  {
    if s != [] {
      AsciiIsUtf8(s[1..]);
    }
  }

  // ----- Splitting -----------------------------------------------------------

  /** `str::split_once` on a single ASCII character: cut at its first occurrence. */
  function SplitOnce(s: Bytes, c: Byte): (r: Option<(Bytes, Bytes)>)
    ensures r.None? <==> c !in s
    ensures r.Some? ==> s == r.value.0 + [c] + r.value.1 && c !in r.value.0
    decreases |s|
  {
    if s == [] then None
    else if s[0] == c then
      assert s == [] + [c] + s[1..];
      Some(([], s[1..]))
    else
      match SplitOnce(s[1..], c)
      case None =>
        assert s == [s[0]] + s[1..];
        None
      case Some(p) =>
        assert s == [s[0]] + s[1..];
        Some(([s[0]] + p.0, p.1))
  }

  /** A string has only one cut at the first `c`. */
  lemma {:induction false} SplitOnceAt(a: Bytes, c: Byte, b: Bytes)
    requires c !in a
    ensures SplitOnce(a + [c] + b, c) == Some((a, b))
    decreases |a|
  {
    var s := a + [c] + b;
    if a == [] {
      assert s[1..] == b;
    } else {
      assert s[1..] == a[1..] + [c] + b;
      SplitOnceAt(a[1..], c, b);
      assert a == [a[0]] + a[1..];
    }
  }

  // ----- Byte order ----------------------------------------------------------

  /** Strict lexicographic order on bytes, the order of Rust strings. */
  predicate Less(a: Bytes, b: Bytes)
    decreases |a|
  {
    b != [] && (a == [] || a[0] < b[0] || (a[0] == b[0] && Less(a[1..], b[1..])))
  }

  lemma {:induction false} LessIrreflexive(a: Bytes)
    ensures !Less(a, a)
    decreases |a|
  {
    if a != [] {
      LessIrreflexive(a[1..]);
    }
  }

  lemma {:induction false} LessTransitive(a: Bytes, b: Bytes, c: Bytes)
    requires Less(a, b) && Less(b, c)
    ensures Less(a, c)
    decreases |a|
  {
    if a != [] && a[0] == b[0] == c[0] {
      LessTransitive(a[1..], b[1..], c[1..]);
    }
  }

  lemma LessAsymmetric(a: Bytes, b: Bytes)
    requires Less(a, b)
    ensures !Less(b, a)
  {
    LessIrreflexive(a);
    if Less(b, a) {
      LessTransitive(a, b, a);
    }
  }

  lemma {:induction false} LessTotal(a: Bytes, b: Bytes)
    ensures Less(a, b) || a == b || Less(b, a)
    decreases |a|
  {
    if a != [] && b != [] && a[0] == b[0] {
      LessTotal(a[1..], b[1..]);
      assert a == [a[0]] + a[1..] && b == [b[0]] + b[1..];
    }
  }

  // ----- Decimal numbers -----------------------------------------------------

  predicate IsDigit(b: Byte) {
    0x30 <= b <= 0x39
  }

  predicate AllDigits(s: Bytes) {
    forall i :: 0 <= i < |s| ==> IsDigit(s[i])
  }

  /** The decimal text of a number, as `Display` prints it. */
  function Decimal(n: nat): (s: Bytes)
    ensures s != [] && AllDigits(s)
  {
    if n < 10 then [(0x30 + n) as Byte] else Decimal(n / 10) + [(0x30 + n % 10) as Byte]
  }

  function DigitsValue(s: Bytes): nat
    requires AllDigits(s)
    decreases |s|
  {
    if s == [] then 0 else DigitsValue(s[..|s| - 1]) * 10 + (s[|s| - 1] as int - 0x30)
  }

  /** `str::parse::<u16>`: an optional leading '+', at least one digit, at most 65535. */
  function ParseU16(s: Bytes): (r: Option<nat>)
    ensures r.Some? ==> r.value < 0x1_0000
  {
    var digits := if s != [] && s[0] == PLUS then s[1..] else s;
    if digits != [] && AllDigits(digits) && DigitsValue(digits) < 0x1_0000
    then Some(DigitsValue(digits))
    else None
  }

  lemma {:induction false} DecimalValue(n: nat)
    ensures DigitsValue(Decimal(n)) == n
  {
    if n >= 10 {
      DecimalValue(n / 10);
      assert Decimal(n)[..|Decimal(n)| - 1] == Decimal(n / 10);
    }
  }

  /** Parsing a printed number returns it. */
  lemma ParseDecimal(n: nat)
    requires n < 0x1_0000
    ensures ParseU16(Decimal(n)) == Some(n)
  {
    DecimalValue(n);
    assert IsDigit(Decimal(n)[0]);
  }
}
