/**
 What the predicates of Text mean, without their recursion: well-formed UTF-8, the
 order of strings, and decimal numbers.
 */
module TextMeaning {
  import opened Prelude
  import opened Text

  // ----- UTF-8 (section 3 of RFC 3629) -----------------------------------------

  predicate Scalar(cp: nat) {
    cp < 0xD800 || 0xE000 <= cp < 0x11_0000
  }

  function CharBytes(cp: nat): (r: Bytes)
    requires Scalar(cp)
    ensures r != []
  {
    if cp < 0x80 then [cp as Byte]
    else if cp < 0x800 then [(0xC0 + cp / 64) as Byte, (0x80 + cp % 64) as Byte]
    else if cp < 0x1_0000 then
      [(0xE0 + cp / 4096) as Byte, (0x80 + cp / 64 % 64) as Byte, (0x80 + cp % 64) as Byte]
    else
      [(0xF0 + cp / 0x4_0000) as Byte, (0x80 + cp / 4096 % 64) as Byte, (0x80 + cp / 64 % 64) as Byte,
       (0x80 + cp % 64) as Byte]
  }

  predicate Scalars(cps: seq<nat>) {
    forall i :: 0 <= i < |cps| ==> Scalar(cps[i])
  }

  function TextBytes(cps: seq<nat>): Bytes
    requires Scalars(cps)
  {
    if cps == [] then [] else CharBytes(cps[0]) + TextBytes(cps[1..])
  }

  lemma CharRead(cp: nat, rest: Bytes)
    requires Scalar(cp)
    ensures CharLength(CharBytes(cp) + rest) == |CharBytes(cp)|
  {
    var s := CharBytes(cp) + rest;
    if cp >= 0x1_0000 {
      assert s[0] == (0xF0 + cp / 0x4_0000) as Byte && s[1] == (0x80 + cp / 4096 % 64) as Byte;
    } else if cp >= 0x800 {
      assert s[0] == (0xE0 + cp / 4096) as Byte && s[1] == (0x80 + cp / 64 % 64) as Byte;
    }
  }

  function Low(b: Byte): nat
    requires Continuation(b)
  {
    b as nat - 0x80
  }

  lemma TwoBytes(a: nat, b: nat)
    requires 2 <= a < 32 && b < 64
    ensures Scalar(a * 64 + b) && CharBytes(a * 64 + b) == [(0xC0 + a) as Byte, (0x80 + b) as Byte]
  {
  }

  lemma ThreeBytes(a: nat, b: nat, c: nat)
    requires a < 16 && b < 64 && c < 64 && (a == 0 ==> b >= 32) && (a == 13 ==> b < 32)
    ensures var cp := a * 4096 + b * 64 + c;
            Scalar(cp) && CharBytes(cp) == [(0xE0 + a) as Byte, (0x80 + b) as Byte, (0x80 + c) as Byte]
  {
    var cp := a * 4096 + b * 64 + c;
    assert cp / 64 == a * 64 + b;
    assert (a * 64 + b) % 64 == b && cp / 4096 == a;
  }

  lemma FourBytes(a: nat, b: nat, c: nat, d: nat)
    requires a < 5 && b < 64 && c < 64 && d < 64 && (a == 0 ==> b >= 16) && (a == 4 ==> b < 16)
    ensures var cp := a * 0x4_0000 + b * 4096 + c * 64 + d;
            Scalar(cp) && CharBytes(cp)
                          == [(0xF0 + a) as Byte, (0x80 + b) as Byte, (0x80 + c) as Byte, (0x80 + d) as Byte]
  {
    var cp := a * 0x4_0000 + b * 4096 + c * 64 + d;
    var q := a * 4096 + b * 64 + c;
    var p := a * 64 + b;
    assert cp / 64 == q && cp / 4096 == p && cp / 0x4_0000 == a;
    assert q % 64 == c && p % 64 == b;
  }

  /** The code point of a well-formed character. */
  lemma CharFound(s: Bytes) returns (cp: nat)
    requires s != [] && CharLength(s) > 0
    ensures Scalar(cp) && CharBytes(cp) == s[..CharLength(s)]
  {
    var n := CharLength(s);
    if n == 1 {
      cp := s[0] as nat;
    } else if n == 2 {
      var a := s[0] as nat - 0xC0;
      cp := a * 64 + Low(s[1]);
      TwoBytes(a, Low(s[1]));
    } else if n == 3 {
      var a := s[0] as nat - 0xE0;
      cp := a * 4096 + Low(s[1]) * 64 + Low(s[2]);
      ThreeBytes(a, Low(s[1]), Low(s[2]));
    } else {
      var a := s[0] as nat - 0xF0;
      cp := a * 0x4_0000 + Low(s[1]) * 4096 + Low(s[2]) * 64 + Low(s[3]);
      FourBytes(a, Low(s[1]), Low(s[2]), Low(s[3]));
    }
  }

  lemma {:induction false} TextIsUtf8(cps: seq<nat>)
    requires Scalars(cps)
    ensures Utf8(TextBytes(cps))
    decreases |cps|
  {
    if cps != [] {
      TextIsUtf8(cps[1..]);
      CharRead(cps[0], TextBytes(cps[1..]));
    }
  }

  lemma {:induction false} Utf8IsText(s: Bytes) returns (cps: seq<nat>)
    requires Utf8(s)
    ensures Scalars(cps) && TextBytes(cps) == s
    decreases |s|
  {
    if s == [] {
      cps := [];
    } else {
      var cp := CharFound(s);
      var rest := Utf8IsText(s[CharLength(s)..]);
      cps := [cp] + rest;
      assert s == s[..CharLength(s)] + s[CharLength(s)..];
    }
  }

  /** Well-formed bytes are exactly those of a sequence of Unicode scalar values. */
  lemma Utf8Iff(s: Bytes)
    ensures Utf8(s) <==> exists cps :: Scalars(cps) && TextBytes(cps) == s
  {
    if Utf8(s) {
      var cps := Utf8IsText(s);
    }
    if cps :| Scalars(cps) && TextBytes(cps) == s {
      TextIsUtf8(cps);
    }
  }

  // ----- Order -------------------------------------------------------------------

  /** The strings agree up to `n`, where the first ends or has the lower byte. */
  predicate LowerAt(a: Bytes, b: Bytes, n: nat) {
    n <= |a| && n < |b| && a[..n] == b[..n] && (n < |a| ==> a[n] < b[n])
  }

  lemma LowerCons(a: Bytes, b: Bytes, n: nat)
    requires a != [] && b != [] && a[0] == b[0]
    ensures LowerAt(a, b, n + 1) <==> LowerAt(a[1..], b[1..], n)
  {
    if n < |a| && n < |b| {
      assert a[..n + 1] == [a[0]] + a[1..][..n] && b[..n + 1] == [b[0]] + b[1..][..n];
      assert a[..n + 1][1..] == a[1..][..n] && b[..n + 1][1..] == b[1..][..n];
    }
  }

  lemma {:induction false} LessIsLower(a: Bytes, b: Bytes) returns (n: nat)
    requires Less(a, b)
    ensures LowerAt(a, b, n)
    decreases |a|
  {
    if a == [] || a[0] < b[0] {
      n := 0;
    } else {
      var k := LessIsLower(a[1..], b[1..]);
      LowerCons(a, b, k);
      n := k + 1;
    }
  }

  lemma {:induction false} LowerIsLess(a: Bytes, b: Bytes, n: nat)
    requires LowerAt(a, b, n)
    ensures Less(a, b)
    decreases n
  {
    if n > 0 {
      assert a[..n][0] == b[..n][0];
      LowerCons(a, b, n - 1);
      LowerIsLess(a[1..], b[1..], n - 1);
    }
  }

  /** A string comes first if it has the lower byte at the first difference, or is a proper prefix. */
  lemma LessIff(a: Bytes, b: Bytes)
    ensures Less(a, b) <==> exists n :: LowerAt(a, b, n)
  {
    if Less(a, b) {
      var n := LessIsLower(a, b);
    }
    if n :| LowerAt(a, b, n) {
      LowerIsLess(a, b, n);
    }
  }

  // ----- Decimal numbers -----------------------------------------------------------

  const DIGITS: string := "0123456789"

  /** The last character of a number is its last digit, and what is before it is a tenth of the number. */
  lemma DecimalDigits(n: nat)
    ensures var s := Decimal(n);
            && s[|s| - 1] as int == DIGITS[n % 10] as int
            && s[..|s| - 1] == (if n < 10 then [] else Decimal(n / 10))
  {
  }
}
