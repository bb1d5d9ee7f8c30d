/** The standard padded alphabet of section 4 of RFC 4648, as used for map keys and store ids. */
module Base64 {
  import opened Prelude

  const PAD: Byte := 0x3D

  /** The character for a 6-bit value. */
  function Char(v: nat): (c: Byte)
    requires v < 64
    ensures c != PAD
  {
    if v < 26 then (0x41 + v) as Byte
    else if v < 52 then (0x61 + v - 26) as Byte
    else if v < 62 then (0x30 + v - 52) as Byte
    else if v == 62 then 0x2B
    else 0x2F
  }

  function Value(c: Byte): (v: Option<nat>)
    ensures v.Some? ==> v.value < 64
  {
    if 0x41 <= c <= 0x5A then Some((c - 0x41) as nat)
    else if 0x61 <= c <= 0x7A then Some((c - 0x61) as nat + 26)
    else if 0x30 <= c <= 0x39 then Some((c - 0x30) as nat + 52)
    else if c == 0x2B then Some(62)
    else if c == 0x2F then Some(63)
    else None
  }

  lemma ValueOfChar(v: nat)
    requires v < 64
    ensures Value(Char(v)) == Some(v)
  {
  }

  /** The four 6-bit values of three bytes. */
  function Sextets(a: nat, b: nat, c: nat): (r: (nat, nat, nat, nat))
    requires a < 256 && b < 256 && c < 256
    ensures r.0 < 64 && r.1 < 64 && r.2 < 64 && r.3 < 64
  {
    (a / 4, a % 4 * 16 + b / 16, b % 16 * 4 + c / 64, c % 64)
  }

  /** Four characters for one, two or three bytes. */
  function EncodeGroup(s: Bytes): (g: Bytes)
    requires 1 <= |s| <= 3
    ensures |g| == 4
  {
    var q := Sextets(s[0] as nat, if |s| > 1 then s[1] as nat else 0, if |s| > 2 then s[2] as nat else 0);
    [Char(q.0), Char(q.1), if |s| > 1 then Char(q.2) else PAD, if |s| > 2 then Char(q.3) else PAD]
  }

  function GroupSize(s: Bytes): nat {
    if |s| < 3 then |s| else 3
  }

  function Encode(s: Bytes): Bytes
    decreases |s|
  {
    if s == [] then [] else EncodeGroup(s[..GroupSize(s)]) + Encode(s[GroupSize(s)..])
  }

  /** The three bytes of four 6-bit values. */
  function Octets(p: nat, q: nat, r: nat, t: nat): Bytes
    requires p < 64 && q < 64 && r < 64 && t < 64
  {
    [(p * 4 + q / 16) as Byte, (q % 16 * 16 + r / 4) as Byte, (r % 4 * 64 + t) as Byte]
  }

  /** One group of four characters; padding only in the last, with its unused bits zero. */
  function DecodeGroup(g: Bytes, last: bool): Option<Bytes>
    requires |g| == 4
  {
    if Value(g[0]).None? || Value(g[1]).None? then None
    else
      var p, q := Value(g[0]).value, Value(g[1]).value;
      if last && g[2] == PAD && g[3] == PAD then
        if q % 16 == 0 then Some(Octets(p, q, 0, 0)[..1]) else None
      else if Value(g[2]).None? then None
      else
        var r := Value(g[2]).value;
        if last && g[3] == PAD then
          if r % 4 == 0 then Some(Octets(p, q, r, 0)[..2]) else None
        else if Value(g[3]).None? then None
        else Some(Octets(p, q, r, Value(g[3]).value))
  }

  function Decode(t: Bytes): Option<Bytes>
    decreases |t|
  {
    if t == [] then Some([])
    else if |t| < 4 then None
    else
      match DecodeGroup(t[..4], |t| == 4)
      case None => None
      case Some(head) =>
        match Decode(t[4..])
        case None => None
        case Some(tail) => Some(head + tail)
  }

  lemma SecondSextet(a: nat, b: nat)
    requires a < 256 && b < 256
    ensures (a % 4 * 16 + b / 16) / 16 == a % 4 && (a % 4 * 16 + b / 16) % 16 == b / 16
  {
  }

  lemma ThirdSextet(b: nat, c: nat)
    requires b < 256 && c < 256
    ensures (b % 16 * 4 + c / 64) / 4 == b % 16 && (b % 16 * 4 + c / 64) % 4 == c / 64
  {
  }

  lemma OctetsOfSextets(a: nat, b: nat, c: nat)
    requires a < 256 && b < 256 && c < 256
    ensures var q := Sextets(a, b, c); Octets(q.0, q.1, q.2, q.3) == [a as Byte, b as Byte, c as Byte]
    ensures b == 0 ==> Sextets(a, b, 0).1 % 16 == 0
    ensures c == 0 ==> Sextets(a, b, c).2 % 4 == 0
  {
    SecondSextet(a, b);
    ThirdSextet(b, c);
  }

  /** A group decodes to its bytes; a padded one only where it is the last. */
  predicate GroupDecodes(g: Bytes, last: bool, s: Bytes) {
    |g| == 4 && DecodeGroup(g, last) == Some(s)
  }

  predicate Decodes(t: Bytes, s: Bytes) {
    Decode(t) == Some(s)
  }

  lemma FullGroup(s: Bytes, last: bool)
    requires |s| == 3
    ensures GroupDecodes(EncodeGroup(s), last, s)
  {
    var q := Sextets(s[0] as nat, s[1] as nat, s[2] as nat);
    ValueOfChar(q.0);
    ValueOfChar(q.1);
    ValueOfChar(q.2);
    ValueOfChar(q.3);
    OctetsOfSextets(s[0] as nat, s[1] as nat, s[2] as nat);
    assert s == [s[0], s[1], s[2]];
  }

  lemma OneByteGroup(s: Bytes)
    requires |s| == 1
    ensures GroupDecodes(EncodeGroup(s), true, s)
  {
    var q := Sextets(s[0] as nat, 0, 0);
    ValueOfChar(q.0);
    ValueOfChar(q.1);
    OctetsOfSextets(s[0] as nat, 0, 0);
    assert Octets(q.0, q.1, 0, 0) == [s[0], 0, 0];
    assert s == [s[0], 0, 0][..1];
  }

  lemma TwoByteGroup(s: Bytes)
    requires |s| == 2
    ensures GroupDecodes(EncodeGroup(s), true, s)
  {
    var q := Sextets(s[0] as nat, s[1] as nat, 0);
    ValueOfChar(q.0);
    ValueOfChar(q.1);
    ValueOfChar(q.2);
    OctetsOfSextets(s[0] as nat, s[1] as nat, 0);
    assert Octets(q.0, q.1, q.2, 0) == [s[0], s[1], 0];
    assert s == [s[0], s[1], 0][..2];
  }

  lemma GroupRoundTrip(s: Bytes, last: bool)
    requires 1 <= |s| <= 3 && (|s| < 3 ==> last)
    ensures GroupDecodes(EncodeGroup(s), last, s)
  {
    if |s| == 1 {
      OneByteGroup(s);
    } else if |s| == 2 {
      TwoByteGroup(s);
    } else {
      FullGroup(s, last);
    }
  }

  lemma DecodeCons(g: Bytes, head: Bytes, t: Bytes, tail: Bytes)
    requires GroupDecodes(g, t == [], head) && Decodes(t, tail)
    ensures Decodes(g + t, head + tail)
  {
    assert (g + t)[..4] == g && (g + t)[4..] == t;
  }

  lemma EncodeEmpty(s: Bytes)
    ensures Encode(s) == [] <==> s == []
  {
  }

  /** Decoding undoes encoding, so the code is injective. */
  lemma {:induction false} RoundTrip(s: Bytes)
    ensures Decodes(Encode(s), s)
    decreases |s|
  {
    if s != [] {
      var n := GroupSize(s);
      RoundTrip(s[n..]);
      EncodeEmpty(s[n..]);
      GroupRoundTrip(s[..n], s[n..] == []);
      DecodeCons(EncodeGroup(s[..n]), s[..n], Encode(s[n..]), s[n..]);
      assert s == s[..n] + s[n..];
    }
  }

  lemma EncodeInjective(a: Bytes, b: Bytes)
    requires Encode(a) == Encode(b)
    ensures a == b
  {
    RoundTrip(a);
    RoundTrip(b);
  }

  // ----- The text ------------------------------------------------------------------

  /** The character of a 6-bit value: letters, digits, `+` and `/`. */
  predicate Depicts(c: Byte, v: nat) {
    if v < 26 then c as int == 'A' as int + v
    else if v < 52 then c as int == 'a' as int + (v - 26)
    else if v < 62 then c as int == '0' as int + (v - 52)
    else c as int == (if v == 62 then '+' else '/') as int
  }

  /** Byte `k` of `s`, or 0 past its end. */
  function At(s: Bytes, k: nat): nat {
    if k < |s| then s[k] as nat else 0
  }

  /** The 24 bits of group `i`. */
  function Bits(s: Bytes, i: nat): nat {
    At(s, 3 * i) * 0x1_0000 + At(s, 3 * i + 1) * 256 + At(s, 3 * i + 2)
  }

  /** Group `i` of the text: its bits six at a time, most significant first, and `=` where there was no byte. */
  predicate GroupSpelled(s: Bytes, i: nat, g: Bytes) {
    && |g| == 4
    && Depicts(g[0], Bits(s, i) / 0x4_0000 % 64)
    && Depicts(g[1], Bits(s, i) / 0x1000 % 64)
    && (if 3 * i + 1 < |s| then Depicts(g[2], Bits(s, i) / 64 % 64) else g[2] as int == '=' as int)
    && (if 3 * i + 2 < |s| then Depicts(g[3], Bits(s, i) % 64) else g[3] as int == '=' as int)
  }

  lemma Div64(n: nat, q: nat, r: nat)
    requires n == q * 64 + r && r < 64
    ensures n / 64 == q && n % 64 == r
  {
  }

  lemma FirstSextet(a: nat, b: nat, c: nat)
    requires a < 256 && b < 256 && c < 256
    ensures (a * 0x1_0000 + b * 256 + c) / 0x4_0000 % 64 == a / 4
  {
    var n, r := a * 0x1_0000 + b * 256 + c, a % 4 * 0x1_0000 + b * 256 + c;
    assert n == a / 4 * 0x4_0000 + r && r < 0x4_0000;
    assert n / 0x4_0000 == a / 4;
  }

  lemma SecondOfBits(a: nat, b: nat, c: nat)
    requires a < 256 && b < 256 && c < 256
    ensures (a * 0x1_0000 + b * 256 + c) / 0x1000 % 64 == a % 4 * 16 + b / 16
  {
    var n, q, r := a * 0x1_0000 + b * 256 + c, a * 16 + b / 16, b % 16 * 256 + c;
    assert n == q * 0x1000 + r && r < 0x1000;
    assert n / 0x1000 == q;
    Div64(q, a / 4, a % 4 * 16 + b / 16);
  }

  lemma LastSextets(a: nat, b: nat, c: nat)
    requires a < 256 && b < 256 && c < 256
    ensures (a * 0x1_0000 + b * 256 + c) / 64 % 64 == b % 16 * 4 + c / 64
    ensures (a * 0x1_0000 + b * 256 + c) % 64 == c % 64
  {
    var n, q := a * 0x1_0000 + b * 256 + c, a * 1024 + b * 4 + c / 64;
    Div64(n, q, c % 64);
    Div64(q, a * 16 + b / 16, b % 16 * 4 + c / 64);
  }

  lemma CharDepicts(v: nat)
    requires v < 64
    ensures Depicts(Char(v), v)
  {
  }

  /** The characters of three bytes. */
  lemma GroupDepicts(a: nat, b: nat, c: nat)
    requires a < 256 && b < 256 && c < 256
    ensures var n, q := a * 0x1_0000 + b * 256 + c, Sextets(a, b, c);
            && Depicts(Char(q.0), n / 0x4_0000 % 64) && Depicts(Char(q.1), n / 0x1000 % 64)
            && Depicts(Char(q.2), n / 64 % 64) && Depicts(Char(q.3), n % 64)
  {
    var q := Sextets(a, b, c);
    FirstSextet(a, b, c);
    SecondOfBits(a, b, c);
    LastSextets(a, b, c);
    CharDepicts(q.0);
    CharDepicts(q.1);
    CharDepicts(q.2);
    CharDepicts(q.3);
  }

  lemma SameBytes(s: Bytes, g: Bytes)
    requires s != [] && g == s[..GroupSize(s)]
    ensures At(g, 0) == At(s, 0) && At(g, 1) == At(s, 1) && At(g, 2) == At(s, 2)
    ensures 1 <= |g| <= 3 && (|g| > 1 <==> |s| > 1) && (|g| > 2 <==> |s| > 2)
  {
  }

  lemma FirstGroup(s: Bytes)
    requires s != []
    ensures GroupSpelled(s, 0, EncodeGroup(s[..GroupSize(s)]))
  {
    SameBytes(s, s[..GroupSize(s)]);
    GroupDepicts(At(s, 0), At(s, 1), At(s, 2));
  }

  lemma LaterGroup(s: Bytes, i: nat, g: Bytes)
    requires |s| > 3 && GroupSpelled(s[3..], i, g)
    ensures GroupSpelled(s, i + 1, g)
  {
    assert Bits(s[3..], i) == Bits(s, i + 1);
  }

  lemma GroupsOf(n: nat, k: nat)
    requires n > 0 && k == (if n < 3 then n else 3)
    ensures (n + 2) / 3 == 1 + (n - k + 2) / 3
  {
  }

  lemma {:induction false} EncodeLength(s: Bytes)
    ensures |Encode(s)| == 4 * ((|s| + 2) / 3)
    decreases |s|
  {
    if s != [] {
      EncodeLength(s[GroupSize(s)..]);
      GroupsOf(|s|, GroupSize(s));
    }
  }

  lemma EncodeFirst(s: Bytes) returns (g: Bytes)
    requires |s| > 3
    ensures |g| == 4 && Encode(s) == g + Encode(s[3..])
  {
    g := EncodeGroup(s[..3]);
  }

  lemma DropFour(g: Bytes, rest: Bytes, i: nat)
    requires |g| == 4 && 0 < i && 4 * i <= |rest|
    ensures (g + rest)[4 * i..4 * i + 4] == rest[4 * (i - 1)..4 * (i - 1) + 4]
  {
  }

  /** The text of any bytes, group by group (section 4 of RFC 4648). */
  lemma {:induction false} Spelled(s: Bytes, i: nat)
    requires 3 * i < |s|
    ensures |Encode(s)| == 4 * ((|s| + 2) / 3)
    ensures GroupSpelled(s, i, Encode(s)[4 * i..4 * i + 4])
    decreases |s|
  {
    EncodeLength(s);
    if i == 0 {
      FirstGroup(s);
      DropPrefix(EncodeGroup(s[..GroupSize(s)]), Encode(s[GroupSize(s)..]));
    } else {
      Spelled(s[3..], i - 1);
      var g := EncodeFirst(s);
      DropFour(g, Encode(s[3..]), i);
      LaterGroup(s, i - 1, Encode(s)[4 * i..4 * i + 4]);
    }
  }

  // ----- Nothing else decodes ------------------------------------------------------

  lemma CharOfValue(c: Byte)
    requires Value(c).Some?
    ensures Char(Value(c).value) == c
  {
  }

  lemma Digit(x: nat, y: nat, base: nat)
    requires (base == 4 || base == 16 || base == 64) && y < base
    ensures (x * base + y) / base == x && (x * base + y) % base == y
  {
  }

  lemma TwoDigits(q: nat)
    requires q < 64
    ensures q / 16 < 4 && q / 16 * 16 + q % 16 == q && q / 4 < 16 && q / 4 * 4 + q % 4 == q
  {
  }

  lemma SextetsOfOctets(p: nat, q: nat, r: nat, t: nat)
    requires p < 64 && q < 64 && r < 64 && t < 64
    ensures var o := Octets(p, q, r, t); Sextets(o[0] as nat, o[1] as nat, o[2] as nat) == (p, q, r, t)
  {
    TwoDigits(q);
    TwoDigits(r);
    var a, b, c := p * 4 + q / 16, q % 16 * 16 + r / 4, r % 4 * 64 + t;
    Digit(p, q / 16, 4);
    Digit(q % 16, r / 4, 16);
    Digit(r % 4, t, 64);
    assert a % 4 == q / 16 && b / 16 == q % 16;
    assert b % 16 == r / 4 && c / 64 == r % 4;
    SextetsAre(a, b, c, p, q, r, t);
  }

  lemma SextetsAre(a: nat, b: nat, c: nat, p: nat, q: nat, r: nat, t: nat)
    requires a < 256 && b < 256 && c < 256 && q < 64 && r < 64
    requires a / 4 == p && a % 4 == q / 16 && b / 16 == q % 16 && b % 16 == r / 4 && c / 64 == r % 4 && c % 64 == t
    ensures Sextets(a, b, c) == (p, q, r, t)
  {
    TwoDigits(q);
    TwoDigits(r);
  }

  /** A group that decodes is that of its bytes, and a padded one is the last. */
  lemma GroupReencodes(g: Bytes, last: bool)
    requires |g| == 4 && DecodeGroup(g, last).Some?
    ensures var s := DecodeGroup(g, last).value; 1 <= |s| <= 3 && EncodeGroup(s) == g && (|s| < 3 ==> last)
  {
    var p, q := Value(g[0]).value, Value(g[1]).value;
    CharOfValue(g[0]);
    CharOfValue(g[1]);
    if last && g[2] == PAD && g[3] == PAD {
      SextetsOfOctets(p, q, 0, 0);
    } else {
      CharOfValue(g[2]);
      var r := Value(g[2]).value;
      if last && g[3] == PAD {
        SextetsOfOctets(p, q, r, 0);
      } else {
        CharOfValue(g[3]);
        SextetsOfOctets(p, q, r, Value(g[3]).value);
      }
    }
  }

  lemma EncodeCons(head: Bytes, tail: Bytes)
    requires 1 <= |head| <= 3 && (|head| < 3 ==> tail == [])
    ensures Encode(head + tail) == EncodeGroup(head) + Encode(tail)
  {
    var s := head + tail;
    assert s[..GroupSize(s)] == head && s[GroupSize(s)..] == tail;
  }

  lemma {:induction false} DecodedIsEncoded(t: Bytes)
    requires Decode(t).Some?
    ensures Encode(Decode(t).value) == t
    decreases |t|
  {
    if t != [] {
      var head, tail := DecodeGroup(t[..4], |t| == 4).value, Decode(t[4..]).value;
      GroupReencodes(t[..4], |t| == 4);
      DecodedIsEncoded(t[4..]);
      EncodeCons(head, tail);
      assert t == t[..4] + t[4..];
    }
  }

  /** A text decodes to bytes if and only if it is their text: padding is required, and unused bits are zero. */
  lemma DecodesExactly(t: Bytes, s: Bytes)
    ensures Decode(t) == Some(s) <==> t == Encode(s)
  {
    RoundTrip(s);
    if Decode(t) == Some(s) {
      DecodedIsEncoded(t);
    }
  }
}
