/**
 What the reader makes of the writer's output. Some strings do not come back as
 they were written; `NormString`, `NormContent` and `Norm` say exactly what comes
 back, and `Readable` says exactly when anything does.
 */
module NodeRoundTrip {
  import opened Prelude
  import opened Text
  import opened Tokens
  import opened Jid
  import opened NodeFormat

  // ----- What comes back -----------------------------------------------------

  /** A JID pair with an empty server is written but refused by the reader. */
  predicate ReadableString(T: Table, v: Bytes)
    requires Shape(T)
  {
    ReadableForm(FormOf(T, v))
  }

  predicate ReadableForm(f: Form) {
    f.JidPair? ==> f.pairServer != []
  }

  /** The string that comes back: JIDs are cut down to what their wire form holds. */
  function NormString(T: Table, v: Bytes): Bytes
    requires Shape(T)
  {
    NormForm(FormOf(T, v), v)
  }

  function NormForm(f: Form, v: Bytes): Bytes {
    match f
    case AdJid(domain, device, user) => Print(user, DomainServer(domain, SWhatsAppNet), Some(device % 256), None)
    case JidPair(user, server) => user + [AT] + server
    case _ => v
  }

  // ----- Headers -------------------------------------------------------------

  lemma ListHeaderRead(len: nat, rest: Bytes)
    requires ListHeader(len).Ok?
    ensures var e := ListHeader(len).value;
            && e != [] && IsListTag(e[0])
            && ReadListSize(e[0], e[1..] + rest) == Ok(Parsed(len, rest))
  {
    var e := ListHeader(len).value;
    var s := e[1..] + rest;
    if len >= 256 {
      assert s[1..][1..] == rest;
      assert ReadInt(s, 2, 0) == ReadInt(s[1..], 1, s[0] as nat);
    } else if len > 0 {
      assert s[1..] == rest;
    } else {
      assert s == rest;
    }
  }

  lemma ReadInt4(a: Byte, b: Byte, c: Byte, d: Byte, rest: Bytes)
    ensures ReadInt([a, b, c, d] + rest, 4, 0)
         == Ok(Parsed(a as nat * 0x100_0000 + b as nat * 0x1_0000 + c as nat * 256 + d as nat, rest))
  {
    var s := [a, b, c, d] + rest;
    assert s[1..] == [b, c, d] + rest;
    assert s[1..][1..] == [c, d] + rest;
    assert s[1..][1..][1..] == [d] + rest;
    assert s[1..][1..][1..][1..] == rest;
    assert ReadInt(s, 4, 0) == ReadInt(s[1..], 3, a as nat);
    assert ReadInt(s[1..], 3, a as nat) == ReadInt(s[1..][1..], 2, a as nat * 256 + b as nat);
  }

  lemma ReadInt20Of(a: Byte, b: Byte, c: Byte, rest: Bytes)
    ensures ReadInt20([a, b, c] + rest)
         == Ok(Parsed(a as nat % 16 * 0x1_0000 + b as nat * 256 + c as nat, rest))
  {
    var s := [a, b, c] + rest;
    assert s[1..] == [b, c] + rest;
    assert s[1..][1..] == [c] + rest;
    assert s[1..][1..][1..] == rest;
  }

  /** A length is the sum of its base-256 digits. */
  lemma Digits256(n: nat)
    ensures n == n / 0x100_0000 * 0x100_0000 + n / 0x1_0000 % 256 * 0x1_0000 + n / 256 % 256 * 256 + n % 256
    ensures n < 0x10_0000 ==> n == n / 0x1_0000 % 16 % 16 * 0x1_0000 + n / 256 % 256 * 256 + n % 256
  {
    var q := n / 256;
    var p := q / 256;
    assert n / 0x1_0000 == p && n / 0x100_0000 == p / 256;
    assert n == q * 256 + n % 256;
    assert q == p * 256 + q % 256;
  }

  lemma LengthHeaderRead(n: nat, rest: Bytes)
    requires LengthHeader(n).Ok?
    ensures var h := LengthHeader(n).value;
            h != [] && IsBinaryTag(h[0]) && ReadLength(h[0], h[1..] + rest) == Ok(Parsed(n, rest))
  {
    var h := LengthHeader(n).value;
    Digits256(n);
    if n >= 0x10_0000 {
      ReadInt4(h[1], h[2], h[3], h[4], rest);
      assert h[1..] == [h[1], h[2], h[3], h[4]];
    } else if n >= 256 {
      ReadInt20Of(h[1], h[2], h[3], rest);
      assert h[1..] == [h[1], h[2], h[3]];
    } else {
      assert (h[1..] + rest)[1..] == rest;
    }
  }

  lemma RawRead(v: Bytes, rest: Bytes)
    requires RawString(v).Ok?
    ensures var e := RawString(v).value;
            && e != [] && IsBinaryTag(e[0])
            && ReadBinary(e[0], e[1..] + rest) == Ok(Parsed(v, rest))
  {
    var h := LengthHeader(|v|).value;
    var e := RawString(v).value;
    LengthHeaderRead(|v|, v + rest);
    assert e[1..] + rest == h[1..] + (v + rest);
    DropPrefix(v, rest);
  }

  // ----- Packed strings ------------------------------------------------------

  /** Unpacking undoes packing for one character of the right alphabet. */
  lemma UnpackPack(kind: PackedKind, c: Byte)
    requires PackedChar(kind, c)
    ensures Pack(kind, c).Ok?
    ensures Unpack(PackedTag(kind), Pack(kind, c).value) == Ok(c)
  {
  }

  /** The character that the padding unpacks to, which the reader then drops. */
  function Padding(kind: PackedKind, len: nat): Bytes {
    if len % 2 == 0 then [] else if kind.Nibble? then [0] else [0x46]
  }

  lemma UnpackTwo(kind: PackedKind, first: Byte, second: Byte, last: Byte)
    requires PackedChar(kind, first)
    requires (second == last && PackedChar(kind, second)) || (second == 0 && [last] == Padding(kind, 1))
    ensures var b := PackTwo(kind, first, second);
            && b.Ok?
            && Unpack(PackedTag(kind), b.value / 16) == Ok(first)
            && Unpack(PackedTag(kind), b.value % 16) == Ok(last)
  {
    UnpackPack(kind, first);
    if PackedChar(kind, second) {
      UnpackPack(kind, second);
    }
  }

  lemma UnpackStep(tag: Byte, count: nat, b: Byte, hi: Byte, lo: Byte, p: Bytes, chars: Bytes, rest: Bytes)
    requires Unpack(tag, b / 16) == Ok(hi) && Unpack(tag, b % 16) == Ok(lo)
    requires UnpackAll(tag, count, p + rest) == Ok(Parsed(chars, rest))
    ensures UnpackAll(tag, count + 1, [b] + p + rest) == Ok(Parsed([hi, lo] + chars, rest))
  {
    assert ([b] + p + rest)[1..] == p + rest;
  }

  lemma PackAllStep(kind: PackedKind, v: Bytes, b: Byte, p: Bytes)
    requires v != []
    requires PackTwo(kind, v[0], if |v| > 1 then v[1] else 0) == Ok(b)
    requires PackAll(kind, if |v| > 1 then v[2..] else []) == Ok(p)
    ensures PackAll(kind, v) == Ok([b] + p)
  {
  }

  lemma {:induction false} PackAllLength(kind: PackedKind, v: Bytes)
    requires PackAll(kind, v).Ok?
    ensures |PackAll(kind, v).value| == (|v| + 1) / 2
    decreases |v|
  {
    if v != [] {
      PackAllLength(kind, if |v| > 1 then v[2..] else []);
    }
  }

  lemma PaddingStep(kind: PackedKind, v: Bytes, last: Byte, tail: Bytes)
    requires v != []
    requires last == (if |v| > 1 then v[1] else Padding(kind, 1)[0])
    requires tail == (if |v| > 1 then v[2..] else [])
    ensures [v[0], last] + (tail + Padding(kind, |tail|)) == v + Padding(kind, |v|)
  {
    if |v| > 1 {
      assert v == [v[0], v[1]] + tail;
      assert |tail| % 2 == |v| % 2;
    }
  }

  lemma {:induction false} UnpackAllPackAll(kind: PackedKind, v: Bytes, rest: Bytes)
    requires forall i :: 0 <= i < |v| ==> PackedChar(kind, v[i])
    ensures PackAll(kind, v).Ok?
    ensures var p := PackAll(kind, v).value;
            UnpackAll(PackedTag(kind), |p|, p + rest) == Ok(Parsed(v + Padding(kind, |v|), rest))
    decreases |v|
  {
    if v == [] {
      assert PackAll(kind, v).value + rest == rest;
      assert v + Padding(kind, |v|) == [];
    } else {
      var second := if |v| > 1 then v[1] else 0;
      var last := if |v| > 1 then v[1] else Padding(kind, 1)[0];
      var tail := if |v| > 1 then v[2..] else [];
      UnpackTwo(kind, v[0], second, last);
      UnpackAllPackAll(kind, tail, rest);
      var b := PackTwo(kind, v[0], second).value;
      var p := PackAll(kind, tail).value;
      PackAllStep(kind, v, b, p);
      UnpackStep(PackedTag(kind), |p|, b, v[0], last, p, tail + Padding(kind, |tail|), rest);
      PaddingStep(kind, v, last, tail);
    }
  }

  lemma PackedRead(kind: PackedKind, v: Bytes, rest: Bytes)
    requires Packable(kind, v)
    ensures PackedString(kind, v).Ok?
    ensures var e := PackedString(kind, v).value;
            && e != [] && e[0] == PackedTag(kind)
            && ReadPacked(e[0], e[1..] + rest) == Ok(Parsed(v, rest))
  {
    UnpackAllPackAll(kind, v, rest);
    PackAllLength(kind, v);
    var p := PackAll(kind, v).value;
    assert PackedString(kind, v).value[1..] + rest == [PackedSize(|v|)] + p + rest;
    ReadPackedOf(PackedTag(kind), |v|, p, v + Padding(kind, |v|), rest);
    TrimPadding(kind, v);
  }

  lemma ReadPackedOf(tag: Byte, len: nat, p: Bytes, chars: Bytes, rest: Bytes)
    requires len <= PACKED_MAX
    requires UnpackAll(tag, (len + 1) / 2, p + rest) == Ok(Parsed(chars, rest))
    ensures ReadPacked(tag, [PackedSize(len)] + p + rest) == Ok(Parsed(TrimLast(chars, len % 2 == 1), rest))
  {
    PackedSizeParts(len);
    ReadPackedStart(tag, PackedSize(len), (len + 1) / 2, p, chars, rest);
  }

  lemma PackedSizeParts(len: nat)
    requires len <= PACKED_MAX
    ensures PackedSize(len) as nat % 128 == (len + 1) / 2
    ensures PackedSize(len) >= 128 <==> len % 2 == 1
  {
  }

  lemma ReadPackedStart(tag: Byte, start: Byte, count: nat, p: Bytes, chars: Bytes, rest: Bytes)
    requires start as nat % 128 == count
    requires UnpackAll(tag, count, p + rest) == Ok(Parsed(chars, rest))
    ensures ReadPacked(tag, [start] + p + rest) == Ok(Parsed(TrimLast(chars, start >= 128), rest))
  {
    assert ([start] + p + rest)[1..] == p + rest;
  }

  lemma TrimPadding(kind: PackedKind, v: Bytes)
    ensures TrimLast(v + Padding(kind, |v|), |v| % 2 == 1) == v
  {
  }

  // ----- Strings -------------------------------------------------------------

  /** What the reader answers for a string written in form `f` and followed by `rest`. */
  function FormOutcome(f: Form, v: Bytes, rest: Bytes): Decoded<Bytes> {
    if ReadableForm(f) then Ok(Parsed(NormForm(f, v), rest)) else Err(InvalidJidPair)
  }

  function StringOutcome(T: Table, v: Bytes, rest: Bytes): Decoded<Bytes>
    requires Shape(T)
  {
    FormOutcome(FormOf(T, v), v, rest)
  }

  /** The tag byte that begins the encoding of a string of form `f`. */
  predicate TagFits(f: Form, tag: Byte) {
    if f.Raw? then IsBinaryTag(tag) else !IsBinaryTag(tag) && !IsListTag(tag)
  }

  /** `e` is read back as `v` written in form `f`. */
  predicate ReadsAs(T: Table, e: Bytes, f: Form, v: Bytes, rest: Bytes)
    requires Shape(T)
  {
    && e != [] && TagFits(f, e[0])
    && DecodeString(T, e[0], e[1..] + rest) == FormOutcome(f, v, rest)
  }

  /** Reading a tag and its string is reading a non-empty encoding. */
  lemma ReadStringOf(T: Table, e: Bytes, rest: Bytes)
    requires Shape(T) && e != []
    ensures ReadString(T, e + rest) == DecodeString(T, e[0], e[1..] + rest)
  {
    assert (e + rest)[1..] == e[1..] + rest;
  }

  lemma RawStringRead(T: Table, v: Bytes, rest: Bytes)
    requires Shape(T) && Utf8(v) && RawString(v).Ok?
    ensures ReadsAs(T, RawString(v).value, Raw, v, rest)
  {
    RawRead(v, rest);
  }

  lemma TokenStringRead(T: Table, f: Form, v: Bytes, rest: Bytes)
    requires Shape(T) && FormFits(T, f, v) && (f.SingleToken? || f.DoubleToken?)
    ensures EncodeAs(T, f, v).Ok? && ReadsAs(T, EncodeAs(T, f, v).value, f, v, rest)
  {
    var e := EncodeAs(T, f, v).value;
    var s := e[1..] + rest;
    if f.SingleToken? {
      assert s == rest;
    } else {
      assert s[0] == f.index as Byte && s[1..] == rest;
    }
  }

  lemma PackedStringRead(T: Table, kind: PackedKind, v: Bytes, rest: Bytes)
    requires Shape(T) && Packable(kind, v)
    ensures PackedString(kind, v).Ok? && ReadsAs(T, PackedString(kind, v).value, Packed(kind), v, rest)
  {
    PackedRead(kind, v, rest);
  }

  lemma FormOfPacked(T: Table, v: Bytes)
    requires Shape(T) && FormOf(T, v).Packed?
    ensures Packable(FormOf(T, v).kind, v)
  {
  }

  /** Strings without '@' come back as they were. */
  lemma PlainStringRead(T: Table, v: Bytes, rest: Bytes)
    requires Shape(T) && Utf8(v) && AT !in v && EncodeString(T, v).Ok?
    ensures var e := EncodeString(T, v).value;
            e != [] && ReadString(T, e + rest) == Ok(Parsed(v, rest))
  {
    var f := FormOf(T, v);
    if f.Raw? {
      RawStringRead(T, v, rest);
    } else if f.Packed? {
      FormOfPacked(T, v);
      PackedStringRead(T, f.kind, v, rest);
    } else {
      TokenStringRead(T, f, v, rest);
    }
    ReadStringOf(T, EncodeString(T, v).value, rest);
  }

  /** The parts of a JID string are themselves strings. */
  lemma JidParts(v: Bytes)
    requires Utf8(v) && AT in v
    ensures var j := Parse(v).value;
            Utf8(j.user) && Utf8(j.serverRaw) && Plain(j.user)
  {
    var p := SplitOnce(v, AT).value;
    Utf8Cut(p.0, AT, p.1);
    var c := Cut(p.0, COLON);
    if c.1.Some? {
      assert p.0 == c.0 + [COLON] + c.1.value;
      Utf8Cut(c.0, COLON, c.1.value);
    }
    var d := Cut(c.0, UNDERSCORE);
    if d.1.Some? {
      assert c.0 == d.0 + [UNDERSCORE] + d.1.value;
      Utf8Cut(d.0, UNDERSCORE, d.1.value);
    }
    ParsedUserPlain(v);
  }

  lemma AdJidRead(T: Table, domain: Domain, device: Byte, u: Bytes, user: Bytes, rest: Bytes)
    requires Shape(T) && ReadString(T, u + rest) == Ok(Parsed(user, rest))
    ensures DecodeString(T, AD_JID, [DomainCode(domain), device] + u + rest)
         == Ok(Parsed(Print(user, DomainServer(domain, SWhatsAppNet), Some(device as nat), None), rest))
  {
    var s := [DomainCode(domain), device] + u + rest;
    assert s[1..] == [device] + u + rest;
    assert s[1..][1..] == u + rest;
    assert DomainFromCode(DomainCode(domain)) == domain;
  }

  lemma JidPairRead(T: Table, u: Bytes, user: Bytes, sv: Bytes, server: Bytes, rest: Bytes)
    requires Shape(T)
    requires ReadString(T, u + (sv + rest)) == Ok(Parsed(user, sv + rest))
    requires ReadString(T, sv + rest) == Ok(Parsed(server, rest))
    ensures DecodeString(T, JID_PAIR, u + sv + rest)
         == if server == [] then Err(InvalidJidPair) else Ok(Parsed(user + [AT] + server, rest))
  {
    assert u + sv + rest == u + (sv + rest);
  }

  lemma AdJidStringRead(T: Table, f: Form, v: Bytes, rest: Bytes)
    requires Shape(T) && f.AdJid? && FormFits(T, f, v) && EncodeAs(T, f, v).Ok?
    requires Utf8(f.adUser) && Plain(f.adUser)
    ensures ReadsAs(T, EncodeAs(T, f, v).value, f, v, rest)
  {
    PlainStringRead(T, f.adUser, rest);
    var u := EncodeString(T, f.adUser).value;
    var device := (f.device % 256) as Byte;
    AdJidRead(T, f.domain, device, u, f.adUser, rest);
    AdJidReadsAs(T, f, v, DomainCode(f.domain), device, u, rest);
  }

  lemma AdJidReadsAs(T: Table, f: Form, v: Bytes, code: Byte, device: Byte, u: Bytes, rest: Bytes)
    requires Shape(T) && f.AdJid?
    requires DecodeString(T, AD_JID, [code, device] + u + rest) == FormOutcome(f, v, rest)
    ensures ReadsAs(T, [AD_JID, code, device] + u, f, v, rest)
  {
    assert ([AD_JID, code, device] + u)[1..] + rest == [code, device] + u + rest;
  }

  lemma JidPairStringRead(T: Table, f: Form, v: Bytes, rest: Bytes)
    requires Shape(T) && f.JidPair? && FormFits(T, f, v) && EncodeAs(T, f, v).Ok?
    requires Utf8(f.pairUser) && Plain(f.pairUser) && Utf8(f.pairServer)
    ensures ReadsAs(T, EncodeAs(T, f, v).value, f, v, rest)
  {
    var sv := RawString(f.pairServer).value;
    RawStringRead(T, f.pairServer, rest);
    ReadStringOf(T, sv, rest);
    var u := if f.pairUser == [] then [LIST_EMPTY] else EncodeString(T, f.pairUser).value;
    PairUserRead(T, f.pairUser, u, sv + rest);
    JidPairRead(T, u, f.pairUser, sv, f.pairServer, rest);
    JidPairReadsAs(T, f, v, u, sv, rest);
  }

  lemma JidPairReadsAs(T: Table, f: Form, v: Bytes, u: Bytes, sv: Bytes, rest: Bytes)
    requires Shape(T) && f.JidPair?
    requires DecodeString(T, JID_PAIR, u + sv + rest) == FormOutcome(f, v, rest)
    ensures ReadsAs(T, [JID_PAIR] + u + sv, f, v, rest)
  {
    assert ([JID_PAIR] + u + sv)[1..] + rest == u + sv + rest;
  }

  /** The user half of a pair, with its own form for the empty user. */
  lemma PairUserRead(T: Table, user: Bytes, u: Bytes, rest: Bytes)
    requires Shape(T) && Utf8(user) && Plain(user)
    requires if user == [] then u == [LIST_EMPTY] else EncodeString(T, user) == Ok(u)
    ensures ReadString(T, u + rest) == Ok(Parsed(user, rest))
  {
    if user == [] {
      ReadStringOf(T, u, rest);
      assert u[1..] + rest == rest;
    } else {
      PlainStringRead(T, user, rest);
    }
  }

  lemma FormOfJid(T: Table, v: Bytes, f: Form)
    requires Shape(T) && Utf8(v) && f == FormOf(T, v) && (f.AdJid? || f.JidPair?)
    ensures f.AdJid? ==> Utf8(f.adUser) && Plain(f.adUser)
    ensures f.JidPair? ==> Utf8(f.pairUser) && Plain(f.pairUser) && Utf8(f.pairServer)
  {
    JidParts(v);
  }

  /** Any written string: the tag byte alone tells the reader its form. */
  lemma StringRead(T: Table, v: Bytes, rest: Bytes)
    requires Shape(T) && Utf8(v) && EncodeString(T, v).Ok?
    ensures ReadsAs(T, EncodeString(T, v).value, FormOf(T, v), v, rest)
    ensures ReadString(T, EncodeString(T, v).value + rest) == StringOutcome(T, v, rest)
  {
    var f := FormOf(T, v);
    match f {
      case Raw => RawStringRead(T, v, rest);
      case Packed(_) =>
        FormOfPacked(T, v);
        PackedStringRead(T, f.kind, v, rest);
      case AdJid(_, _, _) =>
        FormOfJid(T, v, f);
        AdJidStringRead(T, f, v, rest);
      case JidPair(_, _) =>
        FormOfJid(T, v, f);
        JidPairStringRead(T, f, v, rest);
      case _ => TokenStringRead(T, f, v, rest);
    }
    ReadStringOf(T, EncodeString(T, v).value, rest);
  }
}
