/**
 The wire format of strings, byte for byte, as a grammar (crates/wa-binary/src/codec.rs,
 crates/wa-binary/src/jid.rs): the reader accepts exactly what it derives, with the
 value that it derives, and the writer produces what it derives.
 */
module NodeWire {
  import opened Prelude
  import opened Text
  import opened Tokens
  import opened Jid
  import opened NodeFormat
  import opened NodeRoundTrip

  // ----- The grammar -----------------------------------------------------------

  /** A length of `n` bytes, and the bytes: one, 20 bits or four bytes, most significant first. */
  predicate Announces(e: Bytes, n: nat) {
    || (|e| == 2 + n && e[0] == 252 && e[1] as nat == n)
    || (|e| == 4 + n && e[0] == 253 && e[1] as nat % 16 * 0x1_0000 + e[2] as nat * 256 + e[3] as nat == n)
    || (|e| == 5 + n && e[0] == 254
        && e[1] as nat * 0x100_0000 + e[2] as nat * 0x1_0000 + e[3] as nat * 256 + e[4] as nat == n)
  }

  /** `e` is a length and then `b`. */
  predicate IsRaw(e: Bytes, b: Bytes) {
    Announces(e, |b|) && e[|e| - |b|..] == b
  }

  /** What four bits stand for: digits, then `-` and `.`, or `A` to `F`; the highest of 255 is a zero byte. */
  predicate Stands(tag: Byte, bits: nat, c: Byte) {
    if bits < 10 then c as int == '0' as int + bits
    else if tag == 251 then bits < 16 && c as int == 'A' as int + (bits - 10)
    else (bits == 10 && c as int == '-' as int) || (bits == 11 && c as int == '.' as int) || (bits == 15 && c == 0)
  }

  /** The high and low halves of the bytes, in order. */
  function Half(p: Bytes, i: nat): nat
    requires i < 2 * |p|
  {
    if i % 2 == 0 then p[i / 2] as nat / 16 else p[i / 2] as nat % 16
  }

  predicate Unpacks(tag: Byte, p: Bytes, chars: Bytes) {
    |chars| == 2 * |p| && forall i :: 0 <= i < |chars| ==> Stands(tag, Half(p, i), chars[i])
  }

  /** The second byte counts the bytes that follow, two characters each; its top bit drops the last character. */
  ghost predicate IsPacked(e: Bytes, v: Bytes) {
    && |e| >= 2 && (e[0] == 251 || e[0] == 255) && |e| == 2 + e[1] as nat % 128
    && exists chars :: Unpacks(e[0], e[2..], chars)
                       && v == (if e[1] >= 128 && chars != [] then chars[..|chars| - 1] else chars)
  }

  /** The server of a device address, by its domain byte. */
  function DomainText(code: Byte): Bytes {
    if code == 1 then Ascii("lid")
    else if code == 128 then Ascii("hosted")
    else if code == 129 then Ascii("hosted.lid")
    else Ascii("s.whatsapp.net")
  }

  /** The bytes `e` spell the string `v`. */
  ghost predicate Spells(T: Table, e: Bytes, v: Bytes)
    requires Shape(T)
    decreases |e|
  {
    || (e == [0] && v == [])
    || (|e| == 1 && 1 <= e[0] <= 235 && v == T.single[e[0] as nat])
    || (|e| == 2 && 236 <= e[0] <= 239 && v == T.double[e[0] as nat - 236][e[1] as nat])
    || (IsRaw(e, v) && Utf8(v))
    || IsPacked(e, v)
    || (|e| > 3 && e[0] == 247 && exists user :: IsDevice(T, e, user, v))
    || (|e| > 2 && e[0] == 250 && exists cut: nat, user, server :: IsPair(T, e, cut, user, server, v))
  }

  /** 247, the domain, the device, and the user. */
  ghost predicate IsDevice(T: Table, e: Bytes, user: Bytes, v: Bytes)
    requires Shape(T) && |e| > 3
    decreases |e|, 0
  {
    && Spells(T, e[3..], user)
    && v == user + Ascii(":") + Decimal(e[2] as nat) + Ascii("@") + DomainText(e[1])
  }

  /** 250, the user, and a server that is not empty. */
  ghost predicate IsPair(T: Table, e: Bytes, cut: nat, user: Bytes, server: Bytes, v: Bytes)
    requires Shape(T) && |e| > 2
    decreases |e|, 0
  {
    1 < cut < |e| && Spells(T, e[1..cut], user) && Spells(T, e[cut..], server) && server != [] && v == user + Ascii("@") + server
  }

  // ----- Reading what the grammar derives ----------------------------------------

  /** Read in front of anything, `e` is `v`. */
  predicate ReadAs(T: Table, e: Bytes, v: Bytes, rest: Bytes)
    requires Shape(T)
  {
    ReadString(T, e + rest) == Ok(Parsed(v, rest))
  }

  lemma RawReads(T: Table, e: Bytes, v: Bytes, rest: Bytes)
    requires Shape(T) && IsRaw(e, v) && Utf8(v)
    ensures ReadAs(T, e, v, rest)
  {
    BinaryReads(e, v, rest);
    ReadStringOf(T, e, rest);
  }

  lemma Length8(e: Bytes, b: Bytes, rest: Bytes)
    requires |e| == 2 + |b| && e[0] == 252 && e[1] as nat == |b| && e[2..] == b
    ensures ReadLength(e[0], e[1..] + rest) == Ok(Parsed(|b|, b + rest))
  {
    assert e[1..] + rest == [e[1]] + (b + rest);
  }

  lemma Length20(e: Bytes, b: Bytes, rest: Bytes)
    requires |e| == 4 + |b| && e[0] == 253 && e[4..] == b
    requires e[1] as nat % 16 * 0x1_0000 + e[2] as nat * 256 + e[3] as nat == |b|
    ensures ReadLength(e[0], e[1..] + rest) == Ok(Parsed(|b|, b + rest))
  {
    ReadInt20Of(e[1], e[2], e[3], b + rest);
    assert e[1..] + rest == [e[1], e[2], e[3]] + (b + rest);
  }

  lemma Length32(e: Bytes, b: Bytes, rest: Bytes)
    requires |e| == 5 + |b| && e[0] == 254 && e[5..] == b
    requires e[1] as nat * 0x100_0000 + e[2] as nat * 0x1_0000 + e[3] as nat * 256 + e[4] as nat == |b|
    ensures ReadLength(e[0], e[1..] + rest) == Ok(Parsed(|b|, b + rest))
  {
    ReadInt4(e[1], e[2], e[3], e[4], b + rest);
    assert e[1..] + rest == [e[1], e[2], e[3], e[4]] + (b + rest);
  }

  lemma BinaryReads(e: Bytes, b: Bytes, rest: Bytes)
    requires IsRaw(e, b)
    ensures e != [] && IsBinaryTag(e[0]) && ReadBinary(e[0], e[1..] + rest) == Ok(Parsed(b, rest))
  {
    if e[0] == 252 {
      Length8(e, b, rest);
    } else if e[0] == 253 {
      Length20(e, b, rest);
    } else {
      Length32(e, b, rest);
    }
    DropPrefix(b, rest);
  }

  lemma StandsIff(tag: Byte, bits: Byte, c: Byte)
    requires tag == 251 || tag == 255
    requires bits < 16
    ensures Stands(tag, bits as nat, c) <==> Unpack(tag, bits) == Ok(c)
  {
  }

  lemma {:induction false} UnpacksReads(tag: Byte, p: Bytes, chars: Bytes, rest: Bytes)
    requires (tag == 251 || tag == 255) && Unpacks(tag, p, chars)
    ensures UnpackAll(tag, |p|, p + rest) == Ok(Parsed(chars, rest))
    decreases |p|
  {
    if p == [] {
      assert p + rest == rest;
    } else {
      StandsIff(tag, p[0] / 16, chars[0]);
      StandsIff(tag, p[0] % 16, chars[1]);
      assert Half(p, 0) == p[0] as nat / 16 && Half(p, 1) == p[0] as nat % 16;
      UnpacksTail(tag, p, chars);
      UnpacksReads(tag, p[1..], chars[2..], rest);
      UnpackStep(tag, |p| - 1, p[0], chars[0], chars[1], p[1..], chars[2..], rest);
      assert [p[0]] + p[1..] + rest == p + rest && [chars[0], chars[1]] + chars[2..] == chars;
    }
  }

  lemma UnpacksTail(tag: Byte, p: Bytes, chars: Bytes)
    requires p != [] && Unpacks(tag, p, chars)
    ensures Unpacks(tag, p[1..], chars[2..])
  {
    forall i | 0 <= i < |chars[2..]| ensures Stands(tag, Half(p[1..], i), chars[2..][i]) {
      assert Half(p[1..], i) == Half(p, i + 2) && chars[2..][i] == chars[i + 2];
    }
  }

  lemma PackedStart(e: Bytes, chars: Bytes, rest: Bytes)
    requires |e| >= 2 && (e[0] == 251 || e[0] == 255) && |e| == 2 + e[1] as nat % 128 && Unpacks(e[0], e[2..], chars)
    ensures ReadPacked(e[0], e[1..] + rest) == Ok(Parsed(TrimLast(chars, e[1] >= 128), rest))
  {
    var p := e[2..];
    UnpacksReads(e[0], p, chars, rest);
    ReadPackedStart(e[0], e[1], |p|, p, chars, rest);
    assert e[1..] == [e[1]] + p;
  }

  lemma PackedReads(T: Table, e: Bytes, v: Bytes, rest: Bytes)
    requires Shape(T) && IsPacked(e, v)
    ensures ReadAs(T, e, v, rest)
  {
    var chars :| Unpacks(e[0], e[2..], chars)
                 && v == (if e[1] >= 128 && chars != [] then chars[..|chars| - 1] else chars);
    PackedStart(e, chars, rest);
    ReadStringOf(T, e, rest);
  }

  lemma DomainTexts(code: Byte)
    ensures ServerName(DomainServer(DomainFromCode(code), SWhatsAppNet)) == DomainText(code)
  {
    ServersSpelled(3);
    ServersSpelled(5);
    ServersSpelled(8);
    ServersSpelled(9);
  }

  lemma PrintedDevice(user: Bytes, code: Byte, device: Byte)
    ensures Print(user, DomainServer(DomainFromCode(code), SWhatsAppNet), Some(device as nat), None)
         == user + Ascii(":") + Decimal(device as nat) + Ascii("@") + DomainText(code)
  {
    DomainTexts(code);
    SpelledAs([COLON], ":");
    SpelledAs([AT], "@");
    var d := Decimal(device as nat);
    assert user + [] + ([COLON] + d) + [AT] == user + [COLON] + d + [AT];
  }

  lemma DeviceReads(T: Table, e: Bytes, user: Bytes, v: Bytes, rest: Bytes)
    requires Shape(T) && |e| > 3 && e[0] == 247 && ReadAs(T, e[3..], user, rest)
    requires v == user + Ascii(":") + Decimal(e[2] as nat) + Ascii("@") + DomainText(e[1])
    ensures ReadAs(T, e, v, rest)
  {
    var s := e[1..] + rest;
    assert s[1..][1..] == e[3..] + rest && s[0] == e[1] && s[1..][0] == e[2];
    PrintedDevice(user, e[1], e[2]);
    ReadStringOf(T, e, rest);
  }

  lemma PairReads(T: Table, e: Bytes, cut: nat, user: Bytes, server: Bytes, rest: Bytes)
    requires Shape(T) && 1 < cut < |e| && e[0] == 250 && server != []
    requires ReadAs(T, e[1..cut], user, e[cut..] + rest) && ReadAs(T, e[cut..], server, rest)
    ensures ReadAs(T, e, user + Ascii("@") + server, rest)
  {
    JidPairRead(T, e[1..cut], user, e[cut..], server, rest);
    assert e[1..] + rest == e[1..cut] + e[cut..] + rest;
    SpelledAs([AT], "@");
    ReadStringOf(T, e, rest);
  }

  lemma TokenReads(T: Table, e: Bytes, v: Bytes, rest: Bytes)
    requires Shape(T)
    requires || (e == [0] && v == [])
             || (|e| == 1 && 1 <= e[0] <= 235 && v == T.single[e[0] as nat])
             || (|e| == 2 && 236 <= e[0] <= 239 && v == T.double[e[0] as nat - 236][e[1] as nat])
    ensures ReadAs(T, e, v, rest)
  {
    ReadStringOf(T, e, rest);
    if |e| == 1 {
      assert e[1..] + rest == rest;
    } else {
      assert e[1..] + rest == [e[1]] + rest;
    }
  }

  /** What the grammar derives is read as that, whatever follows. */
  lemma {:induction false} SpelledReads(T: Table, e: Bytes, v: Bytes, rest: Bytes)
    requires Shape(T) && Spells(T, e, v)
    ensures ReadAs(T, e, v, rest)
    decreases |e|
  {
    if IsRaw(e, v) && Utf8(v) {
      RawReads(T, e, v, rest);
    } else if IsPacked(e, v) {
      PackedReads(T, e, v, rest);
    } else if |e| > 3 && e[0] == 247 {
      var user :| IsDevice(T, e, user, v);
      SpelledReads(T, e[3..], user, rest);
      DeviceReads(T, e, user, v, rest);
    } else if |e| > 2 && e[0] == 250 {
      var cut: nat, user, server :| IsPair(T, e, cut, user, server, v);
      SpelledReads(T, e[1..cut], user, e[cut..] + rest);
      SpelledReads(T, e[cut..], server, rest);
      PairReads(T, e, cut, user, server, rest);
    } else {
      TokenReads(T, e, v, rest);
    }
  }

  // ----- The grammar derives what is read ------------------------------------------

  /** The first `n` bytes of `s` are what has been read, and they spell the value. */
  ghost predicate Derived(T: Table, s: Bytes, n: nat, p: Parsed<Bytes>)
    requires Shape(T)
  {
    n <= |s| && p.rest == s[n..] && Spells(T, s[..n], p.value)
  }

  /** A string is read from `s`, and the grammar derives it from the first `n` bytes. */
  ghost predicate Found(T: Table, s: Bytes, n: nat)
    requires Shape(T)
  {
    ReadString(T, s).Ok? && 0 < n && Derived(T, s, n, ReadString(T, s).value)
  }

  lemma BinaryDerived(s: Bytes) returns (n: nat)
    requires s != [] && IsBinaryTag(s[0]) && ReadBinary(s[0], s[1..]).Ok?
    ensures var p := ReadBinary(s[0], s[1..]).value;
            n <= |s| && p.rest == s[n..] && IsRaw(s[..n], p.value)
  {
    var p := ReadBinary(s[0], s[1..]).value;
    var len := ReadLength(s[0], s[1..]).value;
    var k := if s[0] == 252 then 2 else if s[0] == 253 then 4 else 5;
    LengthParts(s);
    n := k + len.value;
    assert s[k..][..len.value] == s[..n][k..] && s[k..][len.value..] == s[n..];
  }

  lemma LengthParts(s: Bytes)
    requires s != [] && IsBinaryTag(s[0]) && ReadLength(s[0], s[1..]).Ok?
    ensures s[0] == 252 ==> |s| >= 2 && ReadLength(s[0], s[1..]) == Ok(Parsed(s[1] as nat, s[2..]))
    ensures s[0] == 253 ==>
              |s| >= 4 && ReadLength(s[0], s[1..])
                          == Ok(Parsed(s[1] as nat % 16 * 0x1_0000 + s[2] as nat * 256 + s[3] as nat, s[4..]))
    ensures s[0] == 254 ==>
              |s| >= 5 && ReadLength(s[0], s[1..])
                          == Ok(Parsed(s[1] as nat * 0x100_0000 + s[2] as nat * 0x1_0000 + s[3] as nat * 256 + s[4] as nat,
                                       s[5..]))
  {
    if s[0] == 253 {
      assert |s| >= 4;
      ReadInt20Of(s[1], s[2], s[3], s[4..]);
      assert s[1..] == [s[1], s[2], s[3]] + s[4..];
    } else if s[0] == 254 {
      assert |s| >= 5;
      ReadInt4(s[1], s[2], s[3], s[4], s[5..]);
      assert s[1..] == [s[1], s[2], s[3], s[4]] + s[5..];
    }
  }

  lemma {:induction false} UnpackedDerived(tag: Byte, count: nat, s: Bytes)
    requires (tag == 251 || tag == 255) && UnpackAll(tag, count, s).Ok?
    ensures count <= |s| && UnpackAll(tag, count, s).value.rest == s[count..]
    ensures Unpacks(tag, s[..count], UnpackAll(tag, count, s).value.value)
    decreases count
  {
    if count > 0 {
      var hi, lo := Unpack(tag, s[0] / 16).value, Unpack(tag, s[0] % 16).value;
      UnpackedDerived(tag, count - 1, s[1..]);
      StandsIff(tag, s[0] / 16, hi);
      StandsIff(tag, s[0] % 16, lo);
      var more := UnpackAll(tag, count - 1, s[1..]).value.value;
      assert s[..count] == [s[0]] + s[1..][..count - 1];
      UnpacksCons(tag, s[0], s[1..][..count - 1], hi, lo, more);
    }
  }

  lemma UnpacksCons(tag: Byte, b: Byte, p: Bytes, hi: Byte, lo: Byte, chars: Bytes)
    requires Stands(tag, b as nat / 16, hi) && Stands(tag, b as nat % 16, lo) && Unpacks(tag, p, chars)
    ensures Unpacks(tag, [b] + p, [hi, lo] + chars)
  {
    var q, all := [b] + p, [hi, lo] + chars;
    forall i | 0 <= i < |all| ensures Stands(tag, Half(q, i), all[i]) {
      if i >= 2 {
        assert Half(q, i) == Half(p, i - 2) && all[i] == chars[i - 2];
      }
    }
  }

  lemma PackedDerived(s: Bytes) returns (n: nat)
    requires s != [] && (s[0] == 251 || s[0] == 255) && ReadPacked(s[0], s[1..]).Ok?
    ensures var p := ReadPacked(s[0], s[1..]).value;
            n <= |s| && p.rest == s[n..] && IsPacked(s[..n], p.value)
  {
    var count := s[1] as nat % 128;
    UnpackedDerived(s[0], count, s[2..]);
    n := 2 + count;
    assert s[1..][1..] == s[2..] && s[2..][..count] == s[..n][2..] && s[2..][count..] == s[n..];
    assert Unpacks(s[0], s[..n][2..], UnpackAll(s[0], count, s[2..]).value.value);
  }

  lemma DeviceIsRead(T: Table, s: Bytes)
    requires Shape(T) && s != [] && s[0] == 247 && ReadString(T, s).Ok?
    ensures |s| > 3 && ReadString(T, s[3..]).Ok?
    ensures var user := ReadString(T, s[3..]).value;
            ReadString(T, s)
            == Ok(Parsed(user.value + Ascii(":") + Decimal(s[2] as nat) + Ascii("@") + DomainText(s[1]), user.rest))
  {
    assert s[1..][1..] == s[2..] && s[2..][1..] == s[3..];
    PrintedDevice(ReadString(T, s[3..]).value.value, s[1], s[2]);
  }

  lemma DeviceDerived(T: Table, s: Bytes, m: nat, user: Parsed<Bytes>, v: Bytes)
    requires Shape(T) && |s| > 3 && s[0] == 247 && Derived(T, s[3..], m, user) && 0 < m
    requires v == user.value + Ascii(":") + Decimal(s[2] as nat) + Ascii("@") + DomainText(s[1])
    ensures Derived(T, s, m + 3, Parsed(v, user.rest))
  {
    var e := s[..m + 3];
    assert e[3..] == s[3..][..m] && s[m + 3..] == s[3..][m..];
    assert IsDevice(T, e, user.value, v);
  }

  lemma PairIsRead(T: Table, s: Bytes)
    requires Shape(T) && s != [] && s[0] == 250 && ReadString(T, s).Ok?
    ensures ReadString(T, s[1..]).Ok? && ReadString(T, ReadString(T, s[1..]).value.rest).Ok?
    ensures var user := ReadString(T, s[1..]).value;
            var server := ReadString(T, user.rest).value;
            && server.value != []
            && ReadString(T, s) == Ok(Parsed(user.value + Ascii("@") + server.value, server.rest))
  {
    SpelledAs([AT], "@");
  }

  lemma PairCut(s: Bytes, m: nat, k: nat)
    requires 1 + m + k <= |s|
    ensures var e := s[..1 + m + k];
            e[1..1 + m] == s[1..][..m] && e[1 + m..] == s[1..][m..][..k] && s[1 + m + k..] == s[1..][m..][k..]
  {
  }

  lemma PairDerived(T: Table, s: Bytes, m: nat, user: Parsed<Bytes>, k: nat, server: Parsed<Bytes>)
    requires Shape(T) && |s| > 1 && s[0] == 250 && Derived(T, s[1..], m, user) && 0 < m
    requires Derived(T, user.rest, k, server) && 0 < k && server.value != []
    ensures Derived(T, s, 1 + m + k, Parsed(user.value + Ascii("@") + server.value, server.rest))
  {
    PairCut(s, m, k);
    assert IsPair(T, s[..1 + m + k], 1 + m, user.value, server.value, user.value + Ascii("@") + server.value);
  }

  lemma ShortFound(T: Table, s: Bytes) returns (n: nat)
    requires Shape(T) && s != [] && ReadString(T, s).Ok? && s[0] <= 239
    ensures Found(T, s, n)
  {
    if s[0] <= 235 {
      n := 1;
    } else {
      n := 2;
      assert s[1..][1..] == s[2..];
    }
  }

  lemma RawFound(T: Table, s: Bytes) returns (n: nat)
    requires Shape(T) && s != [] && IsBinaryTag(s[0]) && ReadString(T, s).Ok?
    ensures Found(T, s, n)
  {
    assert ReadString(T, s) == ReadBinary(s[0], s[1..]) && Utf8(ReadString(T, s).value.value);
    n := BinaryDerived(s);
  }

  lemma PackedFound(T: Table, s: Bytes) returns (n: nat)
    requires Shape(T) && s != [] && (s[0] == 251 || s[0] == 255) && ReadString(T, s).Ok?
    ensures Found(T, s, n)
  {
    assert ReadString(T, s) == ReadPacked(s[0], s[1..]);
    n := PackedDerived(s);
  }

  lemma TagCases(T: Table, s: Bytes)
    requires Shape(T) && ReadString(T, s).Ok?
    ensures s != []
    ensures s[0] <= 239 || IsBinaryTag(s[0]) || s[0] == 247 || s[0] == 250 || s[0] == 251 || s[0] == 255
  {
  }

  // What is read is taken apart without looking into the reader and the grammar at once.

  /** Something that was read, and from where. */
  datatype Reading = Reading(s: Bytes, p: Parsed<Bytes>)

  /** It was read from the first `n` bytes. */
  datatype Piece = Piece(r: Reading, n: nat)

  ghost function Readings(T: Table): iset<Reading>
    requires Shape(T)
  {
    iset r: Reading | ReadString(T, r.s) == Ok(r.p)
  }

  ghost function Pieces(T: Table): iset<Piece>
    requires Shape(T)
  {
    iset x: Piece | 0 < x.n && Derived(T, x.r.s, x.n, x.r.p)
  }

  ghost predicate AtOnce(found: iset<Piece>, r: Reading) {
    exists n: nat :: Piece(r, n) in found
  }

  /** What is found of the inner reading is found of the outer one, `k` bytes further. */
  ghost predicate Shifts(found: iset<Piece>, inner: Reading, r: Reading, k: nat) {
    |inner.s| < |r.s| && forall m: nat :: Piece(inner, m) in found ==> Piece(r, m + k) in found
  }

  /** What is found of two readings, together. */
  ghost predicate Combines(found: iset<Piece>, a: Reading, b: Reading, r: Reading) {
    && |a.s| < |r.s| && |b.s| < |r.s|
    && forall m: nat, k: nat :: Piece(a, m) in found && Piece(b, k) in found ==> Piece(r, 1 + m + k) in found
  }

  ghost predicate FromOne(readings: iset<Reading>, found: iset<Piece>, r: Reading) {
    exists inner, k: nat :: inner in readings && Shifts(found, inner, r, k)
  }

  ghost predicate FromTwo(readings: iset<Reading>, found: iset<Piece>, r: Reading) {
    exists a, b :: a in readings && b in readings && Combines(found, a, b, r)
  }

  ghost predicate Falls(readings: iset<Reading>, found: iset<Piece>, r: Reading) {
    AtOnce(found, r) || FromOne(readings, found, r) || FromTwo(readings, found, r)
  }

  lemma {:induction false} Descend(readings: iset<Reading>, found: iset<Piece>, r: Reading) returns (n: nat)
    requires (forall x :: x in readings ==> Falls(readings, found, x)) && r in readings
    ensures Piece(r, n) in found
    decreases |r.s|
  {
    assert Falls(readings, found, r);
    if FromOne(readings, found, r) {
      var inner, k: nat :| inner in readings && Shifts(found, inner, r, k);
      var m := Descend(readings, found, inner);
      n := m + k;
    } else if FromTwo(readings, found, r) {
      var a, b :| a in readings && b in readings && Combines(found, a, b, r);
      var m := Descend(readings, found, a);
      var k := Descend(readings, found, b);
      n := 1 + m + k;
    } else {
      n :| Piece(r, n) in found;
    }
  }

  lemma ShortAtOnce(T: Table, r: Reading)
    requires Shape(T) && r in Readings(T) && r.s != [] && r.s[0] != 247 && r.s[0] != 250
    ensures AtOnce(Pieces(T), r)
  {
    TagCases(T, r.s);
    var n: nat;
    if r.s[0] <= 239 {
      n := ShortFound(T, r.s);
    } else if IsBinaryTag(r.s[0]) {
      n := RawFound(T, r.s);
    } else {
      n := PackedFound(T, r.s);
    }
    assert Piece(r, n) in Pieces(T);
  }

  lemma DeviceShifts(T: Table, r: Reading, inner: Reading)
    requires Shape(T) && |r.s| > 3 && r.s[0] == 247 && inner.s == r.s[3..]
    requires r.p == Parsed(inner.p.value + Ascii(":") + Decimal(r.s[2] as nat) + Ascii("@") + DomainText(r.s[1]), inner.p.rest)
    ensures Shifts(Pieces(T), inner, r, 3)
  {
    forall m: nat | Piece(inner, m) in Pieces(T) ensures Piece(r, m + 3) in Pieces(T) {
      DeviceDerived(T, r.s, m, inner.p, r.p.value);
    }
  }

  lemma DeviceFromOne(T: Table, r: Reading)
    requires Shape(T) && r in Readings(T) && r.s != [] && r.s[0] == 247
    ensures FromOne(Readings(T), Pieces(T), r)
  {
    DeviceIsRead(T, r.s);
    var inner := Reading(r.s[3..], ReadString(T, r.s[3..]).value);
    DeviceShifts(T, r, inner);
    assert inner in Readings(T);
  }

  lemma PairCombines(T: Table, r: Reading, a: Reading, b: Reading)
    requires Shape(T) && |r.s| > 1 && r.s[0] == 250 && a.s == r.s[1..] && b.s == a.p.rest && |b.s| < |r.s|
    requires b.p.value != [] && r.p == Parsed(a.p.value + Ascii("@") + b.p.value, b.p.rest)
    ensures Combines(Pieces(T), a, b, r)
  {
    forall m: nat, k: nat | Piece(a, m) in Pieces(T) && Piece(b, k) in Pieces(T) ensures Piece(r, 1 + m + k) in Pieces(T) {
      PairDerived(T, r.s, m, a.p, k, b.p);
    }
  }

  lemma PairFromTwo(T: Table, r: Reading)
    requires Shape(T) && r in Readings(T) && r.s != [] && r.s[0] == 250
    ensures FromTwo(Readings(T), Pieces(T), r)
  {
    PairIsRead(T, r.s);
    var a := Reading(r.s[1..], ReadString(T, r.s[1..]).value);
    var b := Reading(a.p.rest, ReadString(T, a.p.rest).value);
    PairCombines(T, r, a, b);
    assert a in Readings(T) && b in Readings(T);
  }

  /** Whatever is read, the grammar derives it from exactly the bytes that were read. */
  lemma ReadsSpelled(T: Table, s: Bytes) returns (n: nat)
    requires Shape(T) && ReadString(T, s).Ok?
    ensures Found(T, s, n)
  {
    var readings, found := Readings(T), Pieces(T);
    forall r | r in readings ensures Falls(readings, found, r) {
      TagCases(T, r.s);
      if r.s[0] == 247 {
        DeviceFromOne(T, r);
      } else if r.s[0] == 250 {
        PairFromTwo(T, r);
      } else {
        ShortAtOnce(T, r);
      }
    }
    var whole := Reading(s, ReadString(T, s).value);
    n := Descend(readings, found, whole);
    assert Piece(whole, n) in Pieces(T);
  }

  /** The reader accepts exactly what the grammar derives, with that value, and leaves the rest. */
  lemma ReadsExactly(T: Table, s: Bytes, v: Bytes, rest: Bytes)
    requires Shape(T)
    ensures ReadString(T, s) == Ok(Parsed(v, rest)) <==> exists e :: s == e + rest && Spells(T, e, v)
  {
    if ReadString(T, s) == Ok(Parsed(v, rest)) {
      var n := ReadsSpelled(T, s);
      assert s == s[..n] + rest;
    }
    if e :| s == e + rest && Spells(T, e, v) {
      SpelledReads(T, e, v, rest);
    }
  }

  // ----- Writing -------------------------------------------------------------------

  /** What the writer makes of a readable string is derived by the grammar, with the string that comes back. */
  lemma WrittenSpelled(T: Table, v: Bytes)
    requires Shape(T) && Utf8(v) && ReadableString(T, v) && EncodeString(T, v).Ok?
    ensures Spells(T, EncodeString(T, v).value, NormString(T, v))
  {
    var e := EncodeString(T, v).value;
    StringRead(T, v, []);
    assert e + [] == e;
    var n := ReadsSpelled(T, e);
    assert e[n..] == [] && e[..n] == e;
  }

  /** Digits, `-` and `.`; or digits and `A` to `F`. */
  predicate NibbleText(v: Bytes) {
    forall i :: 0 <= i < |v| ==>
      '0' as int <= v[i] as int <= '9' as int || v[i] as int == '-' as int || v[i] as int == '.' as int
  }

  predicate HexText(v: Bytes) {
    forall i :: 0 <= i < |v| ==> '0' as int <= v[i] as int <= '9' as int || 'A' as int <= v[i] as int <= 'F' as int
  }

  predicate IsToken(T: Table, v: Bytes) {
    v in T.single || exists d :: 0 <= d < |T.double| && v in T.double[d]
  }

  lemma TokenBytes(T: Table, v: Bytes)
    requires Shape(T) && (FormOf(T, v).SingleToken? || FormOf(T, v).DoubleToken?)
    ensures EncodeString(T, v).Ok?
    ensures var e := EncodeString(T, v).value;
            if FormOf(T, v).SingleToken? then |e| == 1 && 1 <= e[0] <= 235 else |e| == 2 && 236 <= e[0] <= 239
  {
  }

  lemma AddressBytes(T: Table, v: Bytes)
    requires Shape(T) && (FormOf(T, v).AdJid? || FormOf(T, v).JidPair?) && EncodeString(T, v).Ok?
    ensures var e := EncodeString(T, v).value; e != [] && e[0] == (if FormOf(T, v).AdJid? then 247 else 250)
  {
  }

  lemma RawBytesWritten(T: Table, v: Bytes)
    requires Shape(T) && FormOf(T, v).Raw? && EncodeString(T, v).Ok?
    ensures var e := EncodeString(T, v).value; e != [] && 252 <= e[0] <= 254
  {
    RawWritten(v);
  }

  lemma PackedBytes(T: Table, v: Bytes)
    requires Shape(T) && FormOf(T, v).Packed?
    ensures EncodeString(T, v).Ok? && EncodeString(T, v).value != []
    ensures EncodeString(T, v).value[0] == (if FormOf(T, v).kind.Nibble? then 255 else 251)
  {
    FormOfPacked(T, v);
    PackedRead(FormOf(T, v).kind, v, []);
  }

  lemma FormChosen(T: Table, v: Bytes)
    requires Shape(T)
    ensures var f := FormOf(T, v);
            && (v == [] ==> f.Raw?)
            && (v != [] && v in T.single ==> f.SingleToken?)
            && (v != [] && v !in T.single && IsToken(T, v) ==> f.DoubleToken?)
            && (v != [] && !IsToken(T, v) ==>
                  if |v| <= 127 && NibbleText(v) then f == Packed(Nibble)
                  else if |v| <= 127 && HexText(v) then f == Packed(Hex)
                  else if AT !in v then f.Raw?
                  else if Parse(v).value.device.Some? then f.AdJid? else f.JidPair?)
  {
  }

  /**
   The form in which a string is written, by its first byte: a token of the first table,
   of another one, packed as digits, packed as hexadecimal, a device address, another
   address, or the bytes themselves.
   */
  lemma FirstByte(T: Table, v: Bytes)
    requires Shape(T) && EncodeString(T, v).Ok?
    ensures var e := EncodeString(T, v).value;
            && e != []
            && (if v == [] then 252 <= e[0] <= 254
                else if v in T.single then |e| == 1 && 1 <= e[0] <= 235
                else if IsToken(T, v) then |e| == 2 && 236 <= e[0] <= 239
                else if |v| <= 127 && NibbleText(v) then e[0] == 255
                else if |v| <= 127 && HexText(v) then e[0] == 251
                else if AT !in v then 252 <= e[0] <= 254
                else if Parse(v).value.device.Some? then e[0] == 247 else e[0] == 250)
  {
    FormChosen(T, v);
    match FormOf(T, v) {
      case SingleToken(_) => TokenBytes(T, v);
      case DoubleToken(_, _) => TokenBytes(T, v);
      case Packed(_) => PackedBytes(T, v);
      case AdJid(_, _, _) => AddressBytes(T, v);
      case JidPair(_, _) => AddressBytes(T, v);
      case Raw => RawBytesWritten(T, v);
    }
  }

  /** The bytes themselves have the shortest of the three lengths in front, and must be fewer than 2^32 - 1. */
  lemma RawWritten(v: Bytes)
    ensures RawString(v).Ok? <==> |v| < 0xFFFF_FFFF
    ensures RawString(v).Ok? ==>
              var e := RawString(v).value;
              && IsRaw(e, v)
              && e[0] == (if |v| < 256 then 252 else if |v| < 0x10_0000 then 253 else 254)
  {
    if |v| < 0xFFFF_FFFF {
      var h := LengthHeader(|v|).value;
      Digits256(|v|);
      assert (h + v)[|h|..] == v;
    }
  }

  /** The domain byte of a device address, by the server's text and the agent. */
  function DomainByte(raw: Bytes, agent: Option<nat>): Byte {
    if raw == Ascii("lid") then 1
    else if raw == Ascii("hosted") then 128
    else if raw == Ascii("hosted.lid") then 129
    else if agent == Some(1) then 1
    else if agent == Some(128) then 128
    else if agent == Some(129) then 129
    else 0
  }

  lemma DomainByteIs(raw: Bytes, agent: Option<nat>)
    ensures DomainCode(DomainOf(ServerFromName(raw), agent)) == DomainByte(raw, agent)
  {
    KnownIff(raw);
    ServersSpelled(5);
    ServersSpelled(8);
    ServersSpelled(9);
    ServerNameRoundTrip(Lid);
    ServerNameRoundTrip(Hosted);
    ServerNameRoundTrip(HostedLid);
  }

  /** The text of an address: user, perhaps an agent, perhaps a device, and the server. */
  function Address(user: Bytes, agent: Option<nat>, device: Option<nat>, raw: Bytes): Bytes {
    user + (if agent.Some? then Ascii("_") + Decimal(agent.value) else [])
    + (if device.Some? then Ascii(":") + Decimal(device.value) else []) + Ascii("@") + raw
  }

  lemma AddressParsed(user: Bytes, agent: Option<nat>, device: Option<nat>, raw: Bytes)
    requires Plain(user) && IsU16(agent) && IsU16(device)
    ensures Parse(Address(user, agent, device, raw))
         == Some(FullJid(user, ServerFromName(raw), raw, device, agent, DomainOf(ServerFromName(raw), agent)))
  {
    SpelledAs([UNDERSCORE], "_");
    SpelledAs([COLON], ":");
    SpelledAs([AT], "@");
    ParseAssembled(user, agent, device, raw);
  }

  /** Printing an address gives its text. */
  lemma AddressPrinted(user: Bytes, server: Server, agent: Option<nat>, device: Option<nat>)
    ensures Print(user, server, device, agent) == Address(user, agent, device, ServerName(server))
  {
    SpelledAs([UNDERSCORE], "_");
    SpelledAs([COLON], ":");
    SpelledAs([AT], "@");
  }

  /**
   A device address is written as 247, its domain byte, the low byte of its device and
   its user, and fails only if its user cannot be written.
   */
  lemma DeviceWritten(T: Table, user: Bytes, agent: Option<nat>, device: nat, raw: Bytes)
    requires Shape(T) && Plain(user) && IsU16(agent) && device < 0x1_0000
    ensures var v, u := Address(user, agent, Some(device), raw), EncodeString(T, user);
            EncodeString(T, v)
            == (if u.Ok? then Ok([247, DomainByte(raw, agent), (device % 256) as Byte] + u.value) else u)
  {
    var v := Address(user, agent, Some(device), raw);
    AddressParsed(user, agent, Some(device), raw);
    DomainByteIs(raw, agent);
    AddressForm(T, v);
    DeviceEncoded(T, v, DomainOf(ServerFromName(raw), agent), device, user);
  }

  lemma DeviceEncoded(T: Table, v: Bytes, domain: Domain, device: nat, user: Bytes)
    requires Shape(T) && FormOf(T, v) == AdJid(domain, device, user)
    ensures var u := EncodeString(T, user);
            EncodeString(T, v) == (if u.Ok? then Ok([247, DomainCode(domain), (device % 256) as Byte] + u.value) else u)
  {
  }

  /** Another address is written as 250, its user, or 0 if it has none, and the text of its server. */
  lemma PairWritten(T: Table, user: Bytes, agent: Option<nat>, raw: Bytes)
    requires Shape(T) && Plain(user) && IsU16(agent)
    ensures var v := Address(user, agent, None, raw);
            var u := if user == [] then Ok([0]) else EncodeString(T, user);
            var s := RawString(raw);
            EncodeString(T, v) == (if u.Err? then u else if s.Err? then s else Ok([250] + u.value + s.value))
  {
    var v := Address(user, agent, None, raw);
    AddressParsed(user, agent, None, raw);
    AddressForm(T, v);
  }

  /** A string with an `@` is no token and cannot be packed. */
  lemma AddressForm(T: Table, v: Bytes)
    requires Shape(T) && Parse(v).Some?
    ensures FormOf(T, v) == JidForm(Parse(v))
  {
    if TokenFor(T, v).Some? {
      TokenHasNoAt(T, v);
    }
    var i :| 0 <= i < |v| && v[i] == AT;
    assert !NibbleChar(v[i]) && !HexChar(v[i]);
  }
}
