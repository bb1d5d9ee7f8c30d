/**
 The persisted forms of a collection state and of a blocked-collection record
 (crates/wa-core/src/app_state.rs).
 */
module StateBytes {
  import opened Prelude
  import opened SortedMap
  import opened BigEndian
  import opened LtHash
  import opened AppCrypto
  import opened PatchState

  const STATE_MAGIC: Bytes := [0x41, 0x53, 0x50, 0x53] // ASPS
  const BLOCKED_MAGIC: Bytes := [0x41, 0x53, 0x42, 0x4B] // ASBK
  const FORMAT_VERSION: Byte := 1

  datatype StoreError =
    | TooManyEntries
    | BadIndexKey
    | FieldTooLong
    | InvalidMagic
    | UnsupportedFormat(format: Byte)
    | Truncated
    | TrailingBytes
    | EmptyKeyId
    | Invalid(error: StateError)

  // ----- Writing -------------------------------------------------------------

  /** `write_len_prefixed` */
  function LenPrefixed(b: Bytes): Result<Bytes, StoreError> {
    if |b| >= U32_SIZE then Err(FieldTooLong) else Ok(ToBytes(|b|, 4) + b)
  }

  function EncodeEntry(e: Entry<Bytes>): Result<Bytes, StoreError> {
    match Base64.Decode(e.key)
    case None => Err(BadIndexKey)
    case Some(indexMac) =>
      if |indexMac| != MAC_LEN || |e.val| != MAC_LEN then Err(Invalid(BadMacLength))
      else
        var i :- LenPrefixed(indexMac);
        var v :- LenPrefixed(e.val);
        Ok(i + v)
  }

  function EncodeEntries(m: MacMap): Result<Bytes, StoreError>
    decreases |m|
  {
    if m == [] then Ok([])
    else
      var first :- EncodeEntry(m[0]);
      var rest :- EncodeEntries(m[1..]);
      Ok(first + rest)
  }

  /** `encode_app_state_patch_state_bytes` */
  function EncodeState(s: State): Result<Bytes, StoreError> {
    if |s.macs| >= U32_SIZE then Err(TooManyEntries)
    else
      var hash :- LenPrefixed(s.hash);
      var entries :- EncodeEntries(s.macs);
      Ok(STATE_MAGIC + ([FORMAT_VERSION] + (ToBytes(s.version, 8) + (hash + (ToBytes(|s.macs|, 4) + entries)))))
  }

  /** The part of a blocked record that is stored under its collection's name. */
  datatype Blocked = Blocked(keyId: Bytes, previousVersion: nat)

  /** `encode_app_state_blocked_collection_bytes` */
  function EncodeBlocked(b: Blocked): Result<Bytes, StoreError> {
    if b.keyId == [] then Err(EmptyKeyId)
    else
      var keyId :- LenPrefixed(b.keyId);
      Ok(BLOCKED_MAGIC + ([FORMAT_VERSION] + (ToBytes(b.previousVersion, 8) + keyId)))
  }

  // ----- Reading -------------------------------------------------------------

  datatype Taken<+V> = Taken(value: V, rest: Bytes)

  type Reading<+V> = Result<Taken<V>, StoreError>

  /** `read_exact` */
  function ReadExact(s: Bytes, len: nat): Reading<Bytes> {
    if len > |s| then Err(Truncated) else Ok(Taken(s[..len], s[len..]))
  }

  /** `read_u8`, `read_u32` and `read_u64` */
  function ReadNumber(s: Bytes, width: nat): Reading<nat> {
    var t :- ReadExact(s, width);
    Ok(Taken(FromBytes(t.value), t.rest))
  }

  /** `read_len_prefixed` */
  function ReadLenPrefixed(s: Bytes): Reading<Bytes> {
    var len :- ReadNumber(s, 4);
    ReadExact(len.rest, len.value)
  }

  /** The magic and the format version. */
  function ReadHeader(s: Bytes, magic: Bytes): Reading<()> {
    var m :- ReadExact(s, |magic|);
    if m.value != magic then Err(InvalidMagic)
    else
      var f :- ReadExact(m.rest, 1);
      if f.value[0] != FORMAT_VERSION then Err(UnsupportedFormat(f.value[0])) else Ok(Taken((), f.rest))
  }

  datatype RawEntry = RawEntry(indexMac: Bytes, valueMac: Bytes)

  function ReadEntry(s: Bytes): Reading<RawEntry> {
    var i :- ReadLenPrefixed(s);
    var v :- ReadLenPrefixed(i.rest);
    Ok(Taken(RawEntry(i.value, v.value), v.rest))
  }

  function ReadEntries(s: Bytes, count: nat, acc: seq<RawEntry>): Reading<seq<RawEntry>>
    decreases count
  {
    if count == 0 then Ok(Taken(acc, s))
    else
      var e :- ReadEntry(s);
      ReadEntries(e.rest, count - 1, acc + [e.value])
  }

  datatype RawState = RawState(version: nat, hash: Bytes, entries: seq<RawEntry>)

  function ReadState(s: Bytes): Reading<RawState> {
    var header :- ReadHeader(s, STATE_MAGIC);
    var version :- ReadNumber(header.rest, 8);
    var hash :- ReadLenPrefixed(version.rest);
    var count :- ReadNumber(hash.rest, 4);
    var entries :- ReadEntries(count.rest, count.value, []);
    Ok(Taken(RawState(version.value, hash.value, entries.value), entries.rest))
  }

  function FromEntries(es: seq<RawEntry>, acc: MacMap): Result<MacMap, StateError>
    decreases |es|
  {
    if es == [] then Ok(acc)
    else if |es[0].indexMac| != MAC_LEN || |es[0].valueMac| != MAC_LEN then Err(BadMacLength)
    else FromEntries(es[1..], Insert(acc, Base64.Encode(es[0].indexMac), es[0].valueMac))
  }

  /** `AppStatePatchState::from_index_value_macs` */
  function FromRaw(raw: RawState): Result<State, StateError> {
    if |raw.hash| != HASH_LEN then Err(BadHashLength)
    else
      var macs :- FromEntries(raw.entries, []);
      Ok(State(raw.version, raw.hash, macs))
  }

  function Lift<V>(r: Result<V, StateError>): Result<V, StoreError> {
    if r.Ok? then Ok(r.value) else Err(Invalid(r.error))
  }

  /** `decode_app_state_patch_state_bytes` */
  function DecodeState(s: Bytes): Result<State, StoreError> {
    var raw :- ReadState(s);
    if raw.rest != [] then Err(TrailingBytes) else Lift(FromRaw(raw.value))
  }

  function ReadBlocked(s: Bytes): Reading<Blocked> {
    var header :- ReadHeader(s, BLOCKED_MAGIC);
    var version :- ReadNumber(header.rest, 8);
    var keyId :- ReadLenPrefixed(version.rest);
    if keyId.value == [] then Err(EmptyKeyId) else Ok(Taken(Blocked(keyId.value, version.value), keyId.rest))
  }

  /** `decode_app_state_blocked_collection_bytes` */
  function DecodeBlocked(s: Bytes): Result<Blocked, StoreError> {
    var b :- ReadBlocked(s);
    if b.rest != [] then Err(TrailingBytes) else Ok(b.value)
  }

  // ----- Round trips ---------------------------------------------------------

  lemma TakeExact(b: Bytes, rest: Bytes)
    ensures ReadExact(b + rest, |b|) == Ok(Taken(b, rest))
  {
    DropPrefix(b, rest);
  }

  lemma TakeNumber(n: nat, width: nat, rest: Bytes)
    requires n < Pow256(width)
    ensures ReadNumber(ToBytes(n, width) + rest, width) == Ok(Taken(n, rest))
  {
    TakeExact(ToBytes(n, width), rest);
    RoundTrip(n, width);
  }

  lemma TakeLenPrefixed(b: Bytes, rest: Bytes)
    requires |b| < U32_SIZE
    ensures ReadLenPrefixed(ToBytes(|b|, 4) + b + rest) == Ok(Taken(b, rest))
  {
    WidthSizes();
    Assoc(ToBytes(|b|, 4), b, rest);
    TakeNumber(|b|, 4, b + rest);
    TakeExact(b, rest);
  }

  lemma TakeHeader(magic: Bytes, rest: Bytes)
    ensures ReadHeader(magic + ([FORMAT_VERSION] + rest), magic) == Ok(Taken((), rest))
  {
    TakeExact(magic, [FORMAT_VERSION] + rest);
    TakeExact([FORMAT_VERSION], rest);
  }

  function RawOf(e: Entry<Bytes>): RawEntry
    requires ValidEntry(e)
  {
    RawEntry(Base64.Decode(e.key).value, e.val)
  }

  lemma TakeEntry(e: Entry<Bytes>, rest: Bytes)
    requires ValidEntry(e)
    ensures EncodeEntry(e).Ok?
    ensures ReadEntry(EncodeEntry(e).value + rest) == Ok(Taken(RawOf(e), rest))
  {
    var indexMac := Base64.Decode(e.key).value;
    var i, v := LenPrefixed(indexMac).value, LenPrefixed(e.val).value;
    Assoc(i, v, rest);
    TakeLenPrefixed(indexMac, v + rest);
    TakeLenPrefixed(e.val, rest);
  }

  function RawsOf(m: MacMap): seq<RawEntry>
    requires forall i :: 0 <= i < |m| ==> ValidEntry(m[i])
    decreases |m|
  {
    if m == [] then [] else [RawOf(m[0])] + RawsOf(m[1..])
  }

  lemma {:induction false} TakeEntries(m: MacMap, rest: Bytes, acc: seq<RawEntry>)
    requires forall i :: 0 <= i < |m| ==> ValidEntry(m[i])
    ensures EncodeEntries(m).Ok?
    ensures ReadEntries(EncodeEntries(m).value + rest, |m|, acc) == Ok(Taken(acc + RawsOf(m), rest))
    decreases |m|
  {
    if m == [] {
      assert EncodeEntries(m).value + rest == rest && acc + RawsOf(m) == acc;
    } else {
      TakeEntries(m[1..], rest, acc + [RawOf(m[0])]);
      TakeEntry(m[0], EncodeEntries(m[1..]).value + rest);
      var first, more := EncodeEntry(m[0]).value, EncodeEntries(m[1..]).value;
      Assoc(first, more, rest);
      Assoc(acc, [RawOf(m[0])], RawsOf(m[1..]));
      EntriesStep(first + (more + rest), |m| - 1, acc, RawOf(m[0]), more + rest);
    }
  }

  lemma EntriesStep(s: Bytes, count: nat, acc: seq<RawEntry>, e: RawEntry, rest: Bytes)
    requires ReadEntry(s) == Ok(Taken(e, rest))
    ensures ReadEntries(s, count + 1, acc) == ReadEntries(rest, count, acc + [e])
  {
  }

  lemma {:induction false} FromRaws(m: MacMap, acc: MacMap)
    requires forall i :: 0 <= i < |m| ==> ValidEntry(m[i])
    ensures FromEntries(RawsOf(m), acc) == Ok(InsertAll(acc, m))
    decreases |m|
  {
    if m != [] {
      FromRaws(m[1..], Insert(acc, m[0].key, m[0].val));
      assert RawsOf(m)[1..] == RawsOf(m[1..]);
    }
  }

  /** States that fit the format. */
  predicate Storable(s: State) {
    ValidMacs(s.macs) && |s.macs| < U32_SIZE && s.version <= U64_MAX
  }

  lemma TakeState(s: State, rest: Bytes)
    requires Storable(s)
    ensures EncodeState(s).Ok?
    ensures ReadState(EncodeState(s).value + rest) == Ok(Taken(RawState(s.version, s.hash, RawsOf(s.macs)), rest))
  {
    WidthSizes();
    TakeEntries(s.macs, rest, []);
    assert [] + RawsOf(s.macs) == RawsOf(s.macs);
    var e4 := EncodeEntries(s.macs).value;
    var e3 := ToBytes(|s.macs|, 4) + e4;
    var e2 := LenPrefixed(s.hash).value + e3;
    var e1 := ToBytes(s.version, 8) + e2;
    Assoc(STATE_MAGIC, [FORMAT_VERSION] + e1, rest);
    Assoc([FORMAT_VERSION], e1, rest);
    Assoc(ToBytes(s.version, 8), e2, rest);
    Assoc(LenPrefixed(s.hash).value, e3, rest);
    Assoc(ToBytes(|s.macs|, 4), e4, rest);
    TakeHeader(STATE_MAGIC, e1 + rest);
    TakeNumber(s.version, 8, e2 + rest);
    TakeLenPrefixed(s.hash, e3 + rest);
    TakeNumber(|s.macs|, 4, e4 + rest);
  }

  /** Storing a state and loading it returns it. */
  lemma StateRoundTrip(s: State)
    requires Storable(s)
    ensures EncodeState(s).Ok? && DecodeState(EncodeState(s).value) == Ok(s)
  {
    TakeState(s, []);
    assert EncodeState(s).value + [] == EncodeState(s).value;
    FromRaws(s.macs, []);
    InsertAllSorted([], s.macs);
    assert [] + s.macs == s.macs;
  }

  lemma TakeBlocked(b: Blocked, rest: Bytes)
    requires b.keyId != [] && |b.keyId| < U32_SIZE && b.previousVersion <= U64_MAX
    ensures EncodeBlocked(b).Ok?
    ensures ReadBlocked(EncodeBlocked(b).value + rest) == Ok(Taken(b, rest))
  {
    WidthSizes();
    var e2 := LenPrefixed(b.keyId).value;
    var e1 := ToBytes(b.previousVersion, 8) + e2;
    Assoc(BLOCKED_MAGIC, [FORMAT_VERSION] + e1, rest);
    Assoc([FORMAT_VERSION], e1, rest);
    Assoc(ToBytes(b.previousVersion, 8), e2, rest);
    TakeHeader(BLOCKED_MAGIC, e1 + rest);
    TakeNumber(b.previousVersion, 8, e2 + rest);
    TakeLenPrefixed(b.keyId, rest);
  }

  lemma BlockedRoundTrip(b: Blocked)
    requires b.keyId != [] && |b.keyId| < U32_SIZE && b.previousVersion <= U64_MAX
    ensures EncodeBlocked(b).Ok? && DecodeBlocked(EncodeBlocked(b).value) == Ok(b)
  {
    TakeBlocked(b, []);
    assert EncodeBlocked(b).value + [] == EncodeBlocked(b).value;
  }

  // ----- No accepted string is part of another -------------------------------

  /** A reading that succeeds does not depend on what follows. */
  ghost predicate Local<V>(before: Reading<V>, after: Reading<V>, x: Bytes) {
    before.Ok? ==> after == Ok(Taken(before.value.value, before.value.rest + x))
  }

  lemma ExactLocal(s: Bytes, len: nat, x: Bytes)
    ensures Local(ReadExact(s, len), ReadExact(s + x, len), x)
  {
    if len <= |s| {
      assert (s + x)[..len] == s[..len] && (s + x)[len..] == s[len..] + x;
    }
  }

  lemma LenPrefixedLocal(s: Bytes, x: Bytes)
    ensures Local(ReadLenPrefixed(s), ReadLenPrefixed(s + x), x)
  {
    ExactLocal(s, 4, x);
    if ReadNumber(s, 4).Ok? {
      var len := ReadNumber(s, 4).value;
      ExactLocal(len.rest, len.value, x);
    }
  }

  lemma HeaderLocal(s: Bytes, magic: Bytes, x: Bytes)
    ensures Local(ReadHeader(s, magic), ReadHeader(s + x, magic), x)
  {
    ExactLocal(s, |magic|, x);
    if ReadExact(s, |magic|).Ok? {
      ExactLocal(ReadExact(s, |magic|).value.rest, 1, x);
    }
  }

  ghost predicate EntriesAreLocal(s: Bytes, count: nat, acc: seq<RawEntry>, x: Bytes) {
    Local(ReadEntries(s, count, acc), ReadEntries(s + x, count, acc), x)
  }

  lemma {:induction false} EntriesLocal(s: Bytes, count: nat, acc: seq<RawEntry>, x: Bytes)
    ensures EntriesAreLocal(s, count, acc, x)
    decreases count
  {
    if count > 0 && ReadEntry(s).Ok? {
      var e, n := ReadEntry(s).value, count - 1;
      EntriesLocal(e.rest, n, acc + [e.value], x);
      EntriesLocalStep(s, n, count, acc, x, e);
    }
  }

  lemma EntriesLocalStep(s: Bytes, n: nat, count: nat, acc: seq<RawEntry>, x: Bytes, e: Taken<RawEntry>)
    requires count == n + 1 && ReadEntry(s) == Ok(e)
    ensures EntriesAreLocal(e.rest, n, acc + [e.value], x) ==> EntriesAreLocal(s, count, acc, x)
  {
    EntryLocal(s, x);
    EntriesStep(s, n, acc, e.value, e.rest);
    EntriesStep(s + x, n, acc, e.value, e.rest + x);
  }

  lemma EntryLocal(s: Bytes, x: Bytes)
    ensures Local(ReadEntry(s), ReadEntry(s + x), x)
  {
    LenPrefixedLocal(s, x);
    if ReadLenPrefixed(s).Ok? {
      LenPrefixedLocal(ReadLenPrefixed(s).value.rest, x);
    }
  }

  lemma StateLocal(s: Bytes, x: Bytes)
    requires ReadState(s).Ok?
    ensures Local(ReadState(s), ReadState(s + x), x)
  {
    HeaderLocal(s, STATE_MAGIC, x);
    var header := ReadHeader(s, STATE_MAGIC).value;
    ExactLocal(header.rest, 8, x);
    var version := ReadNumber(header.rest, 8).value;
    LenPrefixedLocal(version.rest, x);
    var hash := ReadLenPrefixed(version.rest).value;
    ExactLocal(hash.rest, 4, x);
    var count := ReadNumber(hash.rest, 4).value;
    EntriesLocal(count.rest, count.value, [], x);
  }

  lemma BlockedLocal(s: Bytes, x: Bytes)
    requires ReadBlocked(s).Ok?
    ensures Local(ReadBlocked(s), ReadBlocked(s + x), x)
  {
    HeaderLocal(s, BLOCKED_MAGIC, x);
    var header := ReadHeader(s, BLOCKED_MAGIC).value;
    ExactLocal(header.rest, 8, x);
    LenPrefixedLocal(ReadNumber(header.rest, 8).value.rest, x);
  }

  /** Cutting an accepted string short, or adding to it, makes it unacceptable. */
  lemma StatePrefixFree(s: Bytes, x: Bytes)
    requires x != []
    ensures DecodeState(s).Ok? ==> DecodeState(s + x) == Err(TrailingBytes)
    ensures DecodeState(s + x).Ok? ==> DecodeState(s).Err?
  {
    if DecodeState(s).Ok? {
      StateLocal(s, x);
      assert [] + x == x;
    }
  }

  lemma BlockedPrefixFree(s: Bytes, x: Bytes)
    requires x != []
    ensures DecodeBlocked(s).Ok? ==> DecodeBlocked(s + x) == Err(TrailingBytes)
    ensures DecodeBlocked(s + x).Ok? ==> DecodeBlocked(s).Err?
  {
    if DecodeBlocked(s).Ok? {
      BlockedLocal(s, x);
      assert [] + x == x;
    }
  }

  // ----- In place ------------------------------------------------------------

  /** The method result `r`, with `rest` still unread, is what the format specifies. */
  ghost predicate Follows<V>(spec: Reading<V>, r: Result<V, StoreError>, rest: Bytes) {
    if spec.Ok? then r == Ok(spec.value.value) && rest == spec.value.rest else r == Err(spec.error)
  }

  /** Stored bytes and the offset up to which they have been read. */
  class Reader {
    const bytes: Bytes
    var offset: nat

    ghost predicate Valid()
      reads this
    {
      offset <= |bytes|
    }

    ghost function Rest(): Bytes
      reads this
      requires Valid()
    {
      bytes[offset..]
    }

    constructor (bytes: Bytes)
      ensures Valid() && this.bytes == bytes && Rest() == bytes
    {
      this.bytes := bytes;
      offset := 0;
    }

    method Exact(len: nat) returns (r: Result<Bytes, StoreError>)
      requires Valid()
      modifies this
      ensures Valid() && Follows(ReadExact(old(Rest()), len), r, Rest())
      ensures r.Ok? ==> |r.value| == len
    {
      var end := offset + len;
      if end > |bytes| {
        return Err(Truncated);
      }
      assert Rest()[..len] == bytes[offset..end] && Rest()[len..] == bytes[end..];
      r := Ok(bytes[offset..end]);
      offset := end;
    }

    method Number(width: nat) returns (r: Result<nat, StoreError>)
      requires Valid()
      modifies this
      ensures Valid() && Follows(ReadNumber(old(Rest()), width), r, Rest())
    {
      var b :- Exact(width);
      return Ok(FromBytes(b));
    }

    method WithLength() returns (r: Result<Bytes, StoreError>)
      requires Valid()
      modifies this
      ensures Valid() && Follows(ReadLenPrefixed(old(Rest())), r, Rest())
    {
      var len :- Number(4);
      r := Exact(len);
    }

    method Header(magic: Bytes) returns (r: Result<(), StoreError>)
      requires Valid()
      modifies this
      ensures Valid() && Follows(ReadHeader(old(Rest()), magic), r, Rest())
    {
      var m :- Exact(|magic|);
      if m != magic {
        return Err(InvalidMagic);
      }
      var f :- Exact(1);
      if f[0] != FORMAT_VERSION {
        return Err(UnsupportedFormat(f[0]));
      }
      return Ok(());
    }

    method Entries(count: nat) returns (r: Result<seq<RawEntry>, StoreError>)
      requires Valid()
      modifies this
      ensures Valid() && Follows(ReadEntries(old(Rest()), count, []), r, Rest())
    {
      var entries: seq<RawEntry> := [];
      for k := 0 to count
        invariant Valid()
        invariant ReadEntries(old(Rest()), count, []) == ReadEntries(Rest(), count - k, entries)
      {
        var i :- WithLength();
        var v :- WithLength();
        entries := entries + [RawEntry(i, v)];
      }
      return Ok(entries);
    }

    method AtEnd() returns (r: bool)
      requires Valid()
      ensures r <==> Rest() == []
    {
      return offset == |bytes|;
    }
  }

  /** `decode_app_state_patch_state_bytes` */
  method DecodeStateBytes(bytes: Bytes) returns (r: Result<State, StoreError>)
    ensures r == DecodeState(bytes)
  {
    var reader := new Reader(bytes);
    var _ :- reader.Header(STATE_MAGIC);
    var version :- reader.Number(8);
    var hash :- reader.WithLength();
    var count :- reader.Number(4);
    var entries :- reader.Entries(count);
    var done := reader.AtEnd();
    if !done {
      return Err(TrailingBytes);
    }
    if |hash| != HASH_LEN {
      return Err(Invalid(BadHashLength));
    }
    var macs := BuildMacs(entries);
    if macs.Err? {
      return Err(Invalid(macs.error));
    }
    return Ok(State(version, hash, macs.value));
  }

  /** The loop of `from_index_value_macs` */
  method BuildMacs(entries: seq<RawEntry>) returns (r: Result<MacMap, StateError>)
    ensures r == FromEntries(entries, [])
  {
    var macs: MacMap := [];
    for i := 0 to |entries|
      invariant FromEntries(entries, []) == FromEntries(entries[i..], macs)
    {
      assert entries[i..][1..] == entries[i + 1..];
      if |entries[i].indexMac| != MAC_LEN || |entries[i].valueMac| != MAC_LEN {
        return Err(BadMacLength);
      }
      macs := Insert(macs, Base64.Encode(entries[i].indexMac), entries[i].valueMac);
    }
    return Ok(macs);
  }

  /** What is left to write after `done`. */
  function Onto(done: Bytes, rest: Result<Bytes, StoreError>): Result<Bytes, StoreError> {
    if rest.Ok? then Ok(done + rest.value) else rest
  }

  lemma OntoStep(done: Bytes, first: Bytes, more: Result<Bytes, StoreError>)
    ensures Onto(done, Onto(first, more)) == Onto(done + first, more)
  {
    if more.Ok? {
      Assoc(done, first, more.value);
    }
  }

  lemma EntriesTail(m: MacMap, i: nat)
    requires i < |m|
    ensures var first := EncodeEntry(m[i]);
            EncodeEntries(m[i..]) == if first.Ok? then Onto(first.value, EncodeEntries(m[i + 1..])) else first
  {
    assert m[i..][1..] == m[i + 1..];
  }

  /** `encode_app_state_patch_state_bytes` */
  method EncodeStateBytes(s: State) returns (r: Result<Bytes, StoreError>)
    ensures r == EncodeState(s)
  {
    if |s.macs| >= U32_SIZE {
      return Err(TooManyEntries);
    }
    var output := STATE_MAGIC + ([FORMAT_VERSION] + (ToBytes(s.version, 8)
                  + (ToBytes(HASH_LEN, 4) + s.hash + ToBytes(|s.macs|, 4))));
    ghost var head := output;
    StateHead(s);
    assert s.macs[0..] == s.macs;
    for i := 0 to |s.macs|
      invariant EncodeState(s) == Onto(output, EncodeEntries(s.macs[i..]))
    {
      EntriesTail(s.macs, i);
      var e := s.macs[i];
      var indexMac := Base64.Decode(e.key);
      if indexMac.None? {
        return Err(BadIndexKey);
      }
      if |indexMac.value| != MAC_LEN || |e.val| != MAC_LEN {
        return Err(Invalid(BadMacLength));
      }
      var bytes := ToBytes(MAC_LEN, 4) + indexMac.value + (ToBytes(MAC_LEN, 4) + e.val);
      assert EncodeEntry(e) == Ok(bytes);
      OntoStep(output, bytes, EncodeEntries(s.macs[i + 1..]));
      output := output + bytes;
    }
    assert output + [] == output;
    return Ok(output);
  }

  lemma StateHead(s: State)
    requires |s.macs| < U32_SIZE
    ensures EncodeState(s) == Onto(STATE_MAGIC + ([FORMAT_VERSION] + (ToBytes(s.version, 8)
                                   + (ToBytes(HASH_LEN, 4) + s.hash + ToBytes(|s.macs|, 4)))), EncodeEntries(s.macs))
  {
    if EncodeEntries(s.macs).Ok? {
      var e := EncodeEntries(s.macs).value;
      var hash, count := ToBytes(HASH_LEN, 4) + s.hash, ToBytes(|s.macs|, 4);
      Assoc(hash, count, e);
      Assoc(ToBytes(s.version, 8), hash + count, e);
      Assoc([FORMAT_VERSION], ToBytes(s.version, 8) + (hash + count), e);
      Assoc(STATE_MAGIC, [FORMAT_VERSION] + (ToBytes(s.version, 8) + (hash + count)), e);
    }
  }
}
