/**
 The stored forms of states and blocked records, byte for byte
 (crates/wa-core/src/app_state.rs): exactly which bytes are read, and as what.
 */
module StateLayout {
  import opened Prelude
  import opened Text
  import opened SortedMap
  import opened BigEndian
  import opened PatchState
  import opened StateBytes
  import Jid

  // ----- The layout --------------------------------------------------------------

  /** Four bytes of length, and the bytes. */
  function Lengthened(b: Bytes): Bytes {
    Four(|b|) + b
  }

  function EntriesLayout(es: seq<RawEntry>): Bytes {
    if es == [] then [] else Lengthened(es[0].indexMac) + Lengthened(es[0].valueMac) + EntriesLayout(es[1..])
  }

  /** Four letters, format 1, the version, the hash, the number of entries, and the entries. */
  function StateText(version: nat, hash: Bytes, es: seq<RawEntry>): Bytes {
    Ascii("ASPS") + ([1] + (Eight(version) + (Lengthened(hash) + (Four(|es|) + EntriesLayout(es)))))
  }

  /** Four letters, format 1, the version, and the key id. */
  function BlockedText(b: Blocked): Bytes {
    Ascii("ASBK") + ([1] + (Eight(b.previousVersion) + Lengthened(b.keyId)))
  }

  lemma MagicsSpelled()
    ensures STATE_MAGIC == Ascii("ASPS") && BLOCKED_MAGIC == Ascii("ASBK")
  {
    Jid.SpelledAs(STATE_MAGIC, "ASPS");
    Jid.SpelledAs(BLOCKED_MAGIC, "ASBK");
  }

  // ----- What a reading has read ---------------------------------------------------

  lemma NumberRead(s: Bytes, width: nat)
    requires ReadNumber(s, width).Ok?
    ensures var t := ReadNumber(s, width).value;
            t.value < Pow256(width) && s == ToBytes(t.value, width) + t.rest
  {
    FromBytesBound(s[..width]);
    BytesRoundTrip(s[..width]);
  }

  lemma LengthenedRead(s: Bytes)
    requires ReadLenPrefixed(s).Ok?
    ensures var t := ReadLenPrefixed(s).value; |t.value| < U32_SIZE && s == Lengthened(t.value) + t.rest
  {
    NumberRead(s, 4);
    WidthSizes();
    var len := ReadNumber(s, 4).value;
    var t := ReadExact(len.rest, len.value).value;
    FourAre(len.value);
    assert len.rest == t.value + t.rest;
    Assoc(Four(len.value), t.value, t.rest);
  }

  lemma HeaderRead(s: Bytes, magic: Bytes)
    requires ReadHeader(s, magic).Ok?
    ensures s == magic + ([1] + ReadHeader(s, magic).value.rest)
  {
    var m := ReadExact(s, |magic|).value;
    assert s == m.value + m.rest;
    assert m.rest == [m.rest[0]] + m.rest[1..];
  }

  lemma EntryRead(s: Bytes)
    requires ReadEntry(s).Ok?
    ensures var t := ReadEntry(s).value;
            && |t.value.indexMac| < U32_SIZE && |t.value.valueMac| < U32_SIZE
            && s == Lengthened(t.value.indexMac) + Lengthened(t.value.valueMac) + t.rest
  {
    LengthenedRead(s);
    var i := ReadLenPrefixed(s).value;
    LengthenedRead(i.rest);
    var v := ReadLenPrefixed(i.rest).value;
    Assoc(Lengthened(i.value), Lengthened(v.value), v.rest);
  }

  predicate AllShort(es: seq<RawEntry>) {
    forall i :: 0 <= i < |es| ==> |es[i].indexMac| < U32_SIZE && |es[i].valueMac| < U32_SIZE
  }

  /** The entries have been read after `acc`, and `s` begins with their layout. */
  ghost predicate EntriesAre(s: Bytes, acc: seq<RawEntry>, t: Taken<seq<RawEntry>>, es: seq<RawEntry>) {
    t.value == acc + es && s == EntriesLayout(es) + t.rest && AllShort(es)
  }

  lemma FirstEntry(s: Bytes, count: nat, acc: seq<RawEntry>, t: Taken<seq<RawEntry>>) returns (e: Taken<RawEntry>, n: nat)
    requires count > 0 && ReadEntries(s, count, acc) == Ok(t)
    ensures ReadEntry(s) == Ok(e) && count == n + 1 && ReadEntries(e.rest, n, acc + [e.value]) == Ok(t)
  {
    e, n := ReadEntry(s).value, count - 1;
  }

  lemma EntriesJoin(s: Bytes, acc: seq<RawEntry>, t: Taken<seq<RawEntry>>, e: Taken<RawEntry>, more: seq<RawEntry>)
    requires ReadEntry(s) == Ok(e) && EntriesAre(e.rest, acc + [e.value], t, more)
    ensures EntriesAre(s, acc, t, [e.value] + more)
  {
    EntryRead(s);
    EntriesCons(e.value, more, t.rest, acc);
  }

  lemma {:induction false} EntriesRead(s: Bytes, count: nat, acc: seq<RawEntry>, t: Taken<seq<RawEntry>>)
    returns (es: seq<RawEntry>)
    requires ReadEntries(s, count, acc) == Ok(t)
    ensures |es| == count && EntriesAre(s, acc, t, es)
    decreases count
  {
    if count == 0 {
      es := [];
      assert acc + es == acc && EntriesLayout(es) + s == s;
    } else {
      var e, n := FirstEntry(s, count, acc, t);
      var more := EntriesRead(e.rest, n, acc + [e.value], t);
      EntriesJoin(s, acc, t, e, more);
      es := [e.value] + more;
    }
  }

  lemma EntriesCons(e: RawEntry, more: seq<RawEntry>, rest: Bytes, acc: seq<RawEntry>)
    ensures EntriesLayout([e] + more) == Lengthened(e.indexMac) + Lengthened(e.valueMac) + EntriesLayout(more)
    ensures Lengthened(e.indexMac) + Lengthened(e.valueMac) + (EntriesLayout(more) + rest) == EntriesLayout([e] + more) + rest
    ensures acc + [e] + more == acc + ([e] + more)
    ensures AllShort(more) && |e.indexMac| < U32_SIZE && |e.valueMac| < U32_SIZE ==> AllShort([e] + more)
  {
    var es := [e] + more;
    assert es[0] == e && es[1..] == more;
  }

  /** Everything that was read of a state. */
  lemma StateRead(s: Bytes)
    requires ReadState(s).Ok?
    ensures var t := ReadState(s).value;
            && s == StateText(t.value.version, t.value.hash, t.value.entries) + t.rest
            && t.value.version < U64_SIZE && |t.value.hash| < U32_SIZE && |t.value.entries| < U32_SIZE
            && AllShort(t.value.entries)
  {
    MagicsSpelled();
    HeaderRead(s, STATE_MAGIC);
    var header := ReadHeader(s, STATE_MAGIC).value;
    NumberRead(header.rest, 8);
    var version := ReadNumber(header.rest, 8).value;
    LengthenedRead(version.rest);
    var hash := ReadLenPrefixed(version.rest).value;
    NumberRead(hash.rest, 4);
    var count := ReadNumber(hash.rest, 4).value;
    var es := EntriesRead(count.rest, count.value, [], ReadEntries(count.rest, count.value, []).value);
    assert [] + es == es;
    WidthSizes();
    EightAre(version.value);
    FourAre(count.value);
    StatePieces(version.value, hash.value, es, ReadState(s).value.rest);
  }

  lemma StatePieces(version: nat, hash: Bytes, es: seq<RawEntry>, rest: Bytes)
    ensures StateText(version, hash, es) + rest
         == Ascii("ASPS") + ([1] + (Eight(version) + (Lengthened(hash) + (Four(|es|) + (EntriesLayout(es) + rest)))))
  {
    var e4 := EntriesLayout(es);
    var e3 := Four(|es|) + e4;
    var e2 := Lengthened(hash) + e3;
    var e1 := Eight(version) + e2;
    Assoc(Ascii("ASPS"), [1] + e1, rest);
    Assoc([1], e1, rest);
    Assoc(Eight(version), e2, rest);
    Assoc(Lengthened(hash), e3, rest);
    Assoc(Four(|es|), e4, rest);
  }

  // ----- Reading the layout ----------------------------------------------------------

  lemma TakeLengthened(b: Bytes, rest: Bytes)
    requires |b| < U32_SIZE
    ensures ReadLenPrefixed(Lengthened(b) + rest) == Ok(Taken(b, rest))
  {
    FourAre(|b|);
    TakeLenPrefixed(b, rest);
  }

  /** The layout of the entries is read as them, after `acc`. */
  ghost predicate LayoutTaken(es: seq<RawEntry>, count: nat, rest: Bytes, acc: seq<RawEntry>) {
    ReadEntries(EntriesLayout(es) + rest, count, acc) == Ok(Taken(acc + es, rest))
  }

  lemma TakeOne(e: RawEntry, tail: Bytes)
    requires |e.indexMac| < U32_SIZE && |e.valueMac| < U32_SIZE
    ensures ReadEntry(Lengthened(e.indexMac) + Lengthened(e.valueMac) + tail) == Ok(Taken(e, tail))
  {
    Assoc(Lengthened(e.indexMac), Lengthened(e.valueMac), tail);
    TakeLengthened(e.indexMac, Lengthened(e.valueMac) + tail);
    TakeLengthened(e.valueMac, tail);
  }

  lemma TakeMore(e: RawEntry, more: seq<RawEntry>, n: nat, count: nat, rest: Bytes, acc: seq<RawEntry>)
    requires |e.indexMac| < U32_SIZE && |e.valueMac| < U32_SIZE && count == n + 1 && LayoutTaken(more, n, rest, acc + [e])
    ensures LayoutTaken([e] + more, count, rest, acc)
  {
    EntriesCons(e, more, rest, acc);
    TakeOne(e, EntriesLayout(more) + rest);
    EntriesStep(EntriesLayout([e] + more) + rest, n, acc, e, EntriesLayout(more) + rest);
  }

  lemma {:induction false} TakeLayout(es: seq<RawEntry>, rest: Bytes, acc: seq<RawEntry>)
    requires AllShort(es)
    ensures LayoutTaken(es, |es|, rest, acc)
    decreases |es|
  {
    if es == [] {
      assert EntriesLayout(es) + rest == rest && acc + es == acc;
    } else {
      var e, more := es[0], es[1..];
      TakeLayout(more, rest, acc + [e]);
      TakeMore(e, more, |more|, |es|, rest, acc);
      assert es == [e] + more;
    }
  }

  lemma TakeStateText(version: nat, hash: Bytes, es: seq<RawEntry>)
    requires version < U64_SIZE && |hash| < U32_SIZE && |es| < U32_SIZE && AllShort(es)
    ensures ReadState(StateText(version, hash, es)) == Ok(Taken(RawState(version, hash, es), []))
  {
    MagicsSpelled();
    WidthSizes();
    EightAre(version);
    FourAre(|es|);
    var e4 := EntriesLayout(es);
    var e3 := Four(|es|) + e4;
    var e2 := Lengthened(hash) + e3;
    TakeHeader(STATE_MAGIC, Eight(version) + e2);
    TakeNumber(version, 8, e2);
    TakeLengthened(hash, e3);
    TakeNumber(|es|, 4, e4);
    TakeLayout(es, [], []);
    assert e4 + [] == e4 && [] + es == es;
  }

  // ----- States ------------------------------------------------------------------------

  /** The last of the entries for an index MAC. */
  function LastEntry(es: seq<RawEntry>, k: Bytes): Option<Bytes>
    decreases |es|
  {
    if es == [] then None
    else if Base64.Encode(es[|es| - 1].indexMac) == k then Some(es[|es| - 1].valueMac)
    else LastEntry(es[..|es| - 1], k)
  }

  lemma {:induction false} LastEntryCons(es: seq<RawEntry>, k: Bytes)
    requires es != []
    ensures LastEntry(es, k)
         == (if LastEntry(es[1..], k).Some? then LastEntry(es[1..], k)
             else if Base64.Encode(es[0].indexMac) == k then Some(es[0].valueMac) else None)
    decreases |es|
  {
    if |es| > 1 {
      LastEntryCons(es[..|es| - 1], k);
      assert es[..|es| - 1][1..] == es[1..][..|es[1..]| - 1];
    }
  }

  predicate MacSizes(es: seq<RawEntry>) {
    forall i :: 0 <= i < |es| ==> |es[i].indexMac| == 32 && |es[i].valueMac| == 32
  }

  lemma {:induction false} BuiltIff(es: seq<RawEntry>, acc: MacMap)
    requires Sorted(acc)
    ensures FromEntries(es, acc).Ok? <==> MacSizes(es)
    ensures FromEntries(es, acc).Ok? ==>
              && Sorted(FromEntries(es, acc).value)
              && forall k :: Get(FromEntries(es, acc).value, k)
                             == (if LastEntry(es, k).Some? then LastEntry(es, k) else Get(acc, k))
    decreases |es|
  {
    if es != [] {
      var key, v := Base64.Encode(es[0].indexMac), es[0].valueMac;
      InsertSorted(acc, key, v);
      BuiltIff(es[1..], Insert(acc, key, v));
      assert MacSizes(es) <==> |es[0].indexMac| == 32 && |v| == 32 && MacSizes(es[1..]) by {
        assert forall i :: 0 < i < |es| ==> es[i] == es[1..][i - 1];
        assert forall i :: 0 <= i < |es[1..]| ==> es[1..][i] == es[i + 1];
      }
      forall k ensures (if LastEntry(es, k).Some? then LastEntry(es, k) else Get(acc, k))
                       == (if LastEntry(es[1..], k).Some? then LastEntry(es[1..], k) else Get(Insert(acc, key, v), k)) {
        LastEntryCons(es, k);
        GetInsert(acc, key, v, k);
      }
    }
  }

  /** The bytes are a state laid out with these entries, and nothing more. */
  ghost predicate LaidOut(bytes: Bytes, s: State, es: seq<RawEntry>) {
    && bytes == StateText(s.version, s.hash, es)
    && s.version < U64_SIZE && |es| < U32_SIZE && MacSizes(es)
    && Sorted(s.macs) && forall k :: Get(s.macs, k) == LastEntry(es, k)
  }

  /**
   Bytes are read as a state if and only if they are its layout with some list of
   entries: the hash has 128 bytes, every MAC 32, and of two entries for one index the
   later one counts. Nothing else is accepted.
   */
  lemma StateExactly(bytes: Bytes, s: State)
    ensures DecodeState(bytes) == Ok(s) <==> exists es :: LaidOut(bytes, s, es)
  {
    if DecodeState(bytes) == Ok(s) {
      var es := DecodedLayout(bytes, s);
    }
    if es :| LaidOut(bytes, s, es) {
      LayoutDecoded(bytes, s, es);
    }
  }

  lemma DecodedLayout(bytes: Bytes, s: State) returns (es: seq<RawEntry>)
    requires DecodeState(bytes) == Ok(s)
    ensures LaidOut(bytes, s, es)
  {
    StateRead(bytes);
    var raw := ReadState(bytes).value;
    es := raw.value.entries;
    assert StateText(raw.value.version, raw.value.hash, es) + [] == StateText(raw.value.version, raw.value.hash, es);
    BuiltIff(es, []);
  }

  lemma LayoutDecoded(bytes: Bytes, s: State, es: seq<RawEntry>)
    requires LaidOut(bytes, s, es)
    ensures DecodeState(bytes) == Ok(s)
  {
    TakeStateText(s.version, s.hash, es);
    BuiltIff(es, []);
    Extensional(FromEntries(es, []).value, s.macs);
  }

  // ----- Writing -----------------------------------------------------------------------

  lemma {:induction false} EntriesWritten(m: MacMap)
    requires forall i :: 0 <= i < |m| ==> ValidEntry(m[i])
    ensures EncodeEntries(m) == Ok(EntriesLayout(RawsOf(m))) && |RawsOf(m)| == |m|
    decreases |m|
  {
    if m != [] {
      var e := m[0];
      assert ValidEntry(e);
      EntriesWritten(m[1..]);
      FourAre(32);
      EntriesCons(RawOf(e), RawsOf(m[1..]), [], []);
      assert EncodeEntry(e) == Ok(Lengthened(RawOf(e).indexMac) + Lengthened(RawOf(e).valueMac));
    }
  }

  /** A state is written as its layout with the entries of its map, in order. */
  lemma StateWritten(s: State)
    requires Storable(s)
    ensures EncodeState(s) == Ok(StateText(s.version, s.hash, RawsOf(s.macs))) && |RawsOf(s.macs)| == |s.macs|
    ensures forall i :: 0 <= i < |s.macs| ==>
              s.macs[i] == SortedMap.Entry(Base64.Encode(RawsOf(s.macs)[i].indexMac), RawsOf(s.macs)[i].valueMac)
  {
    MagicsSpelled();
    EightAre(s.version);
    FourAre(|s.macs|);
    FourAre(128);
    EntriesWritten(s.macs);
    forall i | 0 <= i < |s.macs|
      ensures s.macs[i] == SortedMap.Entry(Base64.Encode(RawsOf(s.macs)[i].indexMac), RawsOf(s.macs)[i].valueMac)
    {
      RawAt(s.macs, i);
    }
  }

  lemma {:induction false} RawAt(m: MacMap, i: nat)
    requires (forall j :: 0 <= j < |m| ==> ValidEntry(m[j])) && i < |m| == |RawsOf(m)|
    ensures m[i] == SortedMap.Entry(Base64.Encode(RawsOf(m)[i].indexMac), RawsOf(m)[i].valueMac)
    decreases |m|
  {
    assert ValidEntry(m[i]);
    if i > 0 {
      RawAt(m[1..], i - 1);
    }
  }

  // ----- Blocked records -----------------------------------------------------------------

  /** A blocked record that fits. */
  predicate Fits(b: Blocked) {
    b.keyId != [] && |b.keyId| < U32_SIZE && b.previousVersion < U64_SIZE
  }

  /** A blocked record is written as its layout, if it has a key id. */
  lemma BlockedWritten(b: Blocked)
    ensures EncodeBlocked(b).Ok? <==> b.keyId != [] && |b.keyId| < U32_SIZE
    ensures EncodeBlocked(b).Ok? ==> EncodeBlocked(b) == Ok(BlockedText(b))
  {
    MagicsSpelled();
    EightAre(b.previousVersion);
    FourAre(|b.keyId|);
  }

  /** Bytes are read as a blocked record if and only if they are its layout. */
  lemma BlockedExactly(bytes: Bytes, b: Blocked)
    ensures DecodeBlocked(bytes) == Ok(b) <==> bytes == BlockedText(b) && Fits(b)
  {
    if DecodeBlocked(bytes) == Ok(b) {
      BlockedRead(bytes, b);
    }
    if Fits(b) {
      BlockedWritten(b);
      BlockedRoundTrip(b);
    }
  }

  lemma BlockedRead(bytes: Bytes, b: Blocked)
    requires DecodeBlocked(bytes) == Ok(b)
    ensures bytes == BlockedText(b) && Fits(b)
  {
    MagicsSpelled();
    HeaderRead(bytes, BLOCKED_MAGIC);
    var header := ReadHeader(bytes, BLOCKED_MAGIC).value;
    NumberRead(header.rest, 8);
    var version := ReadNumber(header.rest, 8).value;
    LengthenedRead(version.rest);
    var keyId := ReadLenPrefixed(version.rest).value;
    WidthSizes();
    EightAre(version.value);
    assert Lengthened(keyId.value) + [] == Lengthened(keyId.value);
  }
}
