/**
 Records, patches and their MACs byte for byte: which bytes go under which key
 (crates/wa-crypto/src/app_state.rs, crates/wa-core/src/app_state.rs).
 */
module PatchWire {
  import opened Prelude
  import opened Text
  import opened BigEndian
  import opened AppCrypto
  import opened PatchState
  import opened Events
  import opened PatchProtocol
  import opened PatchTheorems

  // ----- Names and keys ------------------------------------------------------------

  function NameText(c: Collection): string {
    match c
    case Regular => "regular"
    case RegularHigh => "regular_high"
    case RegularLow => "regular_low"
    case CriticalBlock => "critical_block"
    case CriticalUnblock => "critical_unblock"
    case CriticalUnblockLow => "critical_unblock_low"
    case CriticalIdentity => "critical_identity"
  }

  /** The names that collections go by in MACs and in the store. */
  lemma NamesSpelled(c: Collection)
    ensures CollectionName(c) == Ascii(NameText(c))
  {
    Jid.SpelledAs(CollectionName(c), NameText(c));
  }

  /** Key `i` of the five that key data is expanded to. */
  function ExpandedKey(P: Primitives, keyData: Bytes, i: nat): Bytes
    requires i < 5
  {
    P.expandKeys(keyData)[32 * i..32 * i + 32]
  }

  /** Five keys from key data of 32 bytes: index MAC, encryption, value MAC, snapshot MAC, patch MAC. */
  lemma KeysExpanded(P: Primitives, keyData: Bytes)
    ensures DeriveKeys(P, keyData).Ok? <==> |keyData| == 32
    ensures DeriveKeys(P, keyData).Ok? ==>
              var k := DeriveKeys(P, keyData).value;
              && P.expandKeys(keyData) == k.index + k.encryption + k.value + k.snapshot + k.patch
              && k.index == ExpandedKey(P, keyData, 0) && k.encryption == ExpandedKey(P, keyData, 1)
              && k.value == ExpandedKey(P, keyData, 2) && k.snapshot == ExpandedKey(P, keyData, 3)
              && k.patch == ExpandedKey(P, keyData, 4)
  {
  }

  /** What the value MAC is taken of: 1 or 2 for the operation, the key id, the ciphertext, and a length. */
  function ValueInput(op: Operation, sealed: Bytes, keyId: Bytes): Bytes {
    [if op.Set? then 1 else 2] + keyId + sealed + Eight(1 + |keyId|)
  }

  lemma ValueInputIs(op: Operation, sealed: Bytes, keyId: Bytes)
    ensures MutationFrame(op, sealed, keyId) == ValueInput(op, sealed, keyId)
  {
    EightAre(1 + |keyId|);
  }

  // ----- Writing a record ------------------------------------------------------------

  /** The plaintext of a chat patch. */
  function Plain(E: Env, p: ChatPatch): Bytes {
    E.formats.encodeAction(ActionData(Some(E.formats.encodeIndex(p.index)), Some(p.value), Some([]), Some(p.apiVersion)))
  }

  /**
   A chat patch is encrypted exactly if it has an index, a positive version, a key id,
   32 bytes of key data and 16 of initialisation vector.
   */
  lemma EncryptedIff(E: Env, p: ChatPatch, keyId: Bytes, keyData: Bytes, iv: Bytes)
    ensures EncryptPatch(E, p, keyId, keyData, iv).Ok?
       <==> keyId != [] && p.index != [] && p.apiVersion > 0 && |keyData| == 32 && |iv| == 16
  {
  }

  /** The bytes of the record that a chat patch is encrypted to. */
  lemma EncryptedRecord(E: Env, p: ChatPatch, keyId: Bytes, keyData: Bytes, iv: Bytes)
    requires EncryptPatch(E, p, keyId, keyData, iv).Ok?
    ensures var e, P := EncryptPatch(E, p, keyId, keyData, iv).value, E.crypto;
            && e.encryptedValue == iv + P.aesEncrypt(Plain(E, p), ExpandedKey(P, keyData, 1), iv)
            && e.indexMac == P.hmac256(E.formats.encodeIndex(p.index), ExpandedKey(P, keyData, 0))
            && e.valueMac == P.hmac512(ValueInput(p.op, e.encryptedValue, keyId), ExpandedKey(P, keyData, 2))[..32]
            && e.mutation == Mutation(Some(if p.op.Set? then 0 else 1),
                                      Some(Record(Some(e.indexMac), Some(e.encryptedValue + e.valueMac), Some(keyId))))
  {
    KeysExpanded(E.crypto, keyData);
    EncryptedParts(E, p, keyId, keyData, iv);
    var e := EncryptPatch(E, p, keyId, keyData, iv).value;
    ValueInputIs(p.op, e.encryptedValue, keyId);
  }

  // ----- Reading a record ------------------------------------------------------------

  /** Operation 0, or none, sets; 1 removes; no other is read. */
  predicate OperationRead(operation: Option<int>, op: Operation) {
    match operation
    case None => op.Set?
    case Some(v) => (v == 0 && op.Set?) || (v == 1 && op.Remove?)
  }

  /** Everything that a mutation must hold, byte for byte, to be read as `d`. */
  ghost predicate Holds(E: Env, m: Mutation, keyData: Bytes, d: Decoded) {
    var P := E.crypto;
    && OperationRead(m.operation, d.op)
    && m.record == Some(Record(Some(d.indexMac), Some(d.encryptedValue + d.valueMac), Some(d.keyId)))
    && |d.indexMac| == 32 && |d.valueMac| == 32 && d.keyId != [] && |d.encryptedValue| >= 16
    && P.hmac512(ValueInput(d.op, d.encryptedValue, d.keyId), ExpandedKey(P, keyData, 2))[..32] == d.valueMac
    && var plain := P.aesDecrypt(d.encryptedValue[16..], ExpandedKey(P, keyData, 1), d.encryptedValue[..16]);
    && plain.Some? && E.formats.decodeAction(plain.value) == Some(d.action)
    && d.action.index.Some?
    && P.hmac256(d.action.index.value, ExpandedKey(P, keyData, 0)) == d.indexMac
    && E.formats.decodeIndex(d.action.index.value) == Some(d.index)
  }

  lemma AuthenticHolds(E: Env, m: Mutation, keyData: Bytes, keys: Keys, d: Decoded)
    requires DeriveKeys(E.crypto, keyData) == Ok(keys) && m.record.Some? && OperationRead(m.operation, d.op)
    ensures Authentic(E, d.op, m.record.value, keys, d) <==> Holds(E, m, keyData, d)
  {
    KeysExpanded(E.crypto, keyData);
    ValueInputIs(d.op, d.encryptedValue, d.keyId);
  }

  /** A mutation is read as `d` if and only if it holds exactly the bytes of `d`, authentic under the keys. */
  lemma RecordHolds(E: Env, m: Mutation, keyData: Bytes, d: Decoded)
    requires |keyData| == 32
    ensures DecodeMutation(E, m, DeriveKeys(E.crypto, keyData).value) == Ok(d) <==> Holds(E, m, keyData, d)
  {
    var keys := DeriveKeys(E.crypto, keyData).value;
    if m.record.Some? && OperationRead(m.operation, d.op) {
      RecordAuthentic(E, d.op, m.record.value, keys, d);
      AuthenticHolds(E, m, keyData, keys, d);
    } else if m.record.Some? && DecodeMutation(E, m, keys) == Ok(d) {
      var op := FromProtoValue(if m.operation.Some? then m.operation.value else 0).value;
      RecordAuthentic(E, op, m.record.value, keys, d);
    }
  }

  // ----- The MACs of a patch -----------------------------------------------------------

  /** What the snapshot MAC is taken of: hash, version and name. */
  function SnapshotInput(c: Collection, s: State): Bytes {
    s.hash + Eight(s.version) + Ascii(NameText(c))
  }

  function Together(macs: seq<Bytes>): Bytes {
    if macs == [] then [] else Together(macs[..|macs| - 1]) + macs[|macs| - 1]
  }

  lemma {:induction false} TogetherIs(macs: seq<Bytes>)
    ensures Together(macs) == Flatten(macs)
    decreases |macs|
  {
    if |macs| == 1 {
      assert macs[..0] == [] && macs[1..] == [];
    } else if |macs| > 1 {
      var front, last := macs[..|macs| - 1], macs[|macs| - 1];
      TogetherIs(front);
      TogetherIs(macs[1..]);
      TogetherIs(front[1..]);
      assert macs[1..][..|macs| - 2] == front[1..] && macs[1..][|macs| - 2] == last;
      Assoc(macs[0], Flatten(front[1..]), last);
    }
  }

  /** What the patch MAC is taken of: snapshot MAC, value MACs, version and name. */
  function PatchInput(c: Collection, snapshotMac: Bytes, valueMacs: seq<Bytes>, version: nat): Bytes {
    snapshotMac + Together(valueMacs) + Eight(version) + Ascii(NameText(c))
  }

  lemma InputsAre(c: Collection, s: State, snapshotMac: Bytes, valueMacs: seq<Bytes>)
    ensures SnapshotFrame(s.hash, s.version, CollectionName(c)) == SnapshotInput(c, s)
    ensures PatchFrame(snapshotMac, valueMacs, s.version, CollectionName(c)) == PatchInput(c, snapshotMac, valueMacs, s.version)
  {
    NamesSpelled(c);
    EightAre(s.version);
    TogetherIs(valueMacs);
  }

  /** The two MACs of a patch, for the state that it leads to. */
  ghost predicate Sealed(P: Primitives, c: Collection, keyData: Bytes, p: Patch, next: State, valueMacs: seq<Bytes>) {
    && p.version == Some(next.version)
    && p.snapshotMac == Some(P.hmac256(SnapshotInput(c, next), ExpandedKey(P, keyData, 3)))
    && p.patchMac == Some(P.hmac256(PatchInput(c, p.snapshotMac.value, valueMacs, next.version), ExpandedKey(P, keyData, 4)))
  }

  /** The value MACs that were sent. */
  function SentMacs(es: seq<Encrypted>): (macs: seq<Bytes>)
    ensures |macs| == |es|
  {
    seq(|es|, i requires 0 <= i < |es| => es[i].valueMac)
  }

  lemma {:induction false} SentMacsAre(es: seq<Encrypted>)
    ensures ValueMacsOf(es) == SentMacs(es)
    decreases |es|
  {
    if es != [] {
      SentMacsAre(es[1..]);
      assert SentMacs(es) == [es[0].valueMac] + SentMacs(es[1..]);
    }
  }

  /** The mutation names the key, has a known operation and MACs of 32 bytes. */
  predicate Sendable(e: Encrypted, keyId: Bytes) {
    && e.mutation.record.Some? && e.mutation.record.value.keyId == Some(keyId)
    && (e.mutation.operation == Some(0) || e.mutation.operation == Some(1))
    && |e.indexMac| == 32 && |e.valueMac| == 32
  }

  lemma {:induction false} SendableIff(es: seq<Encrypted>, keyId: Bytes)
    ensures CheckKeyIds(es, keyId).Ok? && HashMutationsOf(es).Ok? <==> forall i :: 0 <= i < |es| ==> Sendable(es[i], keyId)
    ensures HashMutationsOf(es).Ok? ==> IndexSized(HashMutationsOf(es).value) && AllMacs(ValueMacsOf(es))
    decreases |es|
  {
    if es != [] {
      SendableIff(es[1..], keyId);
      SendableFirst(es, keyId);
    }
  }

  lemma SendableFirst(es: seq<Encrypted>, keyId: Bytes)
    requires es != []
    requires CheckKeyIds(es[1..], keyId).Ok? && HashMutationsOf(es[1..]).Ok?
        <==> forall i :: 0 <= i < |es[1..]| ==> Sendable(es[1..][i], keyId)
    requires HashMutationsOf(es[1..]).Ok? ==> IndexSized(HashMutationsOf(es[1..]).value) && AllMacs(ValueMacsOf(es[1..]))
    ensures CheckKeyIds(es, keyId).Ok? && HashMutationsOf(es).Ok? <==> forall i :: 0 <= i < |es| ==> Sendable(es[i], keyId)
    ensures HashMutationsOf(es).Ok? ==> IndexSized(HashMutationsOf(es).value) && AllMacs(ValueMacsOf(es))
  {
    assert forall i :: 0 < i < |es| ==> es[i] == es[1..][i - 1];
    assert forall i :: 0 <= i < |es[1..]| ==> es[1..][i] == es[i + 1];
    assert CheckKeyId(es[0].mutation, keyId).Ok? && HashMutationOf(es[0]).Ok? <==> Sendable(es[0], keyId);
  }

  /** A bundle is built exactly from mutations that can be sent, some, under one key, before the last version. */
  lemma BundleBuiltIff(E: Env, c: Collection, prev: State, keyId: Bytes, keyData: Bytes, es: seq<Encrypted>)
    ensures BuildBundle(E, c, prev, keyId, keyData, es).Ok?
       <==> && keyId != [] && es != [] && |keyData| == 32 && prev.version < 0xFFFF_FFFF_FFFF_FFFF
            && forall i :: 0 <= i < |es| ==> Sendable(es[i], keyId)
  {
    SendableIff(es, keyId);
    NamesDiffer(c, c);
    if HashMutationsOf(es).Ok? {
      CollectIff(Collected(prev.macs, [], []), HashMutationsOf(es).value);
    }
  }

  /** The MACs of a bundle, whatever it was built from. */
  lemma BundleSealed(E: Env, c: Collection, prev: State, keyId: Bytes, keyData: Bytes, es: seq<Encrypted>)
    requires BuildBundle(E, c, prev, keyId, keyData, es).Ok?
    ensures var b := BuildBundle(E, c, prev, keyId, keyData, es).value;
            Sealed(E.crypto, c, keyData, b.patch, b.next, SentMacs(es))
  {
    var b := BuildBundle(E, c, prev, keyId, keyData, es).value;
    KeysExpanded(E.crypto, keyData);
    SentMacsAre(es);
    InputsAre(c, b.next, b.patch.snapshotMac.value, SentMacs(es));
  }

  /** The value MACs that were read. */
  function ReadMacs(ds: seq<Decoded>): (macs: seq<Bytes>)
    ensures |macs| == |ds|
  {
    seq(|ds|, i requires 0 <= i < |ds| => ds[i].valueMac)
  }

  lemma {:induction false} ReadMacsAre(ds: seq<Decoded>)
    ensures DecodedMacs(ds) == ReadMacs(ds)
    decreases |ds|
  {
    if ds != [] {
      ReadMacsAre(ds[1..]);
      assert ReadMacs(ds) == [ds[0].valueMac] + ReadMacs(ds[1..]);
    }
  }

  /** An accepted patch carries the MACs of exactly the records that were read and of the state they lead to. */
  lemma AcceptedSealed(E: Env, c: Collection, prev: State, p: Patch, keyData: Bytes)
    requires DecodePatch(E, c, prev, p, keyData).Ok?
    ensures |keyData| == 32
    ensures var d := DecodePatch(E, c, prev, p, keyData).value;
            Sealed(E.crypto, c, keyData, p, d.next, ReadMacs(d.mutations))
  {
    AcceptedParts(E, c, prev, p, keyData);
    KeysExpanded(E.crypto, keyData);
    var d := DecodePatch(E, c, prev, p, keyData).value;
    ReadMacsAre(d.mutations);
    InputsAre(c, d.next, p.snapshotMac.value, ReadMacs(d.mutations));
  }

  /** And an accepted snapshot that of its state. */
  lemma SnapshotSealed(E: Env, c: Collection, s: Snapshot, keyData: Bytes)
    requires DecodeSnapshot(E, c, s, keyData).Ok?
    ensures |keyData| == 32
    ensures var state := DecodeSnapshot(E, c, s, keyData).value.state;
            && s.version == Some(state.version)
            && s.mac == Some(E.crypto.hmac256(SnapshotInput(c, state), ExpandedKey(E.crypto, keyData, 3)))
  {
    var d := DecodeSnapshot(E, c, s, keyData).value;
    SnapshotExactly(E, c, s, keyData, d);
    KeysExpanded(E.crypto, keyData);
    InputsAre(c, d.state, [], []);
  }
}
