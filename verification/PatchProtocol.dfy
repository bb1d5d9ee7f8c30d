/**
 Building, encrypting and checking app-state patches and snapshots
 (crates/wa-core/src/app_state.rs).
 */
module PatchProtocol {
  import opened Prelude
  import opened AppCrypto
  import opened PatchState
  import opened Events

  datatype Collection =
    | Regular | RegularHigh | RegularLow | CriticalBlock
    | CriticalUnblock | CriticalUnblockLow | CriticalIdentity

  /** Every collection, in the order in which blocked ones are looked for. */
  function AllCollections(): seq<Collection> {
    [Regular, RegularHigh, RegularLow, CriticalBlock, CriticalUnblock, CriticalUnblockLow, CriticalIdentity]
  }

  const REGULAR: Bytes := [0x72, 0x65, 0x67, 0x75, 0x6C, 0x61, 0x72] // regular
  const CRITICAL: Bytes := [0x63, 0x72, 0x69, 0x74, 0x69, 0x63, 0x61, 0x6C, 0x5F] // critical_
  const UNBLOCK: Bytes := [0x75, 0x6E, 0x62, 0x6C, 0x6F, 0x63, 0x6B] // unblock
  const LOW: Bytes := [0x5F, 0x6C, 0x6F, 0x77] // _low

  function CollectionName(c: Collection): Bytes {
    match c
    case Regular => REGULAR
    case RegularHigh => REGULAR + [0x5F, 0x68, 0x69, 0x67, 0x68] // _high
    case RegularLow => REGULAR + LOW
    case CriticalBlock => CRITICAL + [0x62, 0x6C, 0x6F, 0x63, 0x6B] // block
    case CriticalUnblock => CRITICAL + UNBLOCK
    case CriticalUnblockLow => CRITICAL + UNBLOCK + LOW
    case CriticalIdentity => CRITICAL + [0x69, 0x64, 0x65, 0x6E, 0x74, 0x69, 0x74, 0x79] // identity
  }

  /** Names differ already in length, and are shorter than a MAC. */
  lemma NamesDiffer(a: Collection, b: Collection)
    ensures CollectionName(a) != [] && |CollectionName(a)| < MAC_LEN
    ensures |CollectionName(a)| == |CollectionName(b)| ==> a == b
  {
  }

  /** The protobuf and JSON encodings that records and keys go through. */
  datatype Formats = Formats(
    encodeAction: ActionData -> Bytes,
    decodeAction: Bytes -> Option<ActionData>,
    encodeIndex: seq<Bytes> -> Bytes,
    decodeIndex: Bytes -> Option<seq<Bytes>>,
    encodeKey: Bytes -> Bytes,
    decodeKey: Bytes -> Option<Option<Bytes>>)

  ghost predicate Faithful(F: Formats) {
    && (forall a {:trigger F.encodeAction(a)} :: F.decodeAction(F.encodeAction(a)) == Some(a))
    && (forall i {:trigger F.encodeIndex(i)} :: F.decodeIndex(F.encodeIndex(i)) == Some(i))
    && (forall k {:trigger F.encodeKey(k)} :: F.decodeKey(F.encodeKey(k)) == Some(Some(k)))
  }

  datatype Env = Env(crypto: Primitives, formats: Formats)

  ghost predicate Sound(E: Env) {
    Lawful(E.crypto) && Faithful(E.formats)
  }

  // ----- Messages ------------------------------------------------------------

  datatype Record = Record(index: Option<Bytes>, value: Option<Bytes>, keyId: Option<Bytes>)

  datatype Mutation = Mutation(operation: Option<int>, record: Option<Record>)

  datatype Patch = Patch(
    version: Option<nat>,
    mutations: seq<Mutation>,
    snapshotMac: Option<Bytes>,
    patchMac: Option<Bytes>,
    keyId: Option<Bytes>)

  datatype Snapshot = Snapshot(version: Option<nat>, records: seq<Record>, mac: Option<Bytes>, keyId: Option<Bytes>)

  datatype ChatPatch = ChatPatch(
    collection: Collection,
    op: Operation,
    apiVersion: int,
    index: seq<Bytes>,
    value: ActionValue)

  datatype Encrypted = Encrypted(indexMac: Bytes, valueMac: Bytes, encryptedValue: Bytes, mutation: Mutation)

  datatype Bundle = Bundle(collection: Collection, previousVersion: nat, next: State, patch: Patch)

  datatype Decoded = Decoded(
    op: Operation,
    keyId: Bytes,
    indexMac: Bytes,
    valueMac: Bytes,
    encryptedValue: Bytes,
    index: seq<Bytes>,
    action: ActionData)

  datatype DecodedPatch = DecodedPatch(
    collection: Collection,
    previousVersion: nat,
    next: State,
    patch: Patch,
    mutations: seq<Decoded>)

  datatype CoreError =
    | EmptyKeyId
    | MissingKeyId
    | KeyIdMismatch
    | NoMutations
    | MissingOperation
    | UnknownOperation
    | MissingVersion
    | WrongVersion
    | Overflow
    | MissingSnapshotMac
    | MissingPatchMac
    | MissingRecord
    | MissingIndexMac
    | MissingValue
    | ValueTooShort
    | BadLength
    | ValueMacFailed
    | IndexMacFailed
    | PatchMacFailed
    | SnapshotMacFailed
    | BadAction
    | BadIndex
    | EmptyIndex
    | BadApiVersion
    | Crypto(crypto: CryptoError)
    | StateFailed(state: StateError)
    | EventFailed(event: EventError)

  function OfCrypto<V>(r: Result<V, CryptoError>): Result<V, CoreError> {
    if r.Ok? then Ok(r.value) else Err(Crypto(r.error))
  }

  function OfState<V>(r: Result<V, StateError>): Result<V, CoreError> {
    if r.Ok? then Ok(r.value) else Err(StateFailed(r.error))
  }

  function Require<V>(v: Option<V>, e: CoreError): Result<V, CoreError> {
    if v.Some? then Ok(v.value) else Err(e)
  }

  // ----- Constant-time comparison --------------------------------------------

  function Pow2(n: nat): nat {
    if n == 0 then 1 else 2 * Pow2(n - 1)
  }

  /** Exclusive or of two numbers of `width` bits. */
  function Xor(a: nat, b: nat, width: nat): (r: nat)
    requires a < Pow2(width) && b < Pow2(width)
    ensures r < Pow2(width)
    ensures r == 0 <==> a == b
  {
    if width == 0 then 0
    else (if a % 2 == b % 2 then 0 else 1) + 2 * Xor(a / 2, b / 2, width - 1)
  }

  /** Inclusive or of two numbers of `width` bits. */
  function Or(a: nat, b: nat, width: nat): (r: nat)
    requires a < Pow2(width) && b < Pow2(width)
    ensures r < Pow2(width)
    ensures r == 0 <==> a == 0 && b == 0
  {
    if width == 0 then 0
    else (if a % 2 == 0 && b % 2 == 0 then 0 else 1) + 2 * Or(a / 2, b / 2, width - 1)
  }

  lemma BytesHaveEightBits()
    ensures Pow2(8) == 256
  {
    assert Pow2(4) == 16;
  }

  /** The accumulated differences of two lists of one length. */
  function Differences(a: Bytes, b: Bytes, acc: nat): nat
    requires |a| == |b| && acc < Pow2(8)
    decreases |a|
  {
    if a == [] then acc
    else
      BytesHaveEightBits();
      Differences(a[1..], b[1..], Or(acc, Xor(a[0] as nat, b[0] as nat, 8), 8))
  }

  /** `constant_time_eq` */
  predicate ConstantTimeEq(a: Bytes, b: Bytes) {
    |a| == |b| && (BytesHaveEightBits(); Differences(a, b, 0) == 0)
  }

  lemma {:induction false} DifferencesZero(a: Bytes, b: Bytes, acc: nat)
    requires |a| == |b| && acc < Pow2(8)
    ensures Differences(a, b, acc) == 0 <==> acc == 0 && a == b
    decreases |a|
  {
    if a != [] {
      BytesHaveEightBits();
      DifferencesZero(a[1..], b[1..], Or(acc, Xor(a[0] as nat, b[0] as nat, 8), 8));
      assert a == [a[0]] + a[1..] && b == [b[0]] + b[1..];
    }
  }

  /** Looking at every byte decides equality. */
  lemma ConstantTimeEqIsEquality(a: Bytes, b: Bytes)
    ensures ConstantTimeEq(a, b) <==> a == b
  {
    if |a| == |b| {
      BytesHaveEightBits();
      DifferencesZero(a, b, 0);
    }
  }

  // ----- Encrypting ----------------------------------------------------------

  /** `build_sync_action_data` */
  function BuildAction(E: Env, p: ChatPatch): Result<ActionData, CoreError> {
    if p.index == [] then Err(EmptyIndex)
    else if p.apiVersion <= 0 then Err(BadApiVersion)
    else Ok(ActionData(Some(E.formats.encodeIndex(p.index)), Some(p.value), Some([]), Some(p.apiVersion)))
  }

  function ProtoValue(op: Operation): int {
    if op.Set? then 0 else 1
  }

  function FromProtoValue(v: int): Result<Operation, CoreError> {
    if v == 0 then Ok(Set) else if v == 1 then Ok(Remove) else Err(UnknownOperation)
  }

  /** `encrypt_chat_mutation_patch_with_iv` */
  function EncryptPatch(E: Env, p: ChatPatch, keyId: Bytes, keyData: Bytes, iv: Bytes): Result<Encrypted, CoreError> {
    if keyId == [] then Err(EmptyKeyId)
    else
      var action :- BuildAction(E, p);
      var keys :- OfCrypto(DeriveKeys(E.crypto, keyData));
      var sealed :- OfCrypto(EncryptValue(E.crypto, E.formats.encodeAction(action), keys, iv));
      var valueMac :- OfCrypto(ValueMac(E.crypto, p.op, sealed, keyId, keys));
      var indexMac := IndexMac(E.crypto, E.formats.encodeIndex(p.index), keys);
      Ok(Encrypted(indexMac, valueMac, sealed,
                   Mutation(Some(ProtoValue(p.op)), Some(Record(Some(indexMac), Some(sealed + valueMac), Some(keyId))))))
  }

  /** `validate_mutation_key_id` */
  function CheckKeyId(m: Mutation, keyId: Bytes): Result<(), CoreError> {
    if m.record.None? || m.record.value.keyId.None? then Err(MissingKeyId)
    else if m.record.value.keyId.value != keyId then Err(KeyIdMismatch)
    else Ok(())
  }

  function CheckKeyIds(es: seq<Encrypted>, keyId: Bytes): Result<(), CoreError> {
    if es == [] then Ok(())
    else
      var first :- CheckKeyId(es[0].mutation, keyId);
      CheckKeyIds(es[1..], keyId)
  }

  /** `AppStateHashMutation::new` */
  function NewHashMutation(op: Operation, indexMac: Bytes, valueMac: Bytes): Result<HashMutation, CoreError> {
    if |indexMac| != MAC_LEN || |valueMac| != MAC_LEN then Err(BadLength)
    else Ok(HashMutation(op, indexMac, valueMac))
  }

  /** `AppStateHashMutation::from_encrypted` */
  function HashMutationOf(e: Encrypted): Result<HashMutation, CoreError> {
    var v :- Require(e.mutation.operation, MissingOperation);
    var op :- FromProtoValue(v);
    NewHashMutation(op, e.indexMac, e.valueMac)
  }

  function HashMutationsOf(es: seq<Encrypted>): Result<seq<HashMutation>, CoreError> {
    if es == [] then Ok([])
    else
      var first :- HashMutationOf(es[0]);
      var rest :- HashMutationsOf(es[1..]);
      Ok([first] + rest)
  }

  function ValueMacsOf(es: seq<Encrypted>): seq<Bytes> {
    if es == [] then [] else [es[0].valueMac] + ValueMacsOf(es[1..])
  }

  function MutationsOf(es: seq<Encrypted>): seq<Mutation> {
    if es == [] then [] else [es[0].mutation] + MutationsOf(es[1..])
  }

  /** `build_app_state_patch_bundle` */
  function BuildBundle(E: Env, c: Collection, prev: State, keyId: Bytes, keyData: Bytes, es: seq<Encrypted>)
    : Result<Bundle, CoreError>
  {
    if keyId == [] then Err(EmptyKeyId)
    else if es == [] then Err(NoMutations)
    else
      var checked :- CheckKeyIds(es, keyId);
      var ms :- HashMutationsOf(es);
      var next :- OfState(Advance(E.crypto, prev, ms));
      var keys :- OfCrypto(DeriveKeys(E.crypto, keyData));
      var snapshotMac :- OfCrypto(SnapshotMac(E.crypto, next.hash, next.version, CollectionName(c), keys));
      var patchMac :- OfCrypto(PatchMac(E.crypto, snapshotMac, ValueMacsOf(es), next.version, CollectionName(c), keys));
      Ok(Bundle(c, prev.version, next,
                Patch(Some(next.version), MutationsOf(es), Some(snapshotMac), Some(patchMac), Some(keyId))))
  }

  // ----- Decoding ------------------------------------------------------------

  /** `decode_app_state_record` */
  function DecodeRecord(E: Env, op: Operation, r: Record, keys: Keys): Result<Decoded, CoreError> {
    var indexMac :- Require(r.index, MissingIndexMac);
    if |indexMac| != MAC_LEN then Err(BadLength)
    else
      var keyId :- Require(r.keyId, MissingKeyId);
      if keyId == [] then Err(EmptyKeyId)
      else
        var blob :- Require(r.value, MissingValue);
        if |blob| <= MAC_LEN then Err(ValueTooShort)
        else OpenRecord(E, op, indexMac, keyId, blob[..|blob| - MAC_LEN], blob[|blob| - MAC_LEN..], keys)
  }

  /** The checks of a record whose parts are there: value MAC, decryption, index MAC. */
  function OpenRecord(E: Env, op: Operation, indexMac: Bytes, keyId: Bytes, sealed: Bytes, valueMac: Bytes, keys: Keys)
    : Result<Decoded, CoreError>
  {
    var expected :- OfCrypto(ValueMac(E.crypto, op, sealed, keyId, keys));
    if !ConstantTimeEq(expected, valueMac) then Err(ValueMacFailed)
    else
      var plain :- OfCrypto(DecryptValue(E.crypto, sealed, keys));
      var action :- Require(E.formats.decodeAction(plain), BadAction);
      var indexBytes :- Require(action.index, MissingIndexMac);
      if !ConstantTimeEq(IndexMac(E.crypto, indexBytes, keys), indexMac) then Err(IndexMacFailed)
      else
        var index :- Require(E.formats.decodeIndex(indexBytes), BadIndex);
        Ok(Decoded(op, keyId, indexMac, valueMac, sealed, index, action))
  }

  /** `decode_app_state_mutation`: a missing operation means Set. */
  function DecodeMutation(E: Env, m: Mutation, keys: Keys): Result<Decoded, CoreError> {
    var op :- FromProtoValue(if m.operation.Some? then m.operation.value else ProtoValue(Set));
    var record :- Require(m.record, MissingRecord);
    DecodeRecord(E, op, record, keys)
  }

  function DecodeMutations(E: Env, ms: seq<Mutation>, keys: Keys): Result<seq<Decoded>, CoreError> {
    if ms == [] then Ok([])
    else
      var first :- DecodeMutation(E, ms[0], keys);
      var rest :- DecodeMutations(E, ms[1..], keys);
      Ok([first] + rest)
  }

  predicate SameKeyId(ds: seq<Decoded>, keyId: Bytes) {
    forall i :: 0 <= i < |ds| ==> ds[i].keyId == keyId
  }

  function DecodedMacs(ds: seq<Decoded>): seq<Bytes> {
    if ds == [] then [] else [ds[0].valueMac] + DecodedMacs(ds[1..])
  }

  function DecodedHashMutations(ds: seq<Decoded>): Result<seq<HashMutation>, CoreError> {
    if ds == [] then Ok([])
    else
      var first :- NewHashMutation(ds[0].op, ds[0].indexMac, ds[0].valueMac);
      var rest :- DecodedHashMutations(ds[1..]);
      Ok([first] + rest)
  }

  /** `patch_key_id` */
  function PatchKeyId(p: Patch): Result<Bytes, CoreError> {
    var keyId :- Require(p.keyId, MissingKeyId);
    if keyId == [] then Err(EmptyKeyId) else Ok(keyId)
  }

  function CheckedMac(mac: Option<Bytes>, missing: CoreError): (r: Result<Bytes, CoreError>)
    ensures r.Ok? ==> mac == Some(r.value) && |r.value| == MAC_LEN
  {
    var m :- Require(mac, missing);
    if |m| != MAC_LEN then Err(BadLength) else Ok(m)
  }

  /** The version a patch must carry to follow `prev`. */
  function CheckVersion(prev: State, p: Patch): (r: Result<nat, CoreError>)
    ensures r.Ok? ==> p.version == Some(r.value) && r.value == prev.version + 1 && prev.version < U64_MAX
  {
    var version :- Require(p.version, MissingVersion);
    if prev.version >= U64_MAX then Err(Overflow)
    else if version != prev.version + 1 then Err(WrongVersion)
    else Ok(version)
  }

  datatype Header = Header(version: nat, keyId: Bytes, snapshotMac: Bytes, patchMac: Bytes)

  /** The checks on a patch that need no key. */
  function CheckHeader(prev: State, p: Patch): (r: Result<Header, CoreError>)
    ensures r.Ok? ==>
              && p.mutations != [] && prev.version < U64_MAX && r.value.version == prev.version + 1
              && r.value.keyId != [] && |r.value.snapshotMac| == MAC_LEN && |r.value.patchMac| == MAC_LEN
              && p == Patch(Some(r.value.version), p.mutations, Some(r.value.snapshotMac), Some(r.value.patchMac),
                            Some(r.value.keyId))
  {
    if p.mutations == [] then Err(NoMutations)
    else
      var version :- CheckVersion(prev, p);
      var keyId :- PatchKeyId(p);
      var snapshotMac :- CheckedMac(p.snapshotMac, MissingSnapshotMac);
      var patchMac :- CheckedMac(p.patchMac, MissingPatchMac);
      Ok(Header(version, keyId, snapshotMac, patchMac))
  }

  /** `decode_app_state_patch` */
  function DecodePatch(E: Env, c: Collection, prev: State, p: Patch, keyData: Bytes): Result<DecodedPatch, CoreError> {
    var h :- CheckHeader(prev, p);
    var keys :- OfCrypto(DeriveKeys(E.crypto, keyData));
    var ds :- DecodeMutations(E, p.mutations, keys);
    if !SameKeyId(ds, h.keyId) then Err(KeyIdMismatch)
    else
      var next :- VerifyPatch(E, c, prev, h.version, h.snapshotMac, h.patchMac, ds, keys);
      Ok(DecodedPatch(c, prev.version, next, p, ds))
  }

  /** The patch MAC, the next state, and the snapshot MAC over it. */
  function VerifyPatch(E: Env, c: Collection, prev: State, version: nat, snapshotMac: Bytes, patchMac: Bytes,
                       ds: seq<Decoded>, keys: Keys): Result<State, CoreError>
  {
    var expected :- OfCrypto(PatchMac(E.crypto, snapshotMac, DecodedMacs(ds), version, CollectionName(c), keys));
    if !ConstantTimeEq(expected, patchMac) then Err(PatchMacFailed)
    else
      var ms :- DecodedHashMutations(ds);
      var next :- OfState(Advance(E.crypto, prev, ms));
      var expectedSnapshot :- OfCrypto(SnapshotMac(E.crypto, next.hash, version, CollectionName(c), keys));
      if !ConstantTimeEq(expectedSnapshot, snapshotMac) then Err(SnapshotMacFailed) else Ok(next)
  }

  function DecodeRecords(E: Env, rs: seq<Record>, keys: Keys): Result<seq<Decoded>, CoreError> {
    if rs == [] then Ok([])
    else
      var first :- DecodeRecord(E, Set, rs[0], keys);
      var rest :- DecodeRecords(E, rs[1..], keys);
      Ok([first] + rest)
  }

  datatype DecodedSnapshot = DecodedSnapshot(collection: Collection, state: State, mutations: seq<Decoded>)

  /** `decode_app_state_snapshot` */
  function DecodeSnapshot(E: Env, c: Collection, s: Snapshot, keyData: Bytes): Result<DecodedSnapshot, CoreError> {
    var version :- Require(s.version, MissingVersion);
    var keyId :- Require(s.keyId, MissingKeyId);
    if keyId == [] then Err(EmptyKeyId)
    else
      var mac :- CheckedMac(s.mac, MissingSnapshotMac);
      var keys :- OfCrypto(DeriveKeys(E.crypto, keyData));
      var ds :- DecodeRecords(E, s.records, keys);
      if !SameKeyId(ds, keyId) then Err(KeyIdMismatch)
      else
        var state :- VerifySnapshot(E, c, version, mac, ds, keys);
        Ok(DecodedSnapshot(c, state, ds))
  }

  /** The state rebuilt from nothing, and the snapshot MAC over it. */
  function VerifySnapshot(E: Env, c: Collection, version: nat, mac: Bytes, ds: seq<Decoded>, keys: Keys)
    : Result<State, CoreError>
  {
    var ms :- DecodedHashMutations(ds);
    var state :- OfState(ApplyAt(E.crypto, EMPTY, version, ms));
    var expected :- OfCrypto(SnapshotMac(E.crypto, state.hash, version, CollectionName(c), keys));
    if !ConstantTimeEq(expected, mac) then Err(SnapshotMacFailed) else Ok(state)
  }
}
