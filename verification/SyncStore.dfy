/**
 What app-state sync keeps in the auth store (crates/wa-core/src/app_state.rs):
 a state and possibly a blocked record per collection, and the sync keys.
 */
module SyncStore {
  import opened Prelude
  import opened PatchState
  import opened StateBytes
  import opened PatchProtocol
  import opened Store
  import opened SortedMap
  import opened BigEndian

  datatype SyncError =
    | CoreFailed(core: CoreError)
    | CodecFailed(codec: StoreError)
    | NoKeyId
    | KeyDataMissing
    | KeyRecordMalformed

  function OfCore<V>(r: Result<V, CoreError>): Result<V, SyncError> {
    if r.Ok? then Ok(r.value) else Err(CoreFailed(r.error))
  }

  function OfCodec<V>(r: Result<V, StoreError>): Result<V, SyncError> {
    if r.Ok? then Ok(r.value) else Err(CodecFailed(r.error))
  }

  function StateKey(c: Collection): StoreKey {
    StoreKey(AppStateSyncVersion, CollectionName(c))
  }

  function BlockedKey(c: Collection): StoreKey {
    StoreKey(AppStateSyncBlocked, CollectionName(c))
  }

  lemma StoreKeysDiffer(a: Collection, b: Collection)
    ensures StateKey(a) == StateKey(b) <==> a == b
    ensures BlockedKey(a) == BlockedKey(b) <==> a == b
  {
    NamesDiffer(a, b);
  }

  // ----- States --------------------------------------------------------------

  /** `load_app_state_patch_state` */
  function LoadState(m: Contents, c: Collection): Result<State, SyncError> {
    if StateKey(c) in m then OfCodec(DecodeState(m[StateKey(c)])) else Ok(EMPTY)
  }

  /** `save_app_state_patch_state` */
  function SaveState(m: Contents, c: Collection, s: State): Result<Contents, SyncError> {
    var encoded :- OfCodec(EncodeState(s));
    Ok(m[StateKey(c) := encoded])
  }

  /** The state of a collection, as stored and as the program holds it. */
  ghost predicate StoredAs(m: Contents, c: Collection, s: State) {
    LoadState(m, c) == Ok(s) && ValidMacs(s.macs) && s.version <= U64_MAX
  }

  lemma SaveThenLoad(m: Contents, c: Collection, s: State)
    requires ValidMacs(s.macs) && s.version <= U64_MAX && SaveState(m, c, s).Ok?
    ensures StoredAs(SaveState(m, c, s).value, c, s)
  {
    StateRoundTrip(s);
  }

  lemma {:induction false} BuiltMacsValid(es: seq<RawEntry>, acc: MacMap)
    requires ValidMacs(acc) && FromEntries(es, acc).Ok?
    ensures ValidMacs(FromEntries(es, acc).value)
    decreases |es|
  {
    if es != [] {
      var e := es[0];
      EntryValid(e.indexMac, e.valueMac);
      InsertValid(acc, SortedMap.Entry(Base64.Encode(e.indexMac), e.valueMac));
      BuiltMacsValid(es[1..], Insert(acc, Base64.Encode(e.indexMac), e.valueMac));
    }
  }

  /** Whatever bytes are stored, a state that loads is well formed. */
  lemma LoadedState(m: Contents, c: Collection)
    requires LoadState(m, c).Ok?
    ensures StoredAs(m, c, LoadState(m, c).value)
  {
    if StateKey(c) in m {
      var raw := ReadState(m[StateKey(c)]).value.value;
      BuiltMacsValid(raw.entries, []);
      VersionFits(m[StateKey(c)]);
    }
  }

  lemma VersionFits(s: Bytes)
    requires ReadState(s).Ok?
    ensures ReadState(s).value.value.version <= U64_MAX
  {
    var header := ReadHeader(s, STATE_MAGIC).value;
    var version := ReadExact(header.rest, 8).value;
    FromBytesBound(version.value);
    WidthSizes();
  }

  // ----- Keys ----------------------------------------------------------------

  /** `app_state_sync_key_store_id` */
  function KeyStoreId(keyId: Bytes): Result<Bytes, SyncError> {
    if keyId == [] then Err(NoKeyId) else Ok(Base64.Encode(keyId))
  }

  /** `load_app_state_sync_key_data` */
  function LoadKey(E: Env, m: Contents, keyId: Bytes): Result<Option<Bytes>, SyncError> {
    var id :- KeyStoreId(keyId);
    match Lookup(m, AppStateSyncKey, id)
    case None => Ok(None)
    case Some(encoded) =>
      match E.formats.decodeKey(encoded)
      case None => Err(KeyRecordMalformed)
      case Some(data) =>
        if data.None? || data.value == [] then Err(KeyDataMissing) else Ok(Some(data.value))
  }

  /** `save_app_state_sync_key_data` */
  function SaveKey(E: Env, m: Contents, keyId: Bytes, keyData: Bytes): Result<Contents, SyncError> {
    if keyData == [] then Err(KeyDataMissing)
    else
      var id :- KeyStoreId(keyId);
      Ok(m[StoreKey(AppStateSyncKey, id) := E.formats.encodeKey(keyData)])
  }

  /** A saved key is found again, and saving it hides or changes no other. */
  lemma SaveKeyThenLoad(E: Env, m: Contents, keyId: Bytes, keyData: Bytes, other: Bytes)
    requires Faithful(E.formats) && SaveKey(E, m, keyId, keyData).Ok?
    ensures LoadKey(E, SaveKey(E, m, keyId, keyData).value, other)
         == (if other == keyId then Ok(Some(keyData)) else LoadKey(E, m, other))
  {
    if other != keyId && other != [] && Base64.Encode(other) == Base64.Encode(keyId) {
      Base64.EncodeInjective(other, keyId);
    }
  }

  // ----- Blocked records -----------------------------------------------------

  /** `load_app_state_blocked_collection` */
  function LoadBlocked(m: Contents, c: Collection): Result<Option<Blocked>, SyncError> {
    if BlockedKey(c) in m then
      var b :- OfCodec(DecodeBlocked(m[BlockedKey(c)]));
      Ok(Some(b))
    else Ok(None)
  }

  /** `save_app_state_blocked_collection` */
  function SaveBlocked(m: Contents, c: Collection, b: Blocked): Result<Contents, SyncError> {
    var encoded :- OfCodec(EncodeBlocked(b));
    Ok(m[BlockedKey(c) := encoded])
  }

  /** `delete_app_state_blocked_collection` */
  function ClearBlocked(m: Contents, c: Collection): Contents {
    m - {BlockedKey(c)}
  }

  lemma SaveThenLoadBlocked(m: Contents, c: Collection, b: Blocked)
    requires b.previousVersion <= U64_MAX && SaveBlocked(m, c, b).Ok?
    ensures LoadBlocked(SaveBlocked(m, c, b).value, c) == Ok(Some(b))
  {
    BlockedRoundTrip(b);
  }

  // ----- What the entries of one collection do not touch ----------------------

  predicate Own(c: Collection, k: StoreKey) {
    k == StateKey(c) || k == BlockedKey(c)
  }

  /** Two stores that differ at most in the two entries of one collection. */
  ghost predicate OnlyOwn(m: Contents, n: Contents, c: Collection) {
    forall k :: !Own(c, k) ==> (k in m <==> k in n) && (k in m ==> m[k] == n[k])
  }

  lemma OwnWrites(m: Contents, c: Collection, b: Bytes)
    ensures OnlyOwn(m, m[StateKey(c) := b] - {BlockedKey(c)}, c)
    ensures OnlyOwn(m, m[BlockedKey(c) := b], c)
  {
  }

  /** Blocked records are not looked at when a state is loaded. */
  lemma RecordsApart(m: Contents, c: Collection, b: Bytes)
    ensures LoadState(ClearBlocked(m, c), c) == LoadState(m, c)
    ensures LoadState(m[BlockedKey(c) := b], c) == LoadState(m, c)
  {
  }

  /** Saving a state and clearing the blocked record, as an applied patch does. */
  lemma SaveAndClear(m: Contents, c: Collection, s: State)
    requires ValidMacs(s.macs) && s.version <= U64_MAX && SaveState(m, c, s).Ok?
    ensures StoredAs(ClearBlocked(SaveState(m, c, s).value, c), c, s)
    ensures OnlyOwn(m, ClearBlocked(SaveState(m, c, s).value, c), c)
  {
    SaveThenLoad(m, c, s);
    RecordsApart(SaveState(m, c, s).value, c, []);
    OwnWrites(m, c, EncodeState(s).value);
  }

  /** Saving a blocked record leaves the state alone. */
  lemma SaveRecord(m: Contents, c: Collection, b: Blocked, s: State)
    requires b.previousVersion <= U64_MAX && SaveBlocked(m, c, b).Ok? && StoredAs(m, c, s)
    ensures StoredAs(SaveBlocked(m, c, b).value, c, s)
    ensures OnlyOwn(m, SaveBlocked(m, c, b).value, c)
    ensures LoadBlocked(SaveBlocked(m, c, b).value, c) == Ok(Some(b))
  {
    SaveThenLoadBlocked(m, c, b);
    RecordsApart(m, c, EncodeBlocked(b).value);
    OwnWrites(m, c, EncodeBlocked(b).value);
  }

  lemma OnlyOwnTrans(l: Contents, m: Contents, n: Contents, c: Collection)
    requires OnlyOwn(l, m, c) && OnlyOwn(m, n, c)
    ensures OnlyOwn(l, n, c)
  {
  }

  /** Keys and other collections are out of reach of one collection's entries. */
  lemma OthersUntouched(E: Env, m: Contents, n: Contents, c: Collection)
    requires OnlyOwn(m, n, c)
    ensures forall keyId :: LoadKey(E, m, keyId) == LoadKey(E, n, keyId)
    ensures forall d :: d != c ==> LoadState(m, d) == LoadState(n, d) && LoadBlocked(m, d) == LoadBlocked(n, d)
  {
    forall d | d != c ensures LoadState(m, d) == LoadState(n, d) && LoadBlocked(m, d) == LoadBlocked(n, d) {
      StoreKeysDiffer(c, d);
      assert !Own(c, StateKey(d)) && !Own(c, BlockedKey(d));
    }
    forall keyId ensures LoadKey(E, m, keyId) == LoadKey(E, n, keyId) {
      assert !Own(c, StoreKey(AppStateSyncKey, Base64.Encode(keyId)));
    }
  }
}
