/** The sync loops as they run against an auth store (crates/wa-core/src/app_state.rs). */
module SyncLoop {
  import opened Prelude
  import opened PatchState
  import opened StateBytes
  import opened Events
  import opened PatchProtocol
  import opened PatchTheorems
  import opened Store
  import opened SyncStore
  import opened Sync
  import opened SyncResponse
  import opened SyncKeys

  /** `load_app_state_patch_state` */
  method LoadStored(store: AuthStore, c: Collection) returns (r: Result<State, SyncError>)
    ensures r == LoadState(store.entries, c)
  {
    var encoded := store.Get(AppStateSyncVersion, CollectionName(c));
    if encoded.None? {
      return Ok(EMPTY);
    }
    return OfCodec(DecodeState(encoded.value));
  }

  /** `save_app_state_patch_state` */
  method SaveStored(store: AuthStore, c: Collection, s: State) returns (r: Result<(), SyncError>)
    modifies store
    ensures match SaveState(old(store.entries), c, s)
            case Ok(m) => store.entries == m && r == Ok(())
            case Err(e) => store.entries == old(store.entries) && r == Err(e)
  {
    var encoded := EncodeState(s);
    if encoded.Err? {
      return Err(CodecFailed(encoded.error));
    }
    store.Set(AppStateSyncVersion, CollectionName(c), encoded.value);
    return Ok(());
  }

  /** `load_app_state_sync_key_data` */
  method LoadKeyData(store: AuthStore, E: Env, keyId: Bytes) returns (r: Result<Option<Bytes>, SyncError>)
    ensures r == LoadKey(E, store.entries, keyId)
  {
    var id := KeyStoreId(keyId);
    if id.Err? {
      return Err(id.error);
    }
    var encoded := store.Get(AppStateSyncKey, id.value);
    if encoded.None? {
      return Ok(None);
    }
    var data := E.formats.decodeKey(encoded.value);
    if data.None? {
      return Err(KeyRecordMalformed);
    }
    if data.value.None? || data.value.value == [] {
      return Err(KeyDataMissing);
    }
    return Ok(Some(data.value.value));
  }

  /** `save_app_state_blocked_collection` */
  method SaveRecordStored(store: AuthStore, c: Collection, b: Blocked) returns (r: Result<(), SyncError>)
    modifies store
    ensures match SaveBlocked(old(store.entries), c, b)
            case Ok(m) => store.entries == m && r == Ok(())
            case Err(e) => store.entries == old(store.entries) && r == Err(e)
  {
    var encoded := EncodeBlocked(b);
    if encoded.Err? {
      return Err(CodecFailed(encoded.error));
    }
    store.Set(AppStateSyncBlocked, CollectionName(c), encoded.value);
    return Ok(());
  }

  /** `event_batch_from_decoded_app_state_mutations`: one batch, added to mutation by mutation. */
  method CollectEvents(ds: seq<Decoded>, initial: bool) returns (r: Result<Batch, CoreError>)
    ensures r == DecodedBatch(ds, initial)
  {
    var batch := NO_EVENTS;
    for i := 0 to |ds|
      invariant BatchOnto(NO_EVENTS, ReportedOfAll(ds), initial) == BatchOnto(batch, ReportedOfAll(ds[i..]), initial)
    {
      assert ds[i..][1..] == ds[i + 1..];
      var e := EventsOf(ds[i].op, ds[i].index, ds[i].action, initial);
      ReportedHead(ds[i..]);
      if e.Err? {
        return Err(EventFailed(e.error));
      }
      batch := Join(batch, e.value);
    }
    return Ok(batch);
  }

  lemma ReportedHead(ds: seq<Decoded>)
    requires ds != []
    ensures ReportedOfAll(ds)[0] == ReportedOf(ds[0]) && ReportedOfAll(ds)[1..] == ReportedOfAll(ds[1..])
  {
  }

  /** `apply_decoded_app_state_patch_to_store` */
  method ApplyDecodedPatch(store: AuthStore, d: DecodedPatch, initial: bool) returns (r: Result<Batch, SyncError>)
    modifies store
    ensures match ApplyDecoded(old(store.entries), d, initial)
            case Ok(saved) => store.entries == saved.m && r == Ok(saved.batch)
            case Err(e) => store.entries == old(store.entries) && r == Err(e)
  {
    var batch := CollectEvents(d.mutations, initial);
    if batch.Err? {
      return Err(CoreFailed(batch.error));
    }
    var saved := SaveStored(store, d.collection, d.next);
    if saved.Err? {
      return Err(saved.error);
    }
    store.Delete(AppStateSyncBlocked, CollectionName(d.collection));
    return Ok(batch.value);
  }

  /** `apply_decoded_app_state_snapshot_to_store` */
  method ApplyDecodedSnapshot(store: AuthStore, d: DecodedSnapshot) returns (r: Result<Batch, SyncError>)
    modifies store
    ensures match ApplySnapshot(old(store.entries), d)
            case Ok(saved) => store.entries == saved.m && r == Ok(saved.batch)
            case Err(e) => store.entries == old(store.entries) && r == Err(e)
  {
    var batch := CollectEvents(d.mutations, true);
    if batch.Err? {
      return Err(CoreFailed(batch.error));
    }
    var saved := SaveStored(store, d.collection, d.state);
    if saved.Err? {
      return Err(saved.error);
    }
    store.Delete(AppStateSyncBlocked, CollectionName(d.collection));
    return Ok(batch.value);
  }

  /** What taking one patch came to. */
  datatype Outcome = Advanced(state: State, batch: Batch) | Blocks(record: Blocked) | Fails(error: SyncError)

  function TakenAs(pr: Progress, m: Contents, t: Outcome): Run {
    match t
    case Advanced(s, b) => Run(Progress(m, s, pr.applied + 1, Push(pr.batches, b)), Finished)
    case Blocks(record) => Run(pr.(m := m), BlockedOn(record))
    case Fails(e) => Run(pr.(m := m), Failed(e))
  }

  /** Decodes and applies a patch whose key is known. */
  method DecodeAndApply(store: AuthStore, E: Env, c: Collection, initial: bool, state: State, p: Patch, keyData: Bytes,
                        ghost pr: Progress)
    returns (t: Outcome)
    requires pr.m == store.entries && pr.state == state
    modifies store
    ensures TakenAs(pr, store.entries, t) == Decode(E, c, initial, pr, p, keyData)
  {
    var decoded := DecodePatch(E, c, state, p, keyData);
    if decoded.Err? {
      return Fails(CoreFailed(decoded.error));
    }
    var batch := ApplyDecodedPatch(store, decoded.value, initial);
    return if batch.Err? then Fails(batch.error) else Advanced(decoded.value.next, batch.value);
  }

  /** One patch: its key from the caller or from the store, and then the patch itself. */
  method TakePatch(store: AuthStore, E: Env, src: KeySource, c: Collection, initial: bool, state: State, p: Patch,
                   ghost pr: Progress)
    returns (t: Outcome)
    requires pr.m == store.entries && pr.state == state
    modifies store
    ensures TakenAs(pr, store.entries, t) == Stepper(E, src, c, initial)(pr, p)
  {
    if src.Fixed? {
      t := DecodeAndApply(store, E, c, initial, state, p, src.keyData, pr);
      return;
    }
    var keyId := PatchKeyId(p);
    if keyId.Err? {
      return Fails(CoreFailed(keyId.error));
    }
    var key := LoadKeyData(store, E, keyId.value);
    if key.Err? {
      return Fails(key.error);
    }
    if key.value.None? {
      var record := Blocked(keyId.value, state.version);
      var saved := SaveRecordStored(store, c, record);
      return if saved.Err? then Fails(saved.error) else Blocks(record);
    }
    t := DecodeAndApply(store, E, c, initial, state, p, key.value.value, pr);
  }

  lemma TakenStep(step: (Progress, Patch) -> Run, pr: Progress, ps: seq<Patch>, i: nat, m: Contents, t: Outcome)
    requires i < |ps| && TakenAs(pr, m, t) == step(pr, ps[i])
    ensures RunSteps(step, pr, ps[i..])
         == (if t.Advanced? then RunSteps(step, TakenAs(pr, m, t).progress, ps[i + 1..]) else TakenAs(pr, m, t))
  {
    assert ps[i..][1..] == ps[i + 1..];
  }

  /** The patches of one collection in order, until one fails or has no key. */
  method TakePatches(store: AuthStore, E: Env, src: KeySource, c: Collection, initial: bool, ghost start: Progress,
                     first: State, reported: seq<Batch>, ps: seq<Patch>)
    returns (state: State, applied: nat, batches: seq<Batch>, end: End)
    requires start == Progress(store.entries, first, 0, reported)
    modifies store
    ensures RunSteps(Stepper(E, src, c, initial), start, ps) == Run(Progress(store.entries, state, applied, batches), end)
  {
    state, applied, batches := first, 0, reported;
    assert ps[0..] == ps;
    ghost var step := Stepper(E, src, c, initial);
    for i := 0 to |ps|
      invariant RunSteps(step, start, ps) == RunSteps(step, Progress(store.entries, state, applied, batches), ps[i..])
    {
      ghost var pr := Progress(store.entries, state, applied, batches);
      var t := TakePatch(store, E, src, c, initial, state, ps[i], pr);
      TakenStep(step, pr, ps, i, store.entries, t);
      match t {
        case Fails(e) =>
          return state, applied, batches, Failed(e);
        case Blocks(record) =>
          return state, applied, batches, BlockedOn(record);
        case Advanced(next, batch) =>
          state := next;
          applied := applied + 1;
          batches := Push(batches, batch);
          assert TakenAs(pr, store.entries, t).progress == Progress(store.entries, state, applied, batches);
      }
    }
    return state, applied, batches, Finished;
  }

  /** One collection of a response. */
  method ApplyCollection(store: AuthStore, E: Env, src: KeySource, initial: bool, sum: Summary, u: CollectionUpdate)
    returns (r: Result<Summary, SyncError>)
    modifies store
    ensures Applied(store.entries, r) == ApplyUpdate(E, src, initial, old(store.entries), sum, u)
  {
    var loaded := LoadStored(store, u.collection);
    if loaded.Err? {
      return Err(loaded.error);
    }
    var state, applied, batches, end :=
      TakePatches(store, E, src, u.collection, initial, Start(store.entries, loaded.value, sum), loaded.value, sum.batches,
                  u.patches);
    var pr := Progress(store.entries, state, applied, batches);
    match end {
      case Failed(e) =>
        r := Err(e);
      case BlockedOn(record) =>
        r := Ok(Wait(sum, u, pr, record));
      case Finished =>
        store.Delete(AppStateSyncBlocked, CollectionName(u.collection));
        r := Ok(Complete(sum, u, pr));
    }
  }

  /**
   `apply_app_state_sync_response_to_store` and
   `apply_app_state_sync_response_with_store_keys`
   */
  method ApplyResponse(store: AuthStore, E: Env, src: KeySource, initial: bool, us: seq<CollectionUpdate>)
    returns (r: Result<Summary, SyncError>)
    modifies store
    ensures Applied(store.entries, r) == ApplyUpdates(E, src, initial, old(store.entries), NOTHING, us)
  {
    var sum := NOTHING;
    for i := 0 to |us|
      invariant ApplyUpdates(E, src, initial, old(store.entries), NOTHING, us)
             == ApplyUpdates(E, src, initial, store.entries, sum, us[i..])
    {
      assert us[i..][1..] == us[i + 1..];
      var next := ApplyCollection(store, E, src, initial, sum, us[i]);
      if next.Err? {
        return Err(next.error);
      }
      sum := next.value;
    }
    return Ok(sum);
  }

  /** `save_app_state_sync_key_data` */
  method SaveKeyData(store: AuthStore, E: Env, keyId: Bytes, keyData: Bytes) returns (r: Result<(), SyncError>)
    modifies store
    ensures match SaveKey(E, old(store.entries), keyId, keyData)
            case Ok(m) => store.entries == m && r == Ok(())
            case Err(e) => store.entries == old(store.entries) && r == Err(e)
  {
    if keyData == [] {
      return Err(KeyDataMissing);
    }
    var id := KeyStoreId(keyId);
    if id.Err? {
      return Err(id.error);
    }
    store.Set(AppStateSyncKey, id.value, E.formats.encodeKey(keyData));
    return Ok(());
  }

  /** `load_app_state_blocked_collections_for_keys` */
  method LoadBlockedFor(store: AuthStore, ids: seq<Bytes>) returns (r: Result<seq<BlockedCollection>, SyncError>)
    ensures r == BlockedFor(store.entries, ids)
  {
    if ids == [] {
      return Ok([]);
    }
    r := LoadWaiting(store, AllCollections(), ids);
  }

  method LoadWaiting(store: AuthStore, cs: seq<Collection>, ids: seq<Bytes>) returns (r: Result<seq<BlockedCollection>, SyncError>)
    ensures r == WaitingFor(store.entries, cs, ids)
  {
    var blocked: seq<BlockedCollection> := [];
    AfterNothing(WaitingFor(store.entries, cs, ids));
    assert cs[0..] == cs;
    for i := 0 to |cs|
      invariant WaitingFor(store.entries, cs, ids) == After(blocked, WaitingFor(store.entries, cs[i..], ids))
    {
      WaitingStep(store.entries, cs, i, ids, blocked);
      var encoded := store.Get(AppStateSyncBlocked, CollectionName(cs[i]));
      if encoded.Some? {
        var record := DecodeBlocked(encoded.value);
        if record.Err? {
          return Err(CodecFailed(record.error));
        }
        if record.value.keyId in ids {
          blocked := blocked + [BlockedCollection(cs[i], record.value)];
        }
      }
    }
    assert cs[|cs|..] == [] && blocked + [] == blocked;
    return Ok(blocked);
  }

  /** What has been found so far, and then the rest. */
  function After(done: seq<BlockedCollection>, rest: Result<seq<BlockedCollection>, SyncError>)
    : Result<seq<BlockedCollection>, SyncError>
  {
    if rest.Ok? then Ok(done + rest.value) else rest
  }

  lemma AfterNothing(rest: Result<seq<BlockedCollection>, SyncError>)
    ensures After([], rest) == rest
  {
    if rest.Ok? {
      assert [] + rest.value == rest.value;
    }
  }

  /** How the record of one collection shows in the list. */
  lemma WaitingStep(m: Contents, cs: seq<Collection>, i: nat, ids: seq<Bytes>, done: seq<BlockedCollection>)
    requires i < |cs|
    ensures var record := LoadBlocked(m, cs[i]);
            After(done, WaitingFor(m, cs[i..], ids))
            == (if record.Err? then Err(record.error)
                else if record.value.Some? && record.value.value.keyId in ids
                then After(done + [BlockedCollection(cs[i], record.value.value)], WaitingFor(m, cs[i + 1..], ids))
                else After(done, WaitingFor(m, cs[i + 1..], ids)))
  {
    assert cs[i..][1..] == cs[i + 1..];
    var rest := WaitingFor(m, cs[i + 1..], ids);
    if LoadBlocked(m, cs[i]).Ok? && LoadBlocked(m, cs[i]).value.Some? && rest.Ok? {
      Assoc(done, [BlockedCollection(cs[i], LoadBlocked(m, cs[i]).value.value)], rest.value);
    }
  }

  /** `save_app_state_sync_key_share` */
  method SaveShare(store: AuthStore, E: Env, items: seq<ShareItem>) returns (r: Result<seq<BlockedCollection>, SyncError>)
    modifies store
    ensures Shared(store.entries, r) == SaveKeyShare(E, old(store.entries), items)
  {
    for i := 0 to |items|
      invariant SaveKeys(E, old(store.entries), items) == SaveKeys(E, store.entries, items[i..])
    {
      assert items[i..][1..] == items[i + 1..];
      var saved := SaveKeyData(store, E, items[i].keyId, items[i].keyData);
      if saved.Err? {
        return Err(saved.error);
      }
    }
    r := LoadBlockedFor(store, KeyIds(items));
  }
}
