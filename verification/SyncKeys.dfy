/**
 Sync keys that arrive later (`save_app_state_sync_key_share`,
 `load_app_state_blocked_collections_for_keys` and
 `load_app_state_blocked_collections_with_store_keys`,
 crates/wa-core/src/app_state.rs), and resuming what waited for them.
 */
module SyncKeys {
  import opened Prelude
  import opened PatchState
  import opened StateBytes
  import opened PatchProtocol
  import opened Store
  import opened SyncStore
  import opened Sync
  import opened SyncResume
  import opened SyncResponse

  // ----- Resuming a blocked collection ---------------------------------------

  lemma PlusLoads(m: Contents, extra: Contents, c: Collection)
    requires KeysOnly(extra)
    ensures LoadState(m + extra, c) == LoadState(m, c)
  {
    assert StateKey(c) !in extra;
  }

  /** A blocked update after its keys have arrived: the patches that were left over. */
  function Remaining(u: CollectionUpdate, applied: nat): CollectionUpdate
    requires applied <= |u.patches|
  {
    u.(patches := u.patches[applied..])
  }

  /** Two updates of one collection, one after the other, that amount to a third. */
  ghost predicate AddUp(c: Collection, first: Summary, second: Applied, whole: Applied) {
    && LoadState(second.m, c) == LoadState(whole.m, c)
    && ClearBlocked(second.m, c) == ClearBlocked(whole.m, c)
    && (second.summary.Err? <==> whole.summary.Err?)
    && (second.summary.Err? ==> second.summary == whole.summary)
    && (second.summary.Ok? ==>
          && second.m == whole.m
          && whole.summary.value.batches == first.batches + second.summary.value.batches
          && whole.summary.value.pending == second.summary.value.pending
          && whole.summary.value.blocked == second.summary.value.blocked
          && |first.reports| == |second.summary.value.reports| == |whole.summary.value.reports| == 1
          && whole.summary.value.reports[0].finalVersion == second.summary.value.reports[0].finalVersion
          && whole.summary.value.reports[0].appliedPatches
          == first.reports[0].appliedPatches + second.summary.value.reports[0].appliedPatches)
  }

  /** The update waits for a key. */
  predicate Blocks(E: Env, initial: bool, m: Contents, u: CollectionUpdate) {
    var a := ApplyUpdate(E, FromStore, initial, m, NOTHING, u);
    LoadState(m, u.collection).Ok? && a.summary.Ok? && a.summary.value.blocked != []
  }

  lemma ConcludeAddsUp(u: CollectionUpdate, n: nat, blocked: Progress, record: Blocked, second: Run, whole: Run)
    requires n <= |u.patches| && n == blocked.applied
    requires second.end == whole.end
    requires SameButRecord(whole.progress, Rebase(second.progress, n, blocked.batches), u.collection)
    requires !second.end.Failed? ==> whole.progress.m == second.progress.m
    ensures AddUp(u.collection, Wait(NOTHING, u, blocked, record),
                  Conclude(NOTHING, Remaining(u, n), second), Conclude(NOTHING, u, whole))
  {
    var c := u.collection;
    RecordsApart(second.progress.m, c, []);
    RecordsApart(whole.progress.m, c, []);
    ClearTwice(second.progress.m, c);
    ClearTwice(whole.progress.m, c);
  }

  lemma ClearTwice(m: Contents, c: Collection)
    ensures ClearBlocked(ClearBlocked(m, c), c) == ClearBlocked(m, c)
  {
  }

  /** The continuation, counted from nothing as a new response counts it. */
  lemma Continuation(E: Env, c: Collection, initial: bool, blocked: Progress, extra: Contents, rest: seq<Patch>)
    ensures var second := Patches(E, FromStore, c, initial, Start(blocked.m + extra, blocked.state, NOTHING), rest);
            Patches(E, FromStore, c, initial, Plus(blocked, extra), rest)
            == Run(Rebase(second.progress, blocked.applied, blocked.batches), second.end)
  {
    var start := Start(blocked.m + extra, blocked.state, NOTHING);
    StepperIgnoresBase(E, FromStore, c, initial);
    RunRebase(Stepper(E, FromStore, c, initial), start, rest, blocked.applied, blocked.batches);
    assert blocked.batches + [] == blocked.batches;
    assert Rebase(start, blocked.applied, blocked.batches) == Plus(blocked, extra);
  }

  lemma ResumedRuns(E: Env, initial: bool, m: Contents, u: CollectionUpdate, extra: Contents, s: State, r: Run)
    requires KeysOnly(extra) && r == Patches(E, FromStore, u.collection, initial, Start(m, s, NOTHING), u.patches)
    requires r.end.BlockedOn? && AppliedUnchanged(E, FromStore, Start(m, s, NOTHING), u.patches, extra, r.progress)
    ensures r.progress.applied < |u.patches|
    ensures var rest := u.patches[r.progress.applied..];
            var second := Patches(E, FromStore, u.collection, initial, Start(r.progress.m + extra, r.progress.state, NOTHING), rest);
            var whole := Patches(E, FromStore, u.collection, initial, Start(m + extra, s, NOTHING), u.patches);
            && second.end == whole.end
            && SameButRecord(whole.progress, Rebase(second.progress, r.progress.applied, r.progress.batches), u.collection)
            && (!second.end.Failed? ==> whole.progress.m == second.progress.m)
  {
    ResumeIsWhole(E, FromStore, u.collection, initial, Start(m, s, NOTHING), u.patches, extra);
    Continuation(E, u.collection, initial, r.progress, extra, u.patches[r.progress.applied..]);
    assert Plus(Start(m, s, NOTHING), extra) == Start(m + extra, s, NOTHING);
  }

  /**
   Blocking and resuming loses nothing: when an update waits for a key, applying
   the patches it left over once keys have been added gives the store, the
   batches, the version and the outcome that applying the whole update with those
   keys would have given. The keys of patches already applied must not change.
   */
  lemma BlockAndResume(E: Env, initial: bool, m: Contents, u: CollectionUpdate, extra: Contents)
    requires KeysOnly(extra) && Blocks(E, initial, m, u)
    requires forall i :: 0 <= i < |u.patches| && i < AppliedCount(E, FromStore, initial, m, NOTHING, u) ==>
               Unchanged(E, FromStore, m, extra, u.patches[i])
    ensures var first := ApplyUpdate(E, FromStore, initial, m, NOTHING, u);
            && |first.summary.value.reports| == 1
            && first.summary.value.reports[0].appliedPatches < |u.patches|
            && var rest := Remaining(u, first.summary.value.reports[0].appliedPatches);
            AddUp(u.collection, first.summary.value,
                  ApplyUpdate(E, FromStore, initial, first.m + extra, NOTHING, rest),
                  ApplyUpdate(E, FromStore, initial, m + extra, NOTHING, u))
  {
    var s := LoadState(m, u.collection).value;
    var r := Patches(E, FromStore, u.collection, initial, Start(m, s, NOTHING), u.patches);
    LoadedState(m, u.collection);
    RunExplained(E, FromStore, u.collection, initial, Start(m, s, NOTHING), u.patches);
    ResumedRuns(E, initial, m, u, extra, s, r);
    PlusLoads(m, extra, u.collection);
    PlusLoads(r.progress.m, extra, u.collection);
    ConcludeAddsUp(u, r.progress.applied, r.progress, r.end.record,
                   Patches(E, FromStore, u.collection, initial, Start(r.progress.m + extra, r.progress.state, NOTHING),
                           u.patches[r.progress.applied..]),
                   Patches(E, FromStore, u.collection, initial, Start(m + extra, s, NOTHING), u.patches));
  }

  // ----- Key shares ----------------------------------------------------------

  datatype ShareItem = ShareItem(keyId: Bytes, keyData: Bytes)

  /** Keys are saved one by one; the first that cannot be saved ends it. */
  datatype KeysSaved = KeysSaved(m: Contents, error: Option<SyncError>)

  function SaveKeys(E: Env, m: Contents, items: seq<ShareItem>): KeysSaved
    decreases |items|
  {
    if items == [] then KeysSaved(m, None)
    else
      match SaveKey(E, m, items[0].keyId, items[0].keyData)
      case Err(e) => KeysSaved(m, Some(e))
      case Ok(saved) => SaveKeys(E, saved, items[1..])
  }

  /** The blocked records of some collections that wait for one of the keys. */
  function WaitingFor(m: Contents, cs: seq<Collection>, ids: seq<Bytes>): Result<seq<BlockedCollection>, SyncError>
    decreases |cs|
  {
    if cs == [] then Ok([])
    else
      var record :- LoadBlocked(m, cs[0]);
      var rest :- WaitingFor(m, cs[1..], ids);
      if record.Some? && record.value.keyId in ids then Ok([BlockedCollection(cs[0], record.value)] + rest) else Ok(rest)
  }

  /** `load_app_state_blocked_collections_for_keys` */
  function BlockedFor(m: Contents, ids: seq<Bytes>): Result<seq<BlockedCollection>, SyncError> {
    if ids == [] then Ok([]) else WaitingFor(m, AllCollections(), ids)
  }

  function KeyIds(items: seq<ShareItem>): seq<Bytes> {
    if items == [] then [] else [items[0].keyId] + KeyIds(items[1..])
  }

  datatype Shared = Shared(m: Contents, blocked: Result<seq<BlockedCollection>, SyncError>)

  /** `save_app_state_sync_key_share` */
  function SaveKeyShare(E: Env, m: Contents, items: seq<ShareItem>): Shared {
    var saved := SaveKeys(E, m, items);
    if saved.error.Some? then Shared(saved.m, Err(saved.error.value))
    else Shared(saved.m, BlockedFor(saved.m, KeyIds(items)))
  }

  /** The data that a list of items leaves under a key id: the last one wins. */
  function LastData(items: seq<ShareItem>, keyId: Bytes): Option<Bytes>
    decreases |items|
  {
    if items == [] then None
    else if LastData(items[1..], keyId).Some? then LastData(items[1..], keyId)
    else if items[0].keyId == keyId then Some(items[0].keyData)
    else None
  }

  /** Two stores that hold the same states and blocked records. */
  ghost predicate SameCollections(m: Contents, n: Contents) {
    forall c :: LoadState(m, c) == LoadState(n, c) && LoadBlocked(m, c) == LoadBlocked(n, c)
  }

  lemma SaveKeyApart(E: Env, m: Contents, keyId: Bytes, keyData: Bytes)
    requires SaveKey(E, m, keyId, keyData).Ok?
    ensures SameCollections(m, SaveKey(E, m, keyId, keyData).value)
  {
  }

  lemma {:induction false} SavedKeys(E: Env, m: Contents, items: seq<ShareItem>, keyId: Bytes)
    requires Faithful(E.formats) && SaveKeys(E, m, items).error.None?
    ensures LoadKey(E, SaveKeys(E, m, items).m, keyId)
         == (if LastData(items, keyId).Some? then Ok(LastData(items, keyId)) else LoadKey(E, m, keyId))
    ensures SameCollections(m, SaveKeys(E, m, items).m)
    decreases |items|
  {
    if items != [] {
      var saved := SaveKey(E, m, items[0].keyId, items[0].keyData).value;
      SaveKeyThenLoad(E, m, items[0].keyId, items[0].keyData, keyId);
      SaveKeyApart(E, m, items[0].keyId, items[0].keyData);
      SavedKeys(E, saved, items[1..], keyId);
    }
  }

  lemma {:induction false} SharedIds(items: seq<ShareItem>, keyId: Bytes)
    ensures keyId in KeyIds(items) <==> LastData(items, keyId).Some?
    decreases |items|
  {
    if items != [] {
      SharedIds(items[1..], keyId);
    }
  }

  lemma {:induction false} WaitingForExact(m: Contents, cs: seq<Collection>, ids: seq<Bytes>, b: BlockedCollection)
    requires WaitingFor(m, cs, ids).Ok?
    ensures b in WaitingFor(m, cs, ids).value
       <==> b.collection in cs && LoadBlocked(m, b.collection) == Ok(Some(b.record)) && b.record.keyId in ids
    decreases |cs|
  {
    if cs != [] {
      WaitingForExact(m, cs[1..], ids, b);
    }
  }

  lemma EveryCollection(c: Collection)
    ensures c in AllCollections()
  {
    var cs := AllCollections();
    assert cs[0] == Regular && cs[1] == RegularHigh && cs[2] == RegularLow && cs[3] == CriticalBlock;
    assert cs[4] == CriticalUnblock && cs[5] == CriticalUnblockLow && cs[6] == CriticalIdentity;
  }

  /**
   A key share returns exactly the collections that were waiting for one of its
   keys; each of those keys is now there, with the last data shared for it; and
   no state or blocked record has changed.
   */
  lemma KeyShareExact(E: Env, m: Contents, items: seq<ShareItem>, b: BlockedCollection)
    requires Faithful(E.formats) && SaveKeyShare(E, m, items).blocked.Ok?
    ensures var r := SaveKeyShare(E, m, items);
            && (b in r.blocked.value
                <==> LoadBlocked(m, b.collection) == Ok(Some(b.record)) && LastData(items, b.record.keyId).Some?)
            && (b in r.blocked.value ==> LoadKey(E, r.m, b.record.keyId) == Ok(LastData(items, b.record.keyId)))
            && SameCollections(m, r.m)
  {
    var keyId := b.record.keyId;
    SavedKeys(E, m, items, keyId);
    SharedIds(items, keyId);
    EveryCollection(b.collection);
    if items != [] {
      WaitingForExact(SaveKeys(E, m, items).m, AllCollections(), KeyIds(items), b);
    }
  }

  /** `load_app_state_blocked_collections_with_store_keys` */
  function Unblocked(E: Env, m: Contents, cs: seq<Collection>): Result<seq<BlockedCollection>, SyncError>
    decreases |cs|
  {
    if cs == [] then Ok([])
    else
      var record :- LoadBlocked(m, cs[0]);
      if record.None? then Unblocked(E, m, cs[1..])
      else
        var key :- LoadKey(E, m, record.value.keyId);
        var rest :- Unblocked(E, m, cs[1..]);
        if key.Some? then Ok([BlockedCollection(cs[0], record.value)] + rest) else Ok(rest)
  }

  lemma {:induction false} UnblockedExact(E: Env, m: Contents, cs: seq<Collection>, b: BlockedCollection)
    requires Unblocked(E, m, cs).Ok?
    ensures b in Unblocked(E, m, cs).value
       <==> && b.collection in cs && LoadBlocked(m, b.collection) == Ok(Some(b.record))
            && LoadKey(E, m, b.record.keyId).Ok? && LoadKey(E, m, b.record.keyId).value.Some?
    decreases |cs|
  {
    if cs != [] {
      UnblockedExact(E, m, cs[1..], b);
    }
  }

  /** What a key share returns, a scan of the whole store would return too. */
  lemma ShareThenScan(E: Env, m: Contents, items: seq<ShareItem>, b: BlockedCollection)
    requires Faithful(E.formats) && SaveKeyShare(E, m, items).blocked.Ok? && b in SaveKeyShare(E, m, items).blocked.value
    requires Unblocked(E, SaveKeyShare(E, m, items).m, AllCollections()).Ok?
    ensures b in Unblocked(E, SaveKeyShare(E, m, items).m, AllCollections()).value
  {
    KeyShareExact(E, m, items, b);
    EveryCollection(b.collection);
    UnblockedExact(E, SaveKeyShare(E, m, items).m, AllCollections(), b);
  }

  // ----- From the block through the share to the end --------------------------

  /** The entries that a share writes. */
  function Overlay(E: Env, items: seq<ShareItem>): Contents {
    if items == [] then map[]
    else map[StoreKey(AppStateSyncKey, Base64.Encode(items[0].keyId)) := E.formats.encodeKey(items[0].keyData)]
         + Overlay(E, items[1..])
  }

  lemma PutFirst<K, V>(m: map<K, V>, k: K, v: V, rest: map<K, V>)
    ensures m[k := v] + rest == m + (map[k := v] + rest)
  {
  }

  lemma {:induction false} SavedAsOverlay(E: Env, m: Contents, items: seq<ShareItem>)
    requires SaveKeys(E, m, items).error.None?
    ensures SaveKeys(E, m, items).m == m + Overlay(E, items) && KeysOnly(Overlay(E, items))
    decreases |items|
  {
    if items != [] {
      var k, v := StoreKey(AppStateSyncKey, Base64.Encode(items[0].keyId)), E.formats.encodeKey(items[0].keyData);
      assert SaveKey(E, m, items[0].keyId, items[0].keyData) == Ok(m[k := v]);
      SavedAsOverlay(E, m[k := v], items[1..]);
      PutFirst(m, k, v, Overlay(E, items[1..]));
    }
  }

  /** Whether the items can be saved does not depend on the store. */
  lemma {:induction false} SavedAnywhere(E: Env, m: Contents, n: Contents, items: seq<ShareItem>)
    ensures SaveKeys(E, m, items).error == SaveKeys(E, n, items).error
    decreases |items|
  {
    if items != [] && SaveKey(E, m, items[0].keyId, items[0].keyData).Ok? {
      SavedAnywhere(E, SaveKey(E, m, items[0].keyId, items[0].keyData).value,
                    SaveKey(E, n, items[0].keyId, items[0].keyData).value, items[1..]);
    }
  }

  /** If the share has the key of `p`, it has it as the store does. */
  predicate Confirms(E: Env, m: Contents, items: seq<ShareItem>, p: Patch) {
    PatchKeyId(p).Ok? && LastData(items, PatchKeyId(p).value).Some? ==>
      LoadKey(E, m, PatchKeyId(p).value) == Ok(LastData(items, PatchKeyId(p).value))
  }

  lemma ConfirmedUnchanged(E: Env, m: Contents, items: seq<ShareItem>, p: Patch)
    requires Faithful(E.formats) && SaveKeys(E, m, items).error.None? && Confirms(E, m, items, p)
    ensures Unchanged(E, FromStore, m, Overlay(E, items), p)
  {
    SavedAsOverlay(E, m, items);
    if PatchKeyId(p).Ok? {
      SavedKeys(E, m, items, PatchKeyId(p).value);
    }
  }

  /** The report of a blocked update counts the patches applied. */
  lemma BlockedCount(E: Env, initial: bool, m: Contents, u: CollectionUpdate)
    requires Blocks(E, initial, m, u)
    ensures var first := ApplyUpdate(E, FromStore, initial, m, NOTHING, u).summary.value;
            && |first.reports| == 1 && |first.blocked| == 1
            && first.reports[0].appliedPatches == AppliedCount(E, FromStore, initial, m, NOTHING, u)
  {
  }

  /** What a blocked update leaves: one record, for the key of the first patch left over. */
  lemma BlockedOnce(E: Env, initial: bool, m: Contents, u: CollectionUpdate)
    requires Blocks(E, initial, m, u)
    ensures var first := ApplyUpdate(E, FromStore, initial, m, NOTHING, u);
            var n := AppliedCount(E, FromStore, initial, m, NOTHING, u);
            && |first.summary.value.reports| == 1 && first.summary.value.reports[0].appliedPatches == n < |u.patches|
            && PatchKeyId(u.patches[n]).Ok?
            && first.summary.value.blocked
               == [BlockedCollection(u.collection,
                                     Blocked(PatchKeyId(u.patches[n]).value, first.summary.value.reports[0].finalVersion))]
            && LoadBlocked(first.m, u.collection) == Ok(Some(first.summary.value.blocked[0].record))
  {
    BlockedCount(E, initial, m, u);
    var s, a := LoadState(m, u.collection).value, ApplyUpdate(E, FromStore, initial, m, NOTHING, u);
    ReportsHonest(E, FromStore, initial, m, NOTHING, u);
    HonestBlocked(E, FromStore, m, s, u, a.m, a.summary.value, a.summary.value.reports[0]);
  }

  lemma HonestBlocked(E: Env, src: KeySource, m: Contents, s: State, u: CollectionUpdate, after: Contents, sum: Summary,
                      rep: Report)
    requires Honest(E, src, m, s, NOTHING, u, after, sum, rep) && sum.blocked != []
    ensures var n := rep.appliedPatches;
            && n < |u.patches| && PatchKeyId(u.patches[n]).Ok?
            && sum.blocked == [BlockedCollection(u.collection, Blocked(PatchKeyId(u.patches[n]).value, rep.finalVersion))]
            && LoadBlocked(after, u.collection) == Ok(Some(sum.blocked[0].record))
  {
  }

  /**
   The whole story: an update waits for a key; a key share arrives, which may bring
   stored keys again; it names the collection as one to resume exactly if it has
   that key; and applying the patches left over then gives what applying the whole
   update after the share would have given. Only a share that changes the key of a
   patch already applied is excluded.
   */
  lemma ShareAndResume(E: Env, initial: bool, m: Contents, u: CollectionUpdate, items: seq<ShareItem>)
    requires Faithful(E.formats) && Blocks(E, initial, m, u)
    requires SaveKeyShare(E, ApplyUpdate(E, FromStore, initial, m, NOTHING, u).m, items).blocked.Ok?
    requires forall i :: 0 <= i < |u.patches| && i < AppliedCount(E, FromStore, initial, m, NOTHING, u) ==>
               Confirms(E, m, items, u.patches[i])
    ensures var first := ApplyUpdate(E, FromStore, initial, m, NOTHING, u);
            var shared := SaveKeyShare(E, first.m, items);
            var n := AppliedCount(E, FromStore, initial, m, NOTHING, u);
            && n < |u.patches| && |first.summary.value.blocked| == 1 && PatchKeyId(u.patches[n]).Ok?
            && (first.summary.value.blocked[0] in shared.blocked.value
                <==> LastData(items, PatchKeyId(u.patches[n]).value).Some?)
            && AddUp(u.collection, first.summary.value,
                     ApplyUpdate(E, FromStore, initial, shared.m, NOTHING, Remaining(u, n)),
                     ApplyUpdate(E, FromStore, initial, SaveKeys(E, m, items).m, NOTHING, u))
  {
    var first := ApplyUpdate(E, FromStore, initial, m, NOTHING, u);
    var n := AppliedCount(E, FromStore, initial, m, NOTHING, u);
    BlockedOnce(E, initial, m, u);
    KeyShareExact(E, first.m, items, first.summary.value.blocked[0]);
    SavedAnywhere(E, first.m, m, items);
    SavedAsOverlay(E, first.m, items);
    SavedAsOverlay(E, m, items);
    forall i | 0 <= i < |u.patches| && i < n ensures Unchanged(E, FromStore, m, Overlay(E, items), u.patches[i]) {
      ConfirmedUnchanged(E, m, items, u.patches[i]);
    }
    BlockAndResume(E, initial, m, u, Overlay(E, items));
  }
}
