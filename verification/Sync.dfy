/**
 Applying server patches to the stored collections
 (`apply_app_state_sync_response_to_store` and `_with_store_keys`,
 crates/wa-core/src/app_state.rs), and what every exit leaves behind.
 */
module Sync {
  import opened Prelude
  import opened AppCrypto
  import opened PatchState
  import opened StateBytes
  import opened Events
  import opened PatchProtocol
  import opened PatchTheorems
  import opened Store
  import opened SyncStore

  /** Where the key of a patch comes from: given by the caller, or looked up by the patch's key id. */
  datatype KeySource = Fixed(keyData: Bytes) | FromStore

  /** The key to decode `p` with; none if the store does not have it yet. */
  function FindKey(E: Env, src: KeySource, m: Contents, p: Patch): Result<Option<Bytes>, SyncError> {
    if src.Fixed? then Ok(Some(src.keyData))
    else
      var keyId :- OfCore(PatchKeyId(p));
      LoadKey(E, m, keyId)
  }

  // ----- One patch -----------------------------------------------------------

  datatype Saved = Saved(m: Contents, batch: Batch)

  /** `apply_decoded_app_state_patch_to_store`: events first, then the state, then the blocked record. */
  function ApplyDecoded(m: Contents, d: DecodedPatch, initial: bool): Result<Saved, SyncError> {
    var batch :- OfCore(DecodedBatch(d.mutations, initial));
    var saved :- SaveState(m, d.collection, d.next);
    Ok(Saved(ClearBlocked(saved, d.collection), batch))
  }

  /** `apply_decoded_app_state_snapshot_to_store` */
  function ApplySnapshot(m: Contents, d: DecodedSnapshot): Result<Saved, SyncError> {
    var batch :- OfCore(DecodedBatch(d.mutations, true));
    var saved :- SaveState(m, d.collection, d.state);
    Ok(Saved(ClearBlocked(saved, d.collection), batch))
  }

  /** How far a run over the patches of one collection has come. */
  datatype Progress = Progress(m: Contents, state: State, applied: nat, batches: seq<Batch>)

  datatype End = Finished | BlockedOn(record: Blocked) | Failed(error: SyncError)

  datatype Run = Run(progress: Progress, end: End)

  /** Empty batches are not reported. */
  function Push(batches: seq<Batch>, b: Batch): seq<Batch> {
    if b == NO_EVENTS then batches else batches + [b]
  }

  function Block(c: Collection, pr: Progress, p: Patch): Run {
    match PatchKeyId(p)
    case Err(e) => Run(pr, Failed(CoreFailed(e)))
    case Ok(keyId) =>
      var record := Blocked(keyId, pr.state.version);
      match SaveBlocked(pr.m, c, record)
      case Err(e) => Run(pr, Failed(e))
      case Ok(m) => Run(pr.(m := m), BlockedOn(record))
  }

  function Adopt(initial: bool, pr: Progress, d: DecodedPatch): Run {
    match ApplyDecoded(pr.m, d, initial)
    case Err(e) => Run(pr, Failed(e))
    case Ok(saved) => Run(Progress(saved.m, d.next, pr.applied + 1, Push(pr.batches, saved.batch)), Finished)
  }

  function Decode(E: Env, c: Collection, initial: bool, pr: Progress, p: Patch, keyData: Bytes): Run {
    match DecodePatch(E, c, pr.state, p, keyData)
    case Err(e) => Run(pr, Failed(CoreFailed(e)))
    case Ok(d) => Adopt(initial, pr, d)
  }

  function Step(E: Env, src: KeySource, c: Collection, initial: bool, pr: Progress, p: Patch): Run {
    match FindKey(E, src, pr.m, p)
    case Err(e) => Run(pr, Failed(e))
    case Ok(None) => Block(c, pr, p)
    case Ok(Some(keyData)) => Decode(E, c, initial, pr, p, keyData)
  }

  /** The patch loop of one collection, for any way to take one patch. */
  function RunSteps(step: (Progress, Patch) -> Run, pr: Progress, ps: seq<Patch>): Run
    decreases |ps|
  {
    if ps == [] then Run(pr, Finished)
    else
      var r := step(pr, ps[0]);
      if r.end.Finished? then RunSteps(step, r.progress, ps[1..]) else r
  }

  function Stepper(E: Env, src: KeySource, c: Collection, initial: bool): (Progress, Patch) -> Run {
    (pr, p) => Step(E, src, c, initial, pr, p)
  }

  function Patches(E: Env, src: KeySource, c: Collection, initial: bool, pr: Progress, ps: seq<Patch>): Run {
    RunSteps(Stepper(E, src, c, initial), pr, ps)
  }

  // ----- A reference: folding verified patches --------------------------------

  /** The states that verified patches lead through, with no store to write to. */
  function Fold(E: Env, src: KeySource, m: Contents, c: Collection, s: State, ps: seq<Patch>): Result<State, SyncError>
    decreases |ps|
  {
    if ps == [] then Ok(s)
    else
      var key :- FindKey(E, src, m, ps[0]);
      if key.None? then Err(KeyDataMissing)
      else
        var d :- OfCore(DecodePatch(E, c, s, ps[0], key.value));
        Fold(E, src, m, c, d.next, ps[1..])
  }

  /** A run's progress stands on what is stored. */
  ghost predicate Anchored(c: Collection, pr: Progress) {
    StoredAs(pr.m, c, pr.state)
  }

  /** `p` follows `s`, verified under the key that the store has for it, and leads to `t`. */
  ghost predicate Verified(E: Env, src: KeySource, m: Contents, c: Collection, s: State, p: Patch, t: State) {
    && FindKey(E, src, m, p).Ok? && FindKey(E, src, m, p).value.Some?
    && DecodePatch(E, c, s, p, FindKey(E, src, m, p).value.value).Ok?
    && DecodePatch(E, c, s, p, FindKey(E, src, m, p).value.value).value.next == t
  }

  /** One verified patch has been applied and stored, and the collection waits for nothing. */
  ghost predicate Moved(E: Env, src: KeySource, c: Collection, pr: Progress, p: Patch, next: Progress) {
    && OnlyOwn(pr.m, next.m, c)
    && Anchored(c, next)
    && next.applied == pr.applied + 1
    && next.state.version == pr.state.version + 1
    && Verified(E, src, pr.m, c, pr.state, p, next.state)
    && LoadBlocked(next.m, c) == Ok(None)
  }

  /** A blocked record has been stored, and nothing else. */
  ghost predicate Parked(E: Env, src: KeySource, c: Collection, pr: Progress, p: Patch, after: Progress, record: Blocked) {
    && after == pr.(m := after.m)
    && OnlyOwn(pr.m, after.m, c)
    && Anchored(c, after)
    && src.FromStore? && PatchKeyId(p) == Ok(record.keyId)
    && LoadKey(E, pr.m, record.keyId) == Ok(None)
    && record.previousVersion == pr.state.version
    && LoadBlocked(after.m, c) == Ok(Some(record))
  }

  /** What one step does. */
  ghost predicate StepFacts(E: Env, src: KeySource, c: Collection, pr: Progress, p: Patch, r: Run) {
    match r.end
    case Finished => Moved(E, src, c, pr, p, r.progress)
    case BlockedOn(record) => Parked(E, src, c, pr, p, r.progress, record)
    case Failed(_) => r.progress == pr
  }

  lemma BlockFacts(E: Env, src: KeySource, c: Collection, pr: Progress, p: Patch)
    requires Anchored(c, pr) && FindKey(E, src, pr.m, p) == Ok(None)
    ensures StepFacts(E, src, c, pr, p, Block(c, pr, p))
  {
    var r := Block(c, pr, p);
    if r.end.BlockedOn? {
      SaveRecord(pr.m, c, r.end.record, pr.state);
    }
  }

  /** The state saved with an applied patch. */
  lemma AppliedStored(m: Contents, d: DecodedPatch, initial: bool)
    requires ApplyDecoded(m, d, initial).Ok? && ValidMacs(d.next.macs) && d.next.version <= U64_MAX
    ensures StoredAs(ApplyDecoded(m, d, initial).value.m, d.collection, d.next)
    ensures OnlyOwn(m, ApplyDecoded(m, d, initial).value.m, d.collection)
    ensures LoadBlocked(ApplyDecoded(m, d, initial).value.m, d.collection) == Ok(None)
  {
    SaveAndClear(m, d.collection, d.next);
  }

  lemma DecodeFacts(E: Env, src: KeySource, c: Collection, initial: bool, pr: Progress, p: Patch, keyData: Bytes)
    requires Anchored(c, pr) && FindKey(E, src, pr.m, p) == Ok(Some(keyData))
    ensures StepFacts(E, src, c, pr, p, Decode(E, c, initial, pr, p, keyData))
  {
    var d := DecodePatch(E, c, pr.state, p, keyData);
    if d.Ok? && ApplyDecoded(pr.m, d.value, initial).Ok? {
      AcceptedKeepsInvariants(E, c, pr.state, p, keyData);
      AcceptedCollection(E, c, pr.state, p, keyData);
      AppliedStored(pr.m, d.value, initial);
    }
  }

  lemma AcceptedCollection(E: Env, c: Collection, s: State, p: Patch, keyData: Bytes)
    requires DecodePatch(E, c, s, p, keyData).Ok?
    ensures DecodePatch(E, c, s, p, keyData).value.collection == c
  {
  }

  lemma StepExplained(E: Env, src: KeySource, c: Collection, initial: bool, pr: Progress, p: Patch)
    requires Anchored(c, pr)
    ensures StepFacts(E, src, c, pr, p, Step(E, src, c, initial, pr, p))
  {
    match FindKey(E, src, pr.m, p) {
      case Err(_) =>
      case Ok(None) => BlockFacts(E, src, c, pr, p);
      case Ok(Some(keyData)) => DecodeFacts(E, src, c, initial, pr, p, keyData);
    }
  }

  // ----- Every exit ----------------------------------------------------------

  /**
   What a run over `ps` has done when it stops, for whatever reason: the stored
   state is the fold of the patches applied, which are the first ones; nothing
   but this collection's own entries has changed; and it stopped early exactly
   when a key was missing, which the blocked record says, or something failed.
   */
  ghost predicate RunFacts(E: Env, src: KeySource, c: Collection, pr: Progress, ps: seq<Patch>, r: Run) {
    && OnlyOwn(pr.m, r.progress.m, c)
    && Anchored(c, r.progress)
    && pr.applied <= r.progress.applied <= pr.applied + |ps|
    && var n := r.progress.applied - pr.applied;
    && Fold(E, src, pr.m, c, pr.state, ps[..n]) == Ok(r.progress.state)
    && r.progress.state.version == pr.state.version + n
    && (r.end.Finished? <==> n == |ps|)
    && (n == 0 && !r.end.BlockedOn? ==> r.progress == pr)
    && (n > 0 && !r.end.BlockedOn? ==> LoadBlocked(r.progress.m, c) == Ok(None))
    && (r.end.BlockedOn? ==> Waiting(E, src, c, pr.m, r.progress, ps[n], r.end.record))
  }

  /** The blocked record holds the version reached and the missing key of the next patch. */
  ghost predicate Waiting(E: Env, src: KeySource, c: Collection, start: Contents, pr: Progress, next: Patch, record: Blocked) {
    && src.FromStore?
    && PatchKeyId(next) == Ok(record.keyId)
    && LoadKey(E, start, record.keyId) == Ok(None)
    && record.previousVersion == pr.state.version
    && LoadBlocked(pr.m, c) == Ok(Some(record))
  }

  lemma SameKeysFound(E: Env, src: KeySource, m: Contents, n: Contents, c: Collection, p: Patch)
    requires OnlyOwn(m, n, c)
    ensures FindKey(E, src, m, p) == FindKey(E, src, n, p)
  {
    OthersUntouched(E, m, n, c);
  }

  lemma {:induction false} SameFold(E: Env, src: KeySource, m: Contents, n: Contents, c: Collection, s: State, ps: seq<Patch>)
    requires OnlyOwn(m, n, c)
    ensures Fold(E, src, m, c, s, ps) == Fold(E, src, n, c, s, ps)
    decreases |ps|
  {
    if ps != [] {
      SameKeysFound(E, src, m, n, c, ps[0]);
      var key := FindKey(E, src, m, ps[0]);
      if key.Ok? && key.value.Some? && DecodePatch(E, c, s, ps[0], key.value.value).Ok? {
        SameFold(E, src, m, n, c, DecodePatch(E, c, s, ps[0], key.value.value).value.next, ps[1..]);
      }
    }
  }

  lemma FoldCons(E: Env, src: KeySource, m: Contents, c: Collection, s: State, p: Patch, t: State, rest: seq<Patch>)
    requires Verified(E, src, m, c, s, p, t)
    ensures Fold(E, src, m, c, s, [p] + rest) == Fold(E, src, m, c, t, rest)
  {
    assert ([p] + rest)[0] == p && ([p] + rest)[1..] == rest;
  }

  /** A verified patch in front of a fold over another stage of the same store. */
  lemma FoldFirst(E: Env, src: KeySource, c: Collection, pr: Progress, ps: seq<Patch>, mid: Progress, n: nat)
    requires 0 < n <= |ps| && Moved(E, src, c, pr, ps[0], mid)
    ensures Fold(E, src, pr.m, c, pr.state, ps[..n]) == Fold(E, src, mid.m, c, mid.state, ps[1..][..n - 1])
  {
    PrefixCons(ps, n);
    FoldCons(E, src, pr.m, c, pr.state, ps[0], mid.state, ps[1..][..n - 1]);
    SameFold(E, src, pr.m, mid.m, c, mid.state, ps[1..][..n - 1]);
  }

  lemma RunFactsCons(E: Env, src: KeySource, c: Collection, pr: Progress, ps: seq<Patch>, mid: Progress, r: Run)
    requires ps != [] && Moved(E, src, c, pr, ps[0], mid) && RunFacts(E, src, c, mid, ps[1..], r)
    ensures RunFacts(E, src, c, pr, ps, r)
  {
    FoldFirst(E, src, c, pr, ps, mid, r.progress.applied - pr.applied);
    OnlyOwnTrans(pr.m, mid.m, r.progress.m, c);
    if r.end.BlockedOn? {
      OthersUntouched(E, pr.m, mid.m, c);
    }
  }

  lemma RunFactsStop(E: Env, src: KeySource, c: Collection, pr: Progress, ps: seq<Patch>, r: Run)
    requires Anchored(c, pr) && ps != [] && !r.end.Finished? && StepFacts(E, src, c, pr, ps[0], r)
    ensures RunFacts(E, src, c, pr, ps, r)
  {
    assert ps[..0] == [];
  }

  lemma PatchesStep(E: Env, src: KeySource, c: Collection, initial: bool, pr: Progress, ps: seq<Patch>)
    requires ps != []
    ensures var r := Step(E, src, c, initial, pr, ps[0]);
            Patches(E, src, c, initial, pr, ps)
            == (if r.end.Finished? then Patches(E, src, c, initial, r.progress, ps[1..]) else r)
  {
  }

  /** Every run, from every stored state, over every list of patches. */
  lemma {:induction false} RunExplained(E: Env, src: KeySource, c: Collection, initial: bool, pr: Progress, ps: seq<Patch>)
    requires Anchored(c, pr)
    ensures RunFacts(E, src, c, pr, ps, Patches(E, src, c, initial, pr, ps))
    decreases |ps|
  {
    if ps == [] {
      RunFactsNothing(E, src, c, pr);
    } else {
      var r := Step(E, src, c, initial, pr, ps[0]);
      PatchesStep(E, src, c, initial, pr, ps);
      StepExplained(E, src, c, initial, pr, ps[0]);
      if r.end.Finished? {
        RunExplained(E, src, c, initial, r.progress, ps[1..]);
        RunFactsCons(E, src, c, pr, ps, r.progress, Patches(E, src, c, initial, r.progress, ps[1..]));
      } else {
        RunFactsStop(E, src, c, pr, ps, r);
      }
    }
  }

  lemma RunFactsNothing(E: Env, src: KeySource, c: Collection, pr: Progress)
    requires Anchored(c, pr)
    ensures RunFacts(E, src, c, pr, [], Run(pr, Finished))
  {
  }

  // ----- Snapshots -------------------------------------------------------------

  lemma SnapshotStored(m: Contents, d: DecodedSnapshot)
    requires ApplySnapshot(m, d).Ok? && ValidMacs(d.state.macs) && d.state.version <= U64_MAX
    ensures StoredAs(ApplySnapshot(m, d).value.m, d.collection, d.state)
    ensures OnlyOwn(m, ApplySnapshot(m, d).value.m, d.collection)
    ensures LoadBlocked(ApplySnapshot(m, d).value.m, d.collection) == Ok(None)
  {
    SaveAndClear(m, d.collection, d.state);
  }

  /** The stored version has become a lower one. */
  predicate GoesBack(m: Contents, n: Contents, c: Collection) {
    LoadState(m, c).Ok? && LoadState(n, c).Ok? && LoadState(n, c).value.version < LoadState(m, c).value.version
  }

  /**
   Whatever was stored before, even a later version, an accepted snapshot leaves
   its own state, whose hash agrees with its map, and nothing to wait for. The
   stored version goes back if and only if the snapshot's is below it.
   */
  lemma SnapshotReplacesStored(E: Env, m: Contents, c: Collection, s: Snapshot, keyData: Bytes)
    requires DecodeSnapshot(E, c, s, keyData).Ok? && (s.version.Some? ==> s.version.value <= U64_MAX)
    requires ApplySnapshot(m, DecodeSnapshot(E, c, s, keyData).value).Ok?
    ensures var d := DecodeSnapshot(E, c, s, keyData).value;
            var n := ApplySnapshot(m, d).value.m;
            && StoredAs(n, c, d.state) && s.version == Some(d.state.version)
            && Consistent(E.crypto, d.state)
            && OnlyOwn(m, n, c) && LoadBlocked(n, c) == Ok(None)
            && (LoadState(m, c).Ok? ==> (GoesBack(m, n, c) <==> s.version.value < LoadState(m, c).value.version))
  {
    var d := DecodeSnapshot(E, c, s, keyData).value;
    SnapshotConsistent(E, c, s, keyData);
    SnapshotCollection(E, c, s, keyData);
    SnapshotStored(m, d);
  }

  lemma SnapshotCollection(E: Env, c: Collection, s: Snapshot, keyData: Bytes)
    requires DecodeSnapshot(E, c, s, keyData).Ok?
    ensures DecodeSnapshot(E, c, s, keyData).value.collection == c
  {
  }

  /** A snapshot without records, under any key: it is accepted, whatever is stored. */
  lemma EmptySnapshotAccepted(E: Env, c: Collection, version: nat, keyId: Bytes, keyData: Bytes) returns (s: Snapshot)
    requires keyId != [] && |keyData| == KEY_LEN
    ensures DecodeSnapshot(E, c, s, keyData) == Ok(DecodedSnapshot(c, EMPTY.(version := version), []))
    ensures s.version == Some(version)
  {
    var keys := DeriveKeys(E.crypto, keyData).value;
    var state := EMPTY.(version := version);
    NamesDiffer(c, c);
    s := Snapshot(Some(version), [], Some(SnapshotMac(E.crypto, state.hash, version, CollectionName(c), keys).value), Some(keyId));
    assert ApplyAt(E.crypto, EMPTY, version, AsHashMutations([])) == Ok(state);
    SnapshotExactly(E, c, s, keyData, DecodedSnapshot(c, state, []));
  }

  /** And so a stored version can go back to any lower one. */
  lemma SnapshotCanGoBack(E: Env, m: Contents, c: Collection, version: nat, keyId: Bytes, keyData: Bytes) returns (s: Snapshot)
    requires keyId != [] && |keyData| == KEY_LEN
    requires LoadState(m, c).Ok? && version < LoadState(m, c).value.version
    ensures DecodeSnapshot(E, c, s, keyData).Ok?
    ensures ApplySnapshot(m, DecodeSnapshot(E, c, s, keyData).value).Ok?
    ensures GoesBack(m, ApplySnapshot(m, DecodeSnapshot(E, c, s, keyData).value).value.m, c)
  {
    LoadedState(m, c);
    s := EmptySnapshotAccepted(E, c, version, keyId, keyData);
    EmptyStorable(version);
    SnapshotReplacesStored(E, m, c, s, keyData);
  }

  lemma EmptyStorable(version: nat)
    ensures EncodeState(EMPTY.(version := version)).Ok? && DecodedBatch([], true) == Ok(NO_EVENTS)
  {
  }
}
