/**
 Whole server responses: every collection in turn
 (`apply_app_state_sync_response_to_store` and
 `apply_app_state_sync_response_with_store_keys`, crates/wa-core/src/app_state.rs).
 */
module SyncResponse {
  import opened Prelude
  import opened PatchState
  import opened StateBytes
  import opened Events
  import opened PatchProtocol
  import opened PatchTheorems
  import opened Store
  import opened SyncStore
  import opened Sync

  /** What the server sends for one collection; a snapshot is a reference to an external blob. */
  datatype CollectionUpdate = CollectionUpdate(
    collection: Collection,
    version: Option<nat>,
    hasMore: bool,
    snapshot: Option<Bytes>,
    patches: seq<Patch>)

  datatype Report = Report(
    collection: Collection,
    responseVersion: Option<nat>,
    finalVersion: nat,
    appliedPatches: nat,
    emittedBatches: int,
    hasMore: bool,
    snapshotPending: bool)

  datatype BlockedCollection = BlockedCollection(collection: Collection, record: Blocked)

  datatype PendingSnapshot = PendingSnapshot(collection: Collection, reference: Bytes)

  datatype Summary = Summary(
    batches: seq<Batch>,
    reports: seq<Report>,
    pending: seq<PendingSnapshot>,
    blocked: seq<BlockedCollection>)

  const NOTHING: Summary := Summary([], [], [], [])

  /** The store a response leaves, and its summary unless something failed. */
  datatype Applied = Applied(m: Contents, summary: Result<Summary, SyncError>)

  function ReportOf(sum: Summary, u: CollectionUpdate, pr: Progress, blocked: bool): Report {
    Report(u.collection, u.version, pr.state.version, pr.applied, |pr.batches| - |sum.batches|, u.hasMore,
           !blocked && u.snapshot.Some?)
  }

  /** The summary once the patches of a collection have all been applied. */
  function Complete(sum: Summary, u: CollectionUpdate, pr: Progress): Summary {
    Summary(pr.batches,
            sum.reports + [ReportOf(sum, u, pr, false)],
            if u.snapshot.Some? then sum.pending + [PendingSnapshot(u.collection, u.snapshot.value)] else sum.pending,
            sum.blocked)
  }

  /** The summary once a collection has to wait for a key. */
  function Wait(sum: Summary, u: CollectionUpdate, pr: Progress, record: Blocked): Summary {
    Summary(pr.batches,
            sum.reports + [ReportOf(sum, u, pr, true)],
            sum.pending,
            sum.blocked + [BlockedCollection(u.collection, record)])
  }

  function Conclude(sum: Summary, u: CollectionUpdate, r: Run): Applied {
    match r.end
    case Failed(e) => Applied(r.progress.m, Err(e))
    case Finished => Applied(ClearBlocked(r.progress.m, u.collection), Ok(Complete(sum, u, r.progress)))
    case BlockedOn(record) => Applied(r.progress.m, Ok(Wait(sum, u, r.progress, record)))
  }

  /** One collection of a response. */
  function ApplyUpdate(E: Env, src: KeySource, initial: bool, m: Contents, sum: Summary, u: CollectionUpdate): Applied {
    match LoadState(m, u.collection)
    case Err(e) => Applied(m, Err(e))
    case Ok(s) => Conclude(sum, u, Patches(E, src, u.collection, initial, Progress(m, s, 0, sum.batches), u.patches))
  }

  /** A whole response; the first failure ends it. */
  function ApplyUpdates(E: Env, src: KeySource, initial: bool, m: Contents, sum: Summary, us: seq<CollectionUpdate>): Applied
    decreases |us|
  {
    if us == [] then Applied(m, Ok(sum))
    else
      var a := ApplyUpdate(E, src, initial, m, sum, us[0]);
      if a.summary.Err? then a else ApplyUpdates(E, src, initial, a.m, a.summary.value, us[1..])
  }

  // ----- One collection ------------------------------------------------------

  /** Where a run over a collection's patches begins. */
  function Start(m: Contents, s: State, sum: Summary): Progress {
    Progress(m, s, 0, sum.batches)
  }

  lemma ClearKeepsStored(m: Contents, c: Collection, s: State)
    requires StoredAs(m, c, s)
    ensures StoredAs(ClearBlocked(m, c), c, s)
    ensures LoadBlocked(ClearBlocked(m, c), c) == Ok(None)
  {
    RecordsApart(m, c, []);
  }

  lemma ClearIsOwn(m: Contents, n: Contents, c: Collection)
    requires OnlyOwn(m, n, c)
    ensures OnlyOwn(m, ClearBlocked(n, c), c)
  {
  }

  /**
   At every exit from a collection, failures included: its stored state is the
   fold of the first few of its patches, each verified, over the state that was
   stored before; and nothing but its own two entries has changed.
   */
  ghost predicate ExitFacts(E: Env, src: KeySource, m: Contents, u: CollectionUpdate, s: State, n: nat, after: Contents) {
    && n <= |u.patches|
    && OnlyOwn(m, after, u.collection)
    && Fold(E, src, m, u.collection, s, u.patches[..n]).Ok?
    && StoredAs(after, u.collection, Fold(E, src, m, u.collection, s, u.patches[..n]).value)
  }

  lemma ConcludeExit(E: Env, src: KeySource, m: Contents, sum: Summary, u: CollectionUpdate, s: State, r: Run)
    requires RunFacts(E, src, u.collection, Start(m, s, sum), u.patches, r)
    ensures ExitFacts(E, src, m, u, s, r.progress.applied, Conclude(sum, u, r).m)
  {
    ClearKeepsStored(r.progress.m, u.collection, r.progress.state);
    ClearIsOwn(m, r.progress.m, u.collection);
  }

  /** The number of patches that a collection got through. */
  function AppliedCount(E: Env, src: KeySource, initial: bool, m: Contents, sum: Summary, u: CollectionUpdate): nat
    requires LoadState(m, u.collection).Ok?
  {
    Patches(E, src, u.collection, initial, Start(m, LoadState(m, u.collection).value, sum), u.patches).progress.applied
  }

  lemma ExitIsPrefix(E: Env, src: KeySource, initial: bool, m: Contents, sum: Summary, u: CollectionUpdate)
    requires LoadState(m, u.collection).Ok?
    ensures ExitFacts(E, src, m, u, LoadState(m, u.collection).value, AppliedCount(E, src, initial, m, sum, u),
                      ApplyUpdate(E, src, initial, m, sum, u).m)
  {
    var s := LoadState(m, u.collection).value;
    LoadedState(m, u.collection);
    RunExplained(E, src, u.collection, initial, Start(m, s, sum), u.patches);
    ConcludeExit(E, src, m, sum, u, s,
                 Patches(E, src, u.collection, initial, Start(m, s, sum), u.patches));
  }

  /**
   What a report says about a collection that did not fail: the final version is
   the version that was stored before plus the patches applied, and the version
   stored now; patches are left over exactly when the collection waits for a key,
   and then the stored record holds that version and the key id of the first
   patch left over.
   */
  ghost predicate Honest(E: Env, src: KeySource, m: Contents, s: State, sum: Summary, u: CollectionUpdate, after: Contents,
                         sum2: Summary, rep: Report)
  {
    && sum2.reports == sum.reports + [rep]
    && rep.collection == u.collection && rep.responseVersion == u.version && rep.hasMore == u.hasMore
    && rep.finalVersion == s.version + rep.appliedPatches
    && LoadState(after, u.collection).Ok? && LoadState(after, u.collection).value.version == rep.finalVersion
    && rep.appliedPatches <= |u.patches|
    && (rep.appliedPatches < |u.patches| <==> sum2.blocked != sum.blocked)
    && (rep.appliedPatches < |u.patches| ==> LeftOver(E, m, u, after, sum, sum2, rep))
    && (rep.appliedPatches == |u.patches| ==>
          && LoadBlocked(after, u.collection) == Ok(None)
          && (rep.snapshotPending <==> u.snapshot.Some?)
          && sum2.pending
          == (if u.snapshot.Some? then sum.pending + [PendingSnapshot(u.collection, u.snapshot.value)] else sum.pending))
    && rep.emittedBatches == |sum2.batches| - |sum.batches|
  }

  ghost predicate LeftOver(E: Env, m: Contents, u: CollectionUpdate, after: Contents, sum: Summary, sum2: Summary, rep: Report)
    requires rep.appliedPatches < |u.patches|
  {
    && PatchKeyId(u.patches[rep.appliedPatches]).Ok?
    && var record := Blocked(PatchKeyId(u.patches[rep.appliedPatches]).value, rep.finalVersion);
    && LoadBlocked(after, u.collection) == Ok(Some(record))
    && LoadKey(E, m, record.keyId) == Ok(None)
    && sum2.blocked == sum.blocked + [BlockedCollection(u.collection, record)]
    && sum2.pending == sum.pending && !rep.snapshotPending
  }

  lemma LastReport(rs: seq<Report>, r: Report)
    ensures |rs + [r]| > 0 && (rs + [r])[|rs + [r]| - 1] == r
  {
  }

  lemma ConcludeHonest(E: Env, src: KeySource, m: Contents, sum: Summary, u: CollectionUpdate, s: State, r: Run)
    requires RunFacts(E, src, u.collection, Start(m, s, sum), u.patches, r) && !r.end.Failed?
    ensures var a := Conclude(sum, u, r);
            Honest(E, src, m, s, sum, u, a.m, a.summary.value, ReportOf(sum, u, r.progress, r.end.BlockedOn?))
  {
    if r.end.BlockedOn? {
      assert (sum.blocked + [BlockedCollection(u.collection, r.end.record)]) != sum.blocked;
    } else {
      ClearKeepsStored(r.progress.m, u.collection, r.progress.state);
    }
  }

  lemma ReportsHonest(E: Env, src: KeySource, initial: bool, m: Contents, sum: Summary, u: CollectionUpdate)
    requires ApplyUpdate(E, src, initial, m, sum, u).summary.Ok?
    ensures LoadState(m, u.collection).Ok?
    ensures var a := ApplyUpdate(E, src, initial, m, sum, u);
            && |a.summary.value.reports| == |sum.reports| + 1
            && Honest(E, src, m, LoadState(m, u.collection).value, sum, u, a.m, a.summary.value,
                      a.summary.value.reports[|sum.reports|])
  {
    var s := LoadState(m, u.collection).value;
    LoadedState(m, u.collection);
    RunExplained(E, src, u.collection, initial, Start(m, s, sum), u.patches);
    var r := Patches(E, src, u.collection, initial, Start(m, s, sum), u.patches);
    ConcludeHonest(E, src, m, sum, u, s, r);
    LastReport(sum.reports, ReportOf(sum, u, r.progress, r.end.BlockedOn?));
  }

  // ----- Whole responses -----------------------------------------------------

  lemma {:induction false} FoldKeeps(E: Env, src: KeySource, m: Contents, c: Collection, s: State, ps: seq<Patch>)
    requires ValidMacs(s.macs) && Fold(E, src, m, c, s, ps).Ok?
    ensures var t := Fold(E, src, m, c, s, ps).value;
            && ValidMacs(t.macs)
            && t.version == s.version + |ps|
            && (Consistent(E.crypto, t) <==> Consistent(E.crypto, s))
    decreases |ps|
  {
    if ps != [] {
      var keyData := FindKey(E, src, m, ps[0]).value.value;
      AcceptedKeepsInvariants(E, c, s, ps[0], keyData);
      FoldKeeps(E, src, m, c, DecodePatch(E, c, s, ps[0], keyData).value.next, ps[1..]);
    }
  }

  /** A collection that could be loaded still can, is no older, and is consistent exactly if it was. */
  ghost predicate Safe(E: Env, m: Contents, n: Contents, c: Collection) {
    LoadState(m, c).Ok? ==>
      && LoadState(n, c).Ok?
      && LoadState(m, c).value.version <= LoadState(n, c).value.version
      && (Consistent(E.crypto, LoadState(n, c).value) <==> Consistent(E.crypto, LoadState(m, c).value))
  }

  lemma ExitSafe(E: Env, src: KeySource, m: Contents, u: CollectionUpdate, s: State, n: nat, after: Contents, c: Collection)
    requires LoadState(m, u.collection) == Ok(s) && ExitFacts(E, src, m, u, s, n, after)
    ensures Safe(E, m, after, c)
    ensures c != u.collection ==> LoadState(after, c) == LoadState(m, c)
  {
    if c == u.collection {
      LoadedState(m, c);
      FoldKeeps(E, src, m, c, s, u.patches[..n]);
    } else {
      OthersUntouched(E, m, after, u.collection);
    }
  }

  lemma UpdateSafe(E: Env, src: KeySource, initial: bool, m: Contents, sum: Summary, u: CollectionUpdate, c: Collection)
    ensures Safe(E, m, ApplyUpdate(E, src, initial, m, sum, u).m, c)
    ensures c != u.collection ==> LoadState(ApplyUpdate(E, src, initial, m, sum, u).m, c) == LoadState(m, c)
  {
    if LoadState(m, u.collection).Ok? {
      ExitIsPrefix(E, src, initial, m, sum, u);
      ExitSafe(E, src, m, u, LoadState(m, u.collection).value, AppliedCount(E, src, initial, m, sum, u),
               ApplyUpdate(E, src, initial, m, sum, u).m, c);
    }
  }

  lemma SafeTrans(E: Env, l: Contents, m: Contents, n: Contents, c: Collection)
    requires Safe(E, l, m, c) && Safe(E, m, n, c)
    ensures Safe(E, l, n, c)
  {
  }

  /**
   However a response ends, no collection goes back, none loses the agreement of
   its hash with its map, and those the response does not mention stay as they were.
   */
  lemma {:induction false} ResponseSafe(E: Env, src: KeySource, initial: bool, m: Contents, sum: Summary,
                                        us: seq<CollectionUpdate>, c: Collection)
    ensures Safe(E, m, ApplyUpdates(E, src, initial, m, sum, us).m, c)
    ensures (forall u :: u in us ==> u.collection != c) ==>
              LoadState(ApplyUpdates(E, src, initial, m, sum, us).m, c) == LoadState(m, c)
    decreases |us|
  {
    if us != [] {
      var a := ApplyUpdate(E, src, initial, m, sum, us[0]);
      UpdateSafe(E, src, initial, m, sum, us[0], c);
      if a.summary.Ok? {
        ResponseSafe(E, src, initial, a.m, a.summary.value, us[1..], c);
        SafeTrans(E, m, a.m, ApplyUpdates(E, src, initial, a.m, a.summary.value, us[1..]).m, c);
      }
    }
  }

  // ----- The same patches again ----------------------------------------------

  /** Why a patch is refused that does not follow the stored version. */
  function Refusal(t: State): SyncError {
    CoreFailed(if t.version >= U64_MAX then Overflow else WrongVersion)
  }

  /** A patch that followed `s` does not follow any later state. */
  lemma OutOfTurn(E: Env, c: Collection, s: State, t: State, p: Patch, k1: Bytes, k2: Bytes)
    requires DecodePatch(E, c, s, p, k1).Ok? && t.version > s.version
    ensures DecodePatch(E, c, t, p, k2).Err? && CoreFailed(DecodePatch(E, c, t, p, k2).error) == Refusal(t)
  {
    AcceptedParts(E, c, s, p, k1);
  }

  /** A run that starts past its first patch fails there. */
  lemma RunAgain(E: Env, src: KeySource, c: Collection, initial: bool, m: Contents, pr: Progress, s: State, ps: seq<Patch>)
    requires OnlyOwn(m, pr.m, c) && pr.state.version > s.version && ps != []
    requires FindKey(E, src, m, ps[0]).Ok? && FindKey(E, src, m, ps[0]).value.Some?
    requires DecodePatch(E, c, s, ps[0], FindKey(E, src, m, ps[0]).value.value).Ok?
    ensures Patches(E, src, c, initial, pr, ps) == Run(pr, Failed(Refusal(pr.state)))
  {
    SameKeysFound(E, src, m, pr.m, c, ps[0]);
    var keyData := FindKey(E, src, m, ps[0]).value.value;
    OutOfTurn(E, c, s, pr.state, ps[0], keyData, keyData);
    PatchesStep(E, src, c, initial, pr, ps);
  }

  /** The first patch of a non-empty fold is one that can be decoded on its own. */
  lemma FoldHead(E: Env, src: KeySource, m: Contents, c: Collection, s: State, ps: seq<Patch>)
    requires ps != [] && Fold(E, src, m, c, s, ps).Ok?
    ensures FindKey(E, src, m, ps[0]).Ok? && FindKey(E, src, m, ps[0]).value.Some?
    ensures DecodePatch(E, c, s, ps[0], FindKey(E, src, m, ps[0]).value.value).Ok?
  {
  }

  lemma FailedUpdate(E: Env, src: KeySource, initial: bool, m: Contents, sum: Summary, u: CollectionUpdate, s: State,
                     e: SyncError)
    requires LoadState(m, u.collection) == Ok(s)
    requires Patches(E, src, u.collection, initial, Start(m, s, sum), u.patches) == Run(Start(m, s, sum), Failed(e))
    ensures ApplyUpdate(E, src, initial, m, sum, u) == Applied(m, Err(e))
  {
  }

  /** The final version is past the one the patches began at. */
  lemma ReapplyFromExit(E: Env, src: KeySource, initial: bool, m: Contents, u: CollectionUpdate, s: State, n: nat,
                        after: Contents, t: State, again: Summary)
    requires LoadState(m, u.collection) == Ok(s) && n > 0 && ExitFacts(E, src, m, u, s, n, after)
    requires LoadState(after, u.collection) == Ok(t)
    ensures Patches(E, src, u.collection, initial, Start(after, t, again), u.patches)
         == Run(Start(after, t, again), Failed(Refusal(t)))
  {
    LoadedState(m, u.collection);
    FoldKeeps(E, src, m, u.collection, s, u.patches[..n]);
    FoldHead(E, src, m, u.collection, s, u.patches[..n]);
    RunAgain(E, src, u.collection, initial, m, Start(after, t, again), s, u.patches);
  }

  /**
   Applying a collection's patches again fails on the first of them and leaves
   the store exactly as it was, however many of them had been applied before and
   however that run ended, as long as it applied any.
   */
  lemma ReapplyFails(E: Env, src: KeySource, initial: bool, m: Contents, sum: Summary, u: CollectionUpdate,
                     later: bool, again: Summary)
    requires LoadState(m, u.collection).Ok? && AppliedCount(E, src, initial, m, sum, u) > 0
    ensures var after := ApplyUpdate(E, src, initial, m, sum, u).m;
            && LoadState(after, u.collection).Ok?
            && ApplyUpdate(E, src, later, after, again, u)
            == Applied(after, Err(Refusal(LoadState(after, u.collection).value)))
  {
    ExitIsPrefix(E, src, initial, m, sum, u);
    var after := ApplyUpdate(E, src, initial, m, sum, u).m;
    var t := LoadState(after, u.collection).value;
    ReapplyFromExit(E, src, later, m, u, LoadState(m, u.collection).value, AppliedCount(E, src, initial, m, sum, u),
                    after, t, again);
    FailedUpdate(E, src, later, after, again, u, t, Refusal(t));
  }
}
