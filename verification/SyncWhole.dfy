/**
 Whole responses, entry by entry: what every exit leaves stored, and what the
 summary's reports say (`apply_app_state_sync_response_to_store` and
 `_with_store_keys`, crates/wa-core/src/app_state.rs).
 */
module SyncWhole {
  import opened Prelude
  import opened PatchState
  import opened StateBytes
  import opened PatchProtocol
  import opened Store
  import opened SyncStore
  import opened Sync
  import opened SyncResume
  import opened SyncResponse

  /** How many patches one entry gets through. */
  function Taking(E: Env, src: KeySource, initial: bool, m: Contents, sum: Summary, u: CollectionUpdate): nat {
    if LoadState(m, u.collection).Ok? then AppliedCount(E, src, initial, m, sum, u) else 0
  }

  function NoneOf(n: nat): (r: seq<nat>)
    ensures |r| == n && forall i :: 0 <= i < n ==> r[i] == 0
  {
    seq(n, _ => 0)
  }

  /** How many patches every entry gets through; none once an entry has failed. */
  function TakenCounts(E: Env, src: KeySource, initial: bool, m: Contents, sum: Summary, us: seq<CollectionUpdate>): (ns: seq<nat>)
    ensures |ns| == |us|
    decreases |us|
  {
    if us == [] then []
    else
      var a := ApplyUpdate(E, src, initial, m, sum, us[0]);
      [Taking(E, src, initial, m, sum, us[0])]
      + if a.summary.Err? then NoneOf(|us| - 1) else TakenCounts(E, src, initial, a.m, a.summary.value, us[1..])
  }

  predicate Fits(us: seq<CollectionUpdate>, ns: seq<nat>) {
    |ns| == |us| && forall i :: 0 <= i < |us| ==> ns[i] <= |us[i].patches|
  }

  /** The first patches of the entries for `c`, one entry after the other. */
  function Firsts(us: seq<CollectionUpdate>, ns: seq<nat>, c: Collection): seq<Patch>
    requires Fits(us, ns)
    decreases |us|
  {
    if us == [] then []
    else (if us[0].collection == c then us[0].patches[..ns[0]] else []) + Firsts(us[1..], ns[1..], c)
  }

  lemma {:induction false} FirstsOfNone(us: seq<CollectionUpdate>, c: Collection)
    ensures Firsts(us, NoneOf(|us|), c) == []
    decreases |us|
  {
    if us != [] {
      assert NoneOf(|us|)[1..] == NoneOf(|us[1..]|);
      FirstsOfNone(us[1..], c);
    }
  }

  // ----- One entry after another ----------------------------------------------

  lemma OwnKeepsKeys(m: Contents, n: Contents, c: Collection)
    requires OnlyOwn(m, n, c)
    ensures SameSyncKeys(m, n)
  {
    forall k: StoreKey | k.ns.AppStateSyncKey? ensures (k in m <==> k in n) && (k in m ==> m[k] == n[k]) {
      assert !Own(c, k);
    }
  }

  lemma {:induction false} FoldWithKeys(E: Env, src: KeySource, m: Contents, n: Contents, c: Collection, s: State, ps: seq<Patch>)
    requires SameSyncKeys(m, n)
    ensures Fold(E, src, m, c, s, ps) == Fold(E, src, n, c, s, ps)
    decreases |ps|
  {
    if ps != [] {
      SameKeyFound(E, src, m, n, ps[0]);
      var key := FindKey(E, src, m, ps[0]);
      if key.Ok? && key.value.Some? && DecodePatch(E, c, s, ps[0], key.value.value).Ok? {
        FoldWithKeys(E, src, m, n, c, DecodePatch(E, c, s, ps[0], key.value.value).value.next, ps[1..]);
      }
    }
  }

  lemma {:induction false} FoldAppend(E: Env, src: KeySource, m: Contents, c: Collection, s: State, a: seq<Patch>, b: seq<Patch>)
    requires Fold(E, src, m, c, s, a).Ok?
    ensures Fold(E, src, m, c, s, a + b) == Fold(E, src, m, c, Fold(E, src, m, c, s, a).value, b)
    decreases |a|
  {
    if a == [] {
      Neutral(b);
    } else {
      HeadTail(a, b);
      var key := FindKey(E, src, m, a[0]).value.value;
      FoldAppend(E, src, m, c, DecodePatch(E, c, s, a[0], key).value.next, a[1..], b);
    }
  }

  /** The state of `c` is the fold of `ps` over what was stored at first. */
  ghost predicate FoldStored(E: Env, src: KeySource, m: Contents, c: Collection, ps: seq<Patch>, after: Contents) {
    && LoadState(m, c).Ok?
    && Fold(E, src, m, c, LoadState(m, c).value, ps).Ok?
    && StoredAs(after, c, Fold(E, src, m, c, LoadState(m, c).value, ps).value)
  }

  lemma FoldStoredThen(E: Env, src: KeySource, l: Contents, m: Contents, n: Contents, c: Collection, a: seq<Patch>, b: seq<Patch>)
    requires SameSyncKeys(l, m) && FoldStored(E, src, l, c, a, m) && FoldStored(E, src, m, c, b, n)
    ensures FoldStored(E, src, l, c, a + b, n)
  {
    var s := LoadState(l, c).value;
    FoldAppend(E, src, l, c, s, a, b);
    FoldWithKeys(E, src, l, m, c, Fold(E, src, l, c, s, a).value, b);
  }

  lemma FoldStoredNothing(E: Env, src: KeySource, m: Contents, n: Contents, c: Collection)
    requires LoadState(m, c).Ok? && LoadState(n, c) == LoadState(m, c)
    ensures FoldStored(E, src, m, c, [], n)
  {
    LoadedState(n, c);
  }

  lemma EntryKeepsKeys(E: Env, src: KeySource, initial: bool, m: Contents, sum: Summary, u: CollectionUpdate)
    ensures Taking(E, src, initial, m, sum, u) <= |u.patches|
    ensures SameSyncKeys(m, ApplyUpdate(E, src, initial, m, sum, u).m)
  {
    if LoadState(m, u.collection).Ok? {
      ExitIsPrefix(E, src, initial, m, sum, u);
      OwnKeepsKeys(m, ApplyUpdate(E, src, initial, m, sum, u).m, u.collection);
    }
  }

  /** What one entry does to the state of any collection. */
  lemma EntryFolds(E: Env, src: KeySource, initial: bool, m: Contents, sum: Summary, u: CollectionUpdate, c: Collection)
    requires LoadState(m, c).Ok? && Taking(E, src, initial, m, sum, u) <= |u.patches|
    ensures var ps := if u.collection == c then u.patches[..Taking(E, src, initial, m, sum, u)] else [];
            FoldStored(E, src, m, c, ps, ApplyUpdate(E, src, initial, m, sum, u).m)
  {
    if u.collection == c {
      ExitIsPrefix(E, src, initial, m, sum, u);
    } else {
      UpdateSafe(E, src, initial, m, sum, u, c);
      FoldStoredNothing(E, src, m, ApplyUpdate(E, src, initial, m, sum, u).m, c);
    }
  }

  lemma {:induction false} CountsFit(E: Env, src: KeySource, initial: bool, m: Contents, sum: Summary, us: seq<CollectionUpdate>)
    ensures Fits(us, TakenCounts(E, src, initial, m, sum, us))
    decreases |us|
  {
    if us != [] {
      var a := ApplyUpdate(E, src, initial, m, sum, us[0]);
      EntryKeepsKeys(E, src, initial, m, sum, us[0]);
      if a.summary.Ok? {
        CountsFit(E, src, initial, a.m, a.summary.value, us[1..]);
        FitsCons(us, Taking(E, src, initial, m, sum, us[0]), TakenCounts(E, src, initial, a.m, a.summary.value, us[1..]));
      }
    }
  }

  lemma FitsCons(us: seq<CollectionUpdate>, n: nat, ns: seq<nat>)
    requires us != [] && n <= |us[0].patches| && Fits(us[1..], ns)
    ensures Fits(us, [n] + ns)
  {
    forall i | 0 <= i < |us| ensures ([n] + ns)[i] <= |us[i].patches| {
      if i > 0 {
        assert us[i] == us[1..][i - 1] && ([n] + ns)[i] == ns[i - 1];
      }
    }
  }

  /** One more entry in front of what the others have been shown to do. */
  lemma FoldStoredCons(E: Env, src: KeySource, m: Contents, mid: Contents, after: Contents, us: seq<CollectionUpdate>, n: nat,
                       ns: seq<nat>, c: Collection)
    requires us != [] && Fits(us, [n] + ns) && Fits(us[1..], ns) && SameSyncKeys(m, mid)
    requires FoldStored(E, src, m, c, if us[0].collection == c then us[0].patches[..n] else [], mid)
    requires FoldStored(E, src, mid, c, Firsts(us[1..], ns, c), after)
    ensures FoldStored(E, src, m, c, Firsts(us, [n] + ns, c), after)
  {
    assert ([n] + ns)[1..] == ns;
    FoldStoredThen(E, src, m, mid, after, c, if us[0].collection == c then us[0].patches[..n] else [], Firsts(us[1..], ns, c));
  }

  /**
   At every exit of a whole response, failures included, whatever entries it has
   and however often it mentions a collection: the stored state of every collection
   is the fold of the first patches of its entries, in order, each verified, over
   the state that was stored before the response.
   */
  lemma {:induction false} ResponseFolds(E: Env, src: KeySource, initial: bool, m: Contents, sum: Summary,
                                         us: seq<CollectionUpdate>, c: Collection)
    requires LoadState(m, c).Ok?
    ensures Fits(us, TakenCounts(E, src, initial, m, sum, us))
    ensures FoldStored(E, src, m, c, Firsts(us, TakenCounts(E, src, initial, m, sum, us), c),
                       ApplyUpdates(E, src, initial, m, sum, us).m)
    decreases |us|
  {
    CountsFit(E, src, initial, m, sum, us);
    if us == [] {
      FoldStoredNothing(E, src, m, m, c);
    } else {
      var a := ApplyUpdate(E, src, initial, m, sum, us[0]);
      EntryKeepsKeys(E, src, initial, m, sum, us[0]);
      EntryFolds(E, src, initial, m, sum, us[0], c);
      if a.summary.Err? {
        FailedFolds(E, src, m, a.m, us, Taking(E, src, initial, m, sum, us[0]), c);
      } else {
        var ns := TakenCounts(E, src, initial, a.m, a.summary.value, us[1..]);
        ResponseFolds(E, src, initial, a.m, a.summary.value, us[1..], c);
        FoldStoredCons(E, src, m, a.m, ApplyUpdates(E, src, initial, a.m, a.summary.value, us[1..]).m, us,
                       Taking(E, src, initial, m, sum, us[0]), ns, c);
      }
    }
  }

  /** After an entry that failed no other is looked at. */
  lemma FailedFolds(E: Env, src: KeySource, m: Contents, mid: Contents, us: seq<CollectionUpdate>, n: nat, c: Collection)
    requires us != [] && Fits(us, [n] + NoneOf(|us| - 1)) && SameSyncKeys(m, mid)
    requires FoldStored(E, src, m, c, if us[0].collection == c then us[0].patches[..n] else [], mid)
    ensures FoldStored(E, src, m, c, Firsts(us, [n] + NoneOf(|us| - 1), c), mid)
  {
    FirstsOfNone(us[1..], c);
    FoldStoredNothing(E, src, mid, mid, c);
    FoldStoredCons(E, src, m, mid, mid, us, n, NoneOf(|us[1..]|), c);
  }

  // ----- Entries whose collection no other entry mentions -----------------------

  predicate Alone(us: seq<CollectionUpdate>, k: nat)
    requires k < |us|
  {
    forall j :: 0 <= j < |us| && j != k ==> us[j].collection != us[k].collection
  }

  lemma AloneRest(us: seq<CollectionUpdate>, k: nat)
    requires k < |us| && Alone(us, k)
    ensures k == 0 ==> forall u :: u in us[1..] ==> u.collection != us[0].collection
    ensures k > 0 ==> us[0].collection != us[k].collection && us[1..][k - 1] == us[k] && Alone(us[1..], k - 1)
  {
    if k == 0 {
      forall u | u in us[1..] ensures u.collection != us[0].collection {
        var j :| 0 <= j < |us[1..]| && us[1..][j] == u;
        assert us[j + 1] == u;
      }
    } else {
      forall j | 0 <= j < |us[1..]| && j != k - 1 ensures us[1..][j].collection != us[k].collection {
        assert us[1..][j] == us[j + 1];
      }
    }
  }

  lemma {:induction false} FirstsOfOthers(us: seq<CollectionUpdate>, ns: seq<nat>, c: Collection)
    requires Fits(us, ns) && forall u :: u in us ==> u.collection != c
    ensures Firsts(us, ns, c) == []
    decreases |us|
  {
    if us != [] {
      assert us[0] in us;
      FirstsOfOthers(us[1..], ns[1..], c);
    }
  }

  lemma {:induction false} FirstsOfOne(us: seq<CollectionUpdate>, ns: seq<nat>, k: nat)
    requires Fits(us, ns) && k < |us| && Alone(us, k)
    ensures Firsts(us, ns, us[k].collection) == us[k].patches[..ns[k]]
    decreases |us|
  {
    AloneRest(us, k);
    if k == 0 {
      FirstsOfOthers(us[1..], ns[1..], us[0].collection);
      Neutral(us[0].patches[..ns[0]]);
    } else {
      assert ns[1..][k - 1] == ns[k];
      FirstsOfOne(us[1..], ns[1..], k - 1);
      Neutral(Firsts(us[1..], ns[1..], us[k].collection));
    }
  }

  /** Such an entry leaves the fold of a prefix of its own patches, whatever the exit. */
  lemma ResponseIsPrefix(E: Env, src: KeySource, initial: bool, m: Contents, sum: Summary, us: seq<CollectionUpdate>, k: nat)
    requires k < |us| && Alone(us, k) && LoadState(m, us[k].collection).Ok?
    ensures var ns := TakenCounts(E, src, initial, m, sum, us);
            && ns[k] <= |us[k].patches|
            && FoldStored(E, src, m, us[k].collection, us[k].patches[..ns[k]], ApplyUpdates(E, src, initial, m, sum, us).m)
  {
    ResponseFolds(E, src, initial, m, sum, us, us[k].collection);
    FirstsOfOne(us, TakenCounts(E, src, initial, m, sum, us), k);
  }

  // ----- What the summary reports ----------------------------------------------

  /** What a report says, read against the stores before and after the whole response. */
  ghost predicate Holds(E: Env, m: Contents, u: CollectionUpdate, after: Contents, rep: Report) {
    && rep.collection == u.collection && rep.responseVersion == u.version && rep.hasMore == u.hasMore
    && LoadState(m, u.collection).Ok? && LoadState(after, u.collection).Ok?
    && rep.finalVersion == LoadState(m, u.collection).value.version + rep.appliedPatches
    && rep.finalVersion == LoadState(after, u.collection).value.version
    && rep.appliedPatches <= |u.patches|
    && (rep.appliedPatches == |u.patches| ==>
          LoadBlocked(after, u.collection) == Ok(None) && (rep.snapshotPending <==> u.snapshot.Some?))
    && (rep.appliedPatches < |u.patches| ==>
          && !rep.snapshotPending
          && PatchKeyId(u.patches[rep.appliedPatches]).Ok?
          && var keyId := PatchKeyId(u.patches[rep.appliedPatches]).value;
          && LoadBlocked(after, u.collection) == Ok(Some(Blocked(keyId, rep.finalVersion)))
          && LoadKey(E, m, keyId) == Ok(None))
  }

  /** The reports that hold. */
  ghost function TrueReports(E: Env, m: Contents, u: CollectionUpdate, after: Contents): iset<Report> {
    iset rep | Holds(E, m, u, after, rep)
  }

  lemma HonestHolds(E: Env, src: KeySource, m: Contents, sum: Summary, u: CollectionUpdate, after: Contents, sum2: Summary,
                    rep: Report)
    requires LoadState(m, u.collection).Ok?
    requires Honest(E, src, m, LoadState(m, u.collection).value, sum, u, after, sum2, rep)
    ensures rep in TrueReports(E, m, u, after)
  {
  }

  lemma SameKeyLoaded(E: Env, m: Contents, n: Contents, keyId: Bytes)
    requires SameSyncKeys(m, n)
    ensures LoadKey(E, m, keyId) == LoadKey(E, n, keyId)
  {
  }

  /** Stores that agree on a collection and on the keys. */
  lemma HoldsElsewhere(E: Env, l: Contents, m: Contents, n: Contents, after: Contents, u: CollectionUpdate, rep: Report)
    requires rep in TrueReports(E, m, u, n) && SameSyncKeys(l, m) && LoadState(l, u.collection) == LoadState(m, u.collection)
    requires LoadState(n, u.collection) == LoadState(after, u.collection)
    requires LoadBlocked(n, u.collection) == LoadBlocked(after, u.collection)
    ensures rep in TrueReports(E, l, u, after)
  {
    if rep.appliedPatches < |u.patches| {
      SameKeyLoaded(E, l, m, PatchKeyId(u.patches[rep.appliedPatches]).value);
    }
  }

  lemma RecordKept(E: Env, src: KeySource, initial: bool, m: Contents, sum: Summary, u: CollectionUpdate, c: Collection)
    requires u.collection != c
    ensures LoadBlocked(ApplyUpdate(E, src, initial, m, sum, u).m, c) == LoadBlocked(m, c)
  {
    if LoadState(m, u.collection).Ok? {
      ExitIsPrefix(E, src, initial, m, sum, u);
      OthersUntouched(E, m, ApplyUpdate(E, src, initial, m, sum, u).m, u.collection);
    }
  }

  /** Collections that a response does not mention keep their blocked record. */
  lemma {:induction false} RecordStays(E: Env, src: KeySource, initial: bool, m: Contents, sum: Summary,
                                       us: seq<CollectionUpdate>, c: Collection)
    requires forall u :: u in us ==> u.collection != c
    ensures LoadBlocked(ApplyUpdates(E, src, initial, m, sum, us).m, c) == LoadBlocked(m, c)
    decreases |us|
  {
    if us != [] {
      assert us[0] in us;
      var a := ApplyUpdate(E, src, initial, m, sum, us[0]);
      RecordKept(E, src, initial, m, sum, us[0], c);
      if a.summary.Ok? {
        RecordStays(E, src, initial, a.m, a.summary.value, us[1..], c);
      }
    }
  }

  /** Reports are only added. */
  lemma {:induction false} ReportsGrow(E: Env, src: KeySource, initial: bool, m: Contents, sum: Summary, us: seq<CollectionUpdate>)
    requires ApplyUpdates(E, src, initial, m, sum, us).summary.Ok?
    ensures var r := ApplyUpdates(E, src, initial, m, sum, us).summary.value;
            sum.reports <= r.reports && |r.reports| == |sum.reports| + |us|
    decreases |us|
  {
    if us != [] {
      var a := ApplyUpdate(E, src, initial, m, sum, us[0]);
      ReportsHonest(E, src, initial, m, sum, us[0]);
      ReportsGrow(E, src, initial, a.m, a.summary.value, us[1..]);
    }
  }

  lemma OneReport(E: Env, src: KeySource, initial: bool, m: Contents, sum: Summary, u: CollectionUpdate)
    requires ApplyUpdate(E, src, initial, m, sum, u).summary.Ok?
    ensures var a := ApplyUpdate(E, src, initial, m, sum, u);
            && |a.summary.value.reports| == |sum.reports| + 1
            && a.summary.value.reports[|sum.reports|] in TrueReports(E, m, u, a.m)
  {
    ReportsHonest(E, src, initial, m, sum, u);
    var a := ApplyUpdate(E, src, initial, m, sum, u);
    HonestHolds(E, src, m, sum, u, a.m, a.summary.value, a.summary.value.reports[|sum.reports|]);
  }

  /** What the first `k` entries leave stored. */
  function StoreAfter(E: Env, src: KeySource, initial: bool, m: Contents, sum: Summary, us: seq<CollectionUpdate>, k: nat): Contents
    requires k <= |us|
  {
    ApplyUpdates(E, src, initial, m, sum, us[..k]).m
  }

  lemma StoreAfterFirst(E: Env, src: KeySource, initial: bool, m: Contents, sum: Summary, us: seq<CollectionUpdate>, k: nat)
    requires 0 < k <= |us| && ApplyUpdate(E, src, initial, m, sum, us[0]).summary.Ok?
    ensures var a := ApplyUpdate(E, src, initial, m, sum, us[0]);
            StoreAfter(E, src, initial, m, sum, us, k) == StoreAfter(E, src, initial, a.m, a.summary.value, us[1..], k - 1)
  {
    assert us[..k][0] == us[0] && us[..k][1..] == us[1..][..k - 1];
  }

  /**
   When a response is applied without failure, it has one report for each entry, in
   order, and each holds of what was stored before and after its entry, however often
   the response mentions the collection. Report `i` is the one of entry `k`.
   */
  lemma {:induction false} ResponseReports(E: Env, src: KeySource, initial: bool, m: Contents, sum: Summary,
                                           us: seq<CollectionUpdate>, k: nat, i: nat)
    requires k < |us| && i == |sum.reports| + k
    requires ApplyUpdates(E, src, initial, m, sum, us).summary.Ok?
    ensures var r := ApplyUpdates(E, src, initial, m, sum, us).summary.value;
            && |r.reports| == |sum.reports| + |us|
            && r.reports[i] in TrueReports(E, StoreAfter(E, src, initial, m, sum, us, k), us[k],
                                           StoreAfter(E, src, initial, m, sum, us, k + 1))
    decreases |us|
  {
    var a := ApplyUpdate(E, src, initial, m, sum, us[0]);
    OneReport(E, src, initial, m, sum, us[0]);
    ReportsGrow(E, src, initial, a.m, a.summary.value, us[1..]);
    StoreAfterFirst(E, src, initial, m, sum, us, k + 1);
    if k > 0 {
      StoreAfterFirst(E, src, initial, m, sum, us, k);
      ResponseReports(E, src, initial, a.m, a.summary.value, us[1..], k - 1, i);
    }
  }

  lemma FirstReport(E: Env, src: KeySource, initial: bool, m: Contents, sum: Summary, us: seq<CollectionUpdate>)
    requires us != [] && Alone(us, 0) && ApplyUpdates(E, src, initial, m, sum, us).summary.Ok?
    ensures var r := ApplyUpdates(E, src, initial, m, sum, us);
            && |r.summary.value.reports| == |sum.reports| + |us|
            && r.summary.value.reports[|sum.reports|] in TrueReports(E, m, us[0], r.m)
  {
    var a := ApplyUpdate(E, src, initial, m, sum, us[0]);
    var r := ApplyUpdates(E, src, initial, m, sum, us);
    OneReport(E, src, initial, m, sum, us[0]);
    ReportsGrow(E, src, initial, a.m, a.summary.value, us[1..]);
    AloneRest(us, 0);
    RecordStays(E, src, initial, a.m, a.summary.value, us[1..], us[0].collection);
    ResponseSafe(E, src, initial, a.m, a.summary.value, us[1..], us[0].collection);
    HoldsElsewhere(E, m, m, a.m, r.m, us[0], a.summary.value.reports[|sum.reports|]);
  }

  /** An entry for another collection comes before. */
  lemma HoldsBefore(E: Env, src: KeySource, initial: bool, m: Contents, sum: Summary, other: CollectionUpdate, u: CollectionUpdate,
                    after: Contents, rep: Report)
    requires other.collection != u.collection
    requires rep in TrueReports(E, ApplyUpdate(E, src, initial, m, sum, other).m, u, after)
    ensures rep in TrueReports(E, m, u, after)
  {
    EntryKeepsKeys(E, src, initial, m, sum, other);
    UpdateSafe(E, src, initial, m, sum, other, u.collection);
    HoldsElsewhere(E, m, ApplyUpdate(E, src, initial, m, sum, other).m, after, after, u, rep);
  }

  /** The report of an entry whose collection no other entry mentions also holds of the stores around the whole response. */
  lemma {:induction false} LoneReports(E: Env, src: KeySource, initial: bool, m: Contents, sum: Summary,
                                       us: seq<CollectionUpdate>, k: nat, u: CollectionUpdate, i: nat)
    requires k < |us| && Alone(us, k) && us[k] == u && i == |sum.reports| + k
    requires ApplyUpdates(E, src, initial, m, sum, us).summary.Ok?
    ensures var r := ApplyUpdates(E, src, initial, m, sum, us);
            && |r.summary.value.reports| == |sum.reports| + |us|
            && r.summary.value.reports[i] in TrueReports(E, m, u, r.m)
    decreases |us|
  {
    if k == 0 {
      FirstReport(E, src, initial, m, sum, us);
    } else {
      var a := ApplyUpdate(E, src, initial, m, sum, us[0]);
      var r := ApplyUpdates(E, src, initial, m, sum, us);
      OneReport(E, src, initial, m, sum, us[0]);
      AloneRest(us, k);
      LoneReports(E, src, initial, a.m, a.summary.value, us[1..], k - 1, u, i);
      HoldsBefore(E, src, initial, m, sum, us[0], u, r.m, r.summary.value.reports[i]);
    }
  }
}
