/**
 What a sync response hands back to its caller
 (`apply_app_state_sync_response_to_store` and `_with_store_keys`,
 crates/wa-core/src/app_state.rs): when it fails, and which events come back.
 */
module SyncReturns {
  import opened Prelude
  import opened PatchState
  import opened StateBytes
  import opened Events
  import opened PatchProtocol
  import opened PatchTheorems
  import opened Store
  import opened SyncStore
  import opened Sync
  import opened SyncResume
  import opened SyncResponse
  import opened SyncEvents
  import opened SyncWhole

  // ----- Where every collection stands ------------------------------------------

  /** The state of each collection, as far as it can be loaded. */
  type Standing = Collection -> Result<State, SyncError>

  function Stored(m: Contents): Standing {
    c => LoadState(m, c)
  }

  /** Verified patches move one collection on. */
  function Advance(E: Env, src: KeySource, m: Contents, at: Standing, c: Collection, ps: seq<Patch>): Standing {
    x => if x == c && at(c).Ok? then Fold(E, src, m, c, at(c).value, ps) else at(x)
  }

  predicate Agree(at: Standing, other: Standing) {
    forall c :: at(c) == other(c)
  }

  lemma AdvanceAgree(E: Env, src: KeySource, m: Contents, n: Contents, at: Standing, other: Standing, c: Collection, ps: seq<Patch>)
    requires SameSyncKeys(m, n) && Agree(at, other)
    ensures Agree(Advance(E, src, m, at, c, ps), Advance(E, src, n, other, c, ps))
  {
    if at(c).Ok? {
      FoldWithKeys(E, src, m, n, c, at(c).value, ps);
    }
  }

  /** Where an entry leaves every collection. */
  lemma EntryAdvances(E: Env, src: KeySource, initial: bool, m: Contents, sum: Summary, u: CollectionUpdate)
    requires Taking(E, src, initial, m, sum, u) <= |u.patches|
    ensures Agree(Stored(ApplyUpdate(E, src, initial, m, sum, u).m),
                  Advance(E, src, m, Stored(m), u.collection, u.patches[..Taking(E, src, initial, m, sum, u)]))
  {
    if LoadState(m, u.collection).Ok? {
      EntryFolds(E, src, initial, m, sum, u, u.collection);
      forall c | c != u.collection ensures LoadState(ApplyUpdate(E, src, initial, m, sum, u).m, c) == LoadState(m, c) {
        UpdateSafe(E, src, initial, m, sum, u, c);
      }
    }
  }

  // ----- When a response fails -----------------------------------------------------

  /** The patch fails on this state: its key, its checks, its events, or storing what comes of it. */
  predicate PatchFails(E: Env, src: KeySource, initial: bool, m: Contents, c: Collection, s: State, p: Patch) {
    match FindKey(E, src, m, p)
    case Err(_) => true
    case Ok(None) => PatchKeyId(p).Err? || EncodeBlocked(Blocked(PatchKeyId(p).value, s.version)).Err?
    case Ok(Some(keyData)) =>
      match DecodePatch(E, c, s, p, keyData)
      case Err(_) => true
      case Ok(d) => DecodedBatch(d.mutations, initial).Err? || EncodeState(d.next).Err?
  }

  /** The patch has to wait for its key. */
  predicate PatchWaits(E: Env, src: KeySource, m: Contents, p: Patch) {
    FindKey(E, src, m, p) == Ok(None)
  }

  /** The patch is verified, and leads on. */
  function PatchNext(E: Env, src: KeySource, initial: bool, m: Contents, c: Collection, s: State, p: Patch): State
    requires !PatchFails(E, src, initial, m, c, s, p) && !PatchWaits(E, src, m, p)
  {
    DecodePatch(E, c, s, p, FindKey(E, src, m, p).value.value).value.next
  }

  /** How far the patches lead from a state: how many are gone through, and whether the next one fails. */
  datatype Outlook = Outlook(taken: nat, state: State, fails: bool)

  function Foresee(E: Env, src: KeySource, initial: bool, m: Contents, c: Collection, s: State, ps: seq<Patch>): (o: Outlook)
    ensures o.taken <= |ps|
    decreases |ps|
  {
    if ps == [] then Outlook(0, s, false)
    else if PatchFails(E, src, initial, m, c, s, ps[0]) then Outlook(0, s, true)
    else if PatchWaits(E, src, m, ps[0]) then Outlook(0, s, false)
    else
      var o := Foresee(E, src, initial, m, c, PatchNext(E, src, initial, m, c, s, ps[0]), ps[1..]);
      o.(taken := o.taken + 1)
  }

  /** From where the collections stand: some entry cannot be loaded, or its first patch not gone through fails. */
  predicate Fails(E: Env, src: KeySource, initial: bool, m: Contents, at: Standing, us: seq<CollectionUpdate>)
    decreases |us|
  {
    us != []
    && var c := us[0].collection;
       at(c).Err?
       || var o := Foresee(E, src, initial, m, c, at(c).value, us[0].patches);
          o.fails || Fails(E, src, initial, m, Advance(E, src, m, at, c, us[0].patches[..o.taken]), us[1..])
  }

  lemma StepForeseen(E: Env, src: KeySource, c: Collection, initial: bool, pr: Progress, p: Patch)
    ensures var r := Step(E, src, c, initial, pr, p);
            && (r.end.Failed? <==> PatchFails(E, src, initial, pr.m, c, pr.state, p))
            && (r.end.BlockedOn? <==> !r.end.Failed? && PatchWaits(E, src, pr.m, p))
  {
    match FindKey(E, src, pr.m, p) {
      case Err(_) =>
      case Ok(None) =>
      case Ok(Some(keyData)) => DecodeForeseen(E, src, c, initial, pr, p, keyData);
    }
  }

  lemma DecodeForeseen(E: Env, src: KeySource, c: Collection, initial: bool, pr: Progress, p: Patch, keyData: Bytes)
    requires FindKey(E, src, pr.m, p) == Ok(Some(keyData))
    ensures var r := Decode(E, c, initial, pr, p, keyData);
            && !r.end.BlockedOn?
            && (r.end.Failed? <==> PatchFails(E, src, initial, pr.m, c, pr.state, p))
  {
  }

  lemma SameVerdict(E: Env, src: KeySource, initial: bool, m: Contents, n: Contents, c: Collection, s: State, p: Patch)
    requires SameSyncKeys(m, n)
    ensures PatchFails(E, src, initial, m, c, s, p) <==> PatchFails(E, src, initial, n, c, s, p)
    ensures PatchWaits(E, src, m, p) <==> PatchWaits(E, src, n, p)
    ensures !PatchFails(E, src, initial, m, c, s, p) && !PatchWaits(E, src, m, p) ==>
              PatchNext(E, src, initial, m, c, s, p) == PatchNext(E, src, initial, n, c, s, p)
  {
    SameKeyFound(E, src, m, n, p);
  }

  lemma {:induction false} ForeseenElsewhere(E: Env, src: KeySource, initial: bool, m: Contents, n: Contents, c: Collection,
                                             s: State, ps: seq<Patch>)
    requires SameSyncKeys(m, n)
    ensures Foresee(E, src, initial, m, c, s, ps) == Foresee(E, src, initial, n, c, s, ps)
    decreases |ps|
  {
    if ps != [] {
      SameVerdict(E, src, initial, m, n, c, s, ps[0]);
      if !PatchFails(E, src, initial, m, c, s, ps[0]) && !PatchWaits(E, src, m, ps[0]) {
        ForeseenElsewhere(E, src, initial, m, n, c, PatchNext(E, src, initial, m, c, s, ps[0]), ps[1..]);
      }
    }
  }

  /** What a run comes to, told from the keys and the state it starts with. */
  predicate Foreseen(o: Outlook, pr: Progress, r: Run) {
    r.progress.applied == pr.applied + o.taken && r.progress.state == o.state && (r.end.Failed? <==> o.fails)
  }

  lemma {:induction false} RunForeseen(E: Env, src: KeySource, c: Collection, initial: bool, pr: Progress, ps: seq<Patch>)
    requires Anchored(c, pr)
    ensures Foreseen(Foresee(E, src, initial, pr.m, c, pr.state, ps), pr, Patches(E, src, c, initial, pr, ps))
    decreases |ps|
  {
    if ps != [] {
      var r := Step(E, src, c, initial, pr, ps[0]);
      PatchesStep(E, src, c, initial, pr, ps);
      StepExplained(E, src, c, initial, pr, ps[0]);
      StepForeseen(E, src, c, initial, pr, ps[0]);
      if r.end.Finished? {
        RunForeseen(E, src, c, initial, r.progress, ps[1..]);
        OwnKeepsKeys(pr.m, r.progress.m, c);
        ForeseenElsewhere(E, src, initial, pr.m, r.progress.m, c, r.progress.state, ps[1..]);
      }
    }
  }

  lemma EntryForeseen(E: Env, src: KeySource, initial: bool, m: Contents, sum: Summary, u: CollectionUpdate)
    requires LoadState(m, u.collection).Ok?
    ensures var o := Foresee(E, src, initial, m, u.collection, LoadState(m, u.collection).value, u.patches);
            && Taking(E, src, initial, m, sum, u) == o.taken
            && (ApplyUpdate(E, src, initial, m, sum, u).summary.Err? <==> o.fails)
  {
    LoadedState(m, u.collection);
    RunForeseen(E, src, u.collection, initial, Start(m, LoadState(m, u.collection).value, sum), u.patches);
  }

  lemma {:induction false} FailsElsewhere(E: Env, src: KeySource, initial: bool, m: Contents, n: Contents, at: Standing,
                                          other: Standing, us: seq<CollectionUpdate>)
    requires SameSyncKeys(m, n) && Agree(at, other)
    ensures Fails(E, src, initial, m, at, us) <==> Fails(E, src, initial, n, other, us)
    decreases |us|
  {
    if us != [] {
      var c := us[0].collection;
      if at(c).Ok? {
        ForeseenElsewhere(E, src, initial, m, n, c, at(c).value, us[0].patches);
        var taken := us[0].patches[..Foresee(E, src, initial, m, c, at(c).value, us[0].patches).taken];
        AdvanceAgree(E, src, m, n, at, other, c, taken);
        FailsElsewhere(E, src, initial, m, n, Advance(E, src, m, at, c, taken), Advance(E, src, n, other, c, taken), us[1..]);
      }
    }
  }

  /**
   A response fails if and only if, from what is stored before it, some entry comes to
   a collection that cannot be loaded or to a patch that fails, with none before.
   */
  lemma {:induction false} ResponseFailsIff(E: Env, src: KeySource, initial: bool, m: Contents, sum: Summary, us: seq<CollectionUpdate>)
    ensures ApplyUpdates(E, src, initial, m, sum, us).summary.Err? <==> Fails(E, src, initial, m, Stored(m), us)
    decreases |us|
  {
    if us != [] && LoadState(m, us[0].collection).Ok? {
      EntryForeseen(E, src, initial, m, sum, us[0]);
      var a := ApplyUpdate(E, src, initial, m, sum, us[0]);
      if a.summary.Ok? {
        var c := us[0].collection;
        var taken := us[0].patches[..Taking(E, src, initial, m, sum, us[0])];
        ResponseFailsIff(E, src, initial, a.m, a.summary.value, us[1..]);
        EntryKeepsKeys(E, src, initial, m, sum, us[0]);
        EntryAdvances(E, src, initial, m, sum, us[0]);
        FailsElsewhere(E, src, initial, m, a.m, Advance(E, src, m, Stored(m), c, taken), Stored(a.m), us[1..]);
      }
    }
  }

  // ----- Which events come back ------------------------------------------------------

  /** The mutations of the first patches of every entry, each from where its collection then stands. */
  function AllMutations(E: Env, src: KeySource, m: Contents, at: Standing, us: seq<CollectionUpdate>, ns: seq<nat>): seq<Decoded>
    requires Fits(us, ns)
    decreases |us|
  {
    if us == [] then []
    else
      var c, ps := us[0].collection, us[0].patches[..ns[0]];
      (if at(c).Ok? then Mutations(E, src, m, c, at(c).value, ps) else [])
      + AllMutations(E, src, m, Advance(E, src, m, at, c, ps), us[1..], ns[1..])
  }

  lemma {:induction false} MutationsWithKeys(E: Env, src: KeySource, m: Contents, n: Contents, c: Collection, s: State, ps: seq<Patch>)
    requires SameSyncKeys(m, n)
    ensures Mutations(E, src, m, c, s, ps) == Mutations(E, src, n, c, s, ps)
    decreases |ps|
  {
    if ps != [] {
      SameKeyFound(E, src, m, n, ps[0]);
      var key := FindKey(E, src, m, ps[0]);
      if key.Ok? && key.value.Some? && DecodePatch(E, c, s, ps[0], key.value.value).Ok? {
        MutationsWithKeys(E, src, m, n, c, DecodePatch(E, c, s, ps[0], key.value.value).value.next, ps[1..]);
      }
    }
  }

  lemma {:induction false} AllMutationsSame(E: Env, src: KeySource, m: Contents, n: Contents, at: Standing, other: Standing,
                                            us: seq<CollectionUpdate>, ns: seq<nat>)
    requires Fits(us, ns) && SameSyncKeys(m, n) && Agree(at, other)
    ensures AllMutations(E, src, m, at, us, ns) == AllMutations(E, src, n, other, us, ns)
    decreases |us|
  {
    if us != [] {
      var c, ps := us[0].collection, us[0].patches[..ns[0]];
      AdvanceAgree(E, src, m, n, at, other, c, ps);
      AllMutationsSame(E, src, m, n, Advance(E, src, m, at, c, ps), Advance(E, src, n, other, c, ps), us[1..], ns[1..]);
      if at(c).Ok? {
        MutationsWithKeys(E, src, m, n, c, at(c).value, ps);
      }
    }
  }

  lemma {:induction false} NothingMutated(E: Env, src: KeySource, m: Contents, at: Standing, us: seq<CollectionUpdate>)
    ensures AllMutations(E, src, m, at, us, NoneOf(|us|)) == []
    decreases |us|
  {
    if us != [] {
      var c := us[0].collection;
      assert NoneOf(|us|)[1..] == NoneOf(|us[1..]|) && us[0].patches[..0] == [];
      NothingMutated(E, src, m, Advance(E, src, m, at, c, us[0].patches[..0]), us[1..]);
    }
  }

  lemma {:induction false} JoinAllAppend(a: seq<Batch>, b: seq<Batch>)
    ensures JoinAll(a + b) == Join(JoinAll(a), JoinAll(b))
    decreases |a|
  {
    if a == [] {
      Neutral(b);
      JoinNothing(JoinAll(b));
    } else {
      HeadTail(a, b);
      JoinAllAppend(a[1..], b);
      JoinAssoc(a[0], JoinAll(a[1..]), JoinAll(b));
    }
  }

  /** The batches added, none of them empty, hold together the events of these mutations. */
  ghost predicate BatchesHold(before: seq<Batch>, after: seq<Batch>, ds: seq<Decoded>, initial: bool) {
    && before <= after && NO_EVENTS !in after[|before|..]
    && DecodedBatch(ds, initial) == Ok(JoinAll(after[|before|..]))
  }

  lemma ReportedThen(x: seq<Batch>, y: seq<Batch>, z: seq<Batch>, a: seq<Decoded>, b: seq<Decoded>, initial: bool)
    requires BatchesHold(x, y, a, initial) && BatchesHold(y, z, b, initial)
    ensures BatchesHold(x, z, a + b, initial)
  {
    assert z[|x|..] == y[|x|..] + z[|y|..];
    JoinAllAppend(y[|x|..], z[|y|..]);
    BatchAppend(a, b, JoinAll(y[|x|..]), JoinAll(z[|y|..]), initial);
  }

  /** The batches that an entry has collected when it ends or fails. */
  function Collected(E: Env, src: KeySource, initial: bool, m: Contents, sum: Summary, u: CollectionUpdate): seq<Batch> {
    if LoadState(m, u.collection).Err? then sum.batches
    else Patches(E, src, u.collection, initial, Start(m, LoadState(m, u.collection).value, sum), u.patches).progress.batches
  }

  /** The mutations that an entry stores. */
  function OwnMutations(E: Env, src: KeySource, m: Contents, u: CollectionUpdate, n: nat): seq<Decoded>
    requires n <= |u.patches|
  {
    if LoadState(m, u.collection).Ok?
    then Mutations(E, src, m, u.collection, LoadState(m, u.collection).value, u.patches[..n]) else []
  }

  lemma NothingHeld(bs: seq<Batch>, initial: bool)
    ensures BatchesHold(bs, bs, [], initial)
  {
    assert bs[|bs|..] == [];
  }

  lemma CollectedPassedOn(E: Env, src: KeySource, initial: bool, m: Contents, sum: Summary, u: CollectionUpdate)
    requires ApplyUpdate(E, src, initial, m, sum, u).summary.Ok?
    ensures ApplyUpdate(E, src, initial, m, sum, u).summary.value.batches == Collected(E, src, initial, m, sum, u)
  {
  }

  lemma RunHolds(E: Env, src: KeySource, initial: bool, c: Collection, pr: Progress, ps: seq<Patch>)
    requires Anchored(c, pr) && pr.applied == 0
    ensures var r := Patches(E, src, c, initial, pr, ps).progress;
            && r.applied <= |ps|
            && BatchesHold(pr.batches, r.batches, Mutations(E, src, pr.m, c, pr.state, ps[..r.applied]), initial)
  {
    RunReports(E, src, c, initial, pr, ps);
  }

  lemma EntryReported(E: Env, src: KeySource, initial: bool, m: Contents, sum: Summary, u: CollectionUpdate)
    ensures Taking(E, src, initial, m, sum, u) <= |u.patches|
    ensures BatchesHold(sum.batches, Collected(E, src, initial, m, sum, u),
                        OwnMutations(E, src, m, u, Taking(E, src, initial, m, sum, u)), initial)
  {
    if LoadState(m, u.collection).Ok? {
      LoadedState(m, u.collection);
      RunHolds(E, src, initial, u.collection, Start(m, LoadState(m, u.collection).value, sum), u.patches);
    } else {
      NothingHeld(sum.batches, initial);
    }
  }

  /** Every batch that a response has collected when it ends or fails. */
  function AllCollected(E: Env, src: KeySource, initial: bool, m: Contents, sum: Summary, us: seq<CollectionUpdate>): seq<Batch>
    decreases |us|
  {
    if us == [] then sum.batches
    else
      var a := ApplyUpdate(E, src, initial, m, sum, us[0]);
      if a.summary.Err? then Collected(E, src, initial, m, sum, us[0])
      else AllCollected(E, src, initial, a.m, a.summary.value, us[1..])
  }

  lemma {:induction false} CollectedReturned(E: Env, src: KeySource, initial: bool, m: Contents, sum: Summary, us: seq<CollectionUpdate>)
    requires ApplyUpdates(E, src, initial, m, sum, us).summary.Ok?
    ensures ApplyUpdates(E, src, initial, m, sum, us).summary.value.batches == AllCollected(E, src, initial, m, sum, us)
    decreases |us|
  {
    if us != [] {
      var a := ApplyUpdate(E, src, initial, m, sum, us[0]);
      CollectedReturned(E, src, initial, a.m, a.summary.value, us[1..]);
    }
  }

  /** The mutations of the patches that a response stores, in the order of the response. */
  function StoredMutations(E: Env, src: KeySource, initial: bool, m: Contents, sum: Summary, us: seq<CollectionUpdate>): seq<Decoded>
  {
    CountsFit(E, src, initial, m, sum, us);
    AllMutations(E, src, m, Stored(m), us, TakenCounts(E, src, initial, m, sum, us))
  }

  /** One more entry in front. */
  lemma MutationsCons(E: Env, src: KeySource, initial: bool, m: Contents, sum: Summary, us: seq<CollectionUpdate>, ns: seq<nat>)
    requires us != [] && Fits(us[1..], ns) && Taking(E, src, initial, m, sum, us[0]) <= |us[0].patches|
    requires Fits(us, [Taking(E, src, initial, m, sum, us[0])] + ns)
    ensures var a := ApplyUpdate(E, src, initial, m, sum, us[0]);
            var n := Taking(E, src, initial, m, sum, us[0]);
            AllMutations(E, src, m, Stored(m), us, [n] + ns)
            == OwnMutations(E, src, m, us[0], n) + AllMutations(E, src, a.m, Stored(a.m), us[1..], ns)
  {
    var a := ApplyUpdate(E, src, initial, m, sum, us[0]);
    var n := Taking(E, src, initial, m, sum, us[0]);
    var c := us[0].collection;
    assert ([n] + ns)[1..] == ns;
    EntryKeepsKeys(E, src, initial, m, sum, us[0]);
    EntryAdvances(E, src, initial, m, sum, us[0]);
    AllMutationsSame(E, src, m, a.m, Advance(E, src, m, Stored(m), c, us[0].patches[..n]), Stored(a.m), us[1..], ns);
  }

  /**
   However a response ends and however often it mentions a collection: the batches it
   has collected, none of them empty, hold together the events of exactly the patches
   that it has stored, entry by entry.
   */
  lemma {:induction false} ResponseCollects(E: Env, src: KeySource, initial: bool, m: Contents, sum: Summary, us: seq<CollectionUpdate>)
    ensures BatchesHold(sum.batches, AllCollected(E, src, initial, m, sum, us), StoredMutations(E, src, initial, m, sum, us), initial)
    decreases |us|
  {
    CountsFit(E, src, initial, m, sum, us);
    if us == [] {
      NothingHeld(sum.batches, initial);
    } else {
      var a := ApplyUpdate(E, src, initial, m, sum, us[0]);
      var n := Taking(E, src, initial, m, sum, us[0]);
      EntryReported(E, src, initial, m, sum, us[0]);
      if a.summary.Err? {
        MutationsCons(E, src, initial, m, sum, us, NoneOf(|us| - 1));
        NothingMutated(E, src, a.m, Stored(a.m), us[1..]);
        Neutral(OwnMutations(E, src, m, us[0], n));
      } else {
        CollectedPassedOn(E, src, initial, m, sum, us[0]);
        CountsFit(E, src, initial, a.m, a.summary.value, us[1..]);
        MutationsCons(E, src, initial, m, sum, us, TakenCounts(E, src, initial, a.m, a.summary.value, us[1..]));
        ResponseCollects(E, src, initial, a.m, a.summary.value, us[1..]);
        ReportedThen(sum.batches, a.summary.value.batches, AllCollected(E, src, initial, a.m, a.summary.value, us[1..]),
                     OwnMutations(E, src, m, us[0], n), StoredMutations(E, src, initial, a.m, a.summary.value, us[1..]), initial);
      }
    }
  }

  /** And a response that does not fail returns them all. */
  lemma ResponseReportsEvents(E: Env, src: KeySource, initial: bool, m: Contents, sum: Summary, us: seq<CollectionUpdate>)
    requires ApplyUpdates(E, src, initial, m, sum, us).summary.Ok?
    ensures BatchesHold(sum.batches, ApplyUpdates(E, src, initial, m, sum, us).summary.value.batches,
                        StoredMutations(E, src, initial, m, sum, us), initial)
  {
    ResponseCollects(E, src, initial, m, sum, us);
    CollectedReturned(E, src, initial, m, sum, us);
  }

  /** What the caller of a response gets to see of its events. */
  function Returned(a: Applied): Batch {
    if a.summary.Ok? then JoinAll(a.summary.value.batches) else NO_EVENTS
  }

  /**
   The events of the patches that a response has stored come back to its caller if
   and only if the response does not fail or they have no events: a failing response
   drops what it has collected, and says nothing of the patches it has stored.
   */
  lemma EventsReachIff(E: Env, src: KeySource, initial: bool, m: Contents, us: seq<CollectionUpdate>)
    ensures var events := DecodedBatch(StoredMutations(E, src, initial, m, NOTHING, us), initial);
            && events.Ok?
            && (Returned(ApplyUpdates(E, src, initial, m, NOTHING, us)) == events.value
                <==> !Fails(E, src, initial, m, Stored(m), us) || events.value == NO_EVENTS)
  {
    ResponseFailsIff(E, src, initial, m, NOTHING, us);
    ResponseCollects(E, src, initial, m, NOTHING, us);
    var all := AllCollected(E, src, initial, m, NOTHING, us);
    assert all[|NOTHING.batches|..] == all;
    if ApplyUpdates(E, src, initial, m, NOTHING, us).summary.Ok? {
      CollectedReturned(E, src, initial, m, NOTHING, us);
    }
  }

  // ----- What is lost is lost for good ------------------------------------------------

  lemma {:induction false} ResponseKeepsKeys(E: Env, src: KeySource, initial: bool, m: Contents, sum: Summary, us: seq<CollectionUpdate>)
    ensures SameSyncKeys(m, ApplyUpdates(E, src, initial, m, sum, us).m)
    decreases |us|
  {
    if us != [] {
      var a := ApplyUpdate(E, src, initial, m, sum, us[0]);
      EntryKeepsKeys(E, src, initial, m, sum, us[0]);
      if a.summary.Ok? {
        ResponseKeepsKeys(E, src, initial, a.m, a.summary.value, us[1..]);
        SameKeysTrans(m, a.m, ApplyUpdates(E, src, initial, a.m, a.summary.value, us[1..]).m);
      }
    }
  }

  lemma SameKeysTrans(l: Contents, m: Contents, n: Contents)
    requires SameSyncKeys(l, m) && SameSyncKeys(m, n)
    ensures SameSyncKeys(l, n)
  {
  }

  /** A later store that has the same keys, and the collection at a state past `s`. */
  ghost predicate Past(m: Contents, s: State, n: Contents, c: Collection) {
    SameSyncKeys(m, n) && LoadState(n, c).Ok? && LoadState(n, c).value.version > s.version
  }

  /** A patch that was verified on `s` cannot be applied past it. */
  lemma PastRefuses(E: Env, src: KeySource, m: Contents, n: Contents, u: CollectionUpdate, s: State, later: bool, again: Summary)
    requires Past(m, s, n, u.collection) && u.patches != [] && Fold(E, src, m, u.collection, s, u.patches[..1]).Ok?
    ensures ApplyUpdate(E, src, later, n, again, u) == Applied(n, Err(Refusal(LoadState(n, u.collection).value)))
  {
    var c, p, t := u.collection, u.patches[0], LoadState(n, u.collection).value;
    FoldHead(E, src, m, c, s, u.patches[..1]);
    var keyData := FindKey(E, src, m, p).value.value;
    SameKeyFound(E, src, m, n, p);
    OutOfTurn(E, c, s, t, p, keyData, keyData);
    PatchesStep(E, src, c, later, Start(n, t, again), u.patches);
    FailedUpdate(E, src, later, n, again, u, t, Refusal(t));
  }

  /** The first of some verified patches is verified. */
  lemma FirstFolds(E: Env, src: KeySource, m: Contents, c: Collection, s: State, ps: seq<Patch>, n: nat)
    requires 0 < n <= |ps| && Fold(E, src, m, c, s, ps[..n]).Ok?
    ensures Fold(E, src, m, c, s, ps[..1]).Ok?
  {
    FoldHead(E, src, m, c, s, ps[..n]);
    assert ps[..n][0] == ps[..1][0] && ps[..1][1..] == [];
  }

  lemma FoldMovesPast(E: Env, src: KeySource, m: Contents, n: Contents, c: Collection, s: State, ps: seq<Patch>)
    requires ps != [] && ValidMacs(s.macs) && Fold(E, src, m, c, s, ps).Ok?
    requires SameSyncKeys(m, n) && LoadState(n, c) == Fold(E, src, m, c, s, ps)
    ensures Past(m, s, n, c)
  {
    FoldKeeps(E, src, m, c, s, ps);
  }

  /** An entry that gets a patch through leaves its collection past where it was. */
  lemma EntryMovesPast(E: Env, src: KeySource, initial: bool, m: Contents, sum: Summary, u: CollectionUpdate)
    requires Taking(E, src, initial, m, sum, u) > 0
    ensures LoadState(m, u.collection).Ok? && u.patches != []
    ensures Fold(E, src, m, u.collection, LoadState(m, u.collection).value, u.patches[..1]).Ok?
    ensures Past(m, LoadState(m, u.collection).value, ApplyUpdate(E, src, initial, m, sum, u).m, u.collection)
  {
    var s, n := LoadState(m, u.collection).value, Taking(E, src, initial, m, sum, u);
    LoadedState(m, u.collection);
    ExitIsPrefix(E, src, initial, m, sum, u);
    EntryKeepsKeys(E, src, initial, m, sum, u);
    FirstFolds(E, src, m, u.collection, s, u.patches, n);
    FoldMovesPast(E, src, m, ApplyUpdate(E, src, initial, m, sum, u).m, u.collection, s, u.patches[..n]);
  }

  lemma PastStays(E: Env, src: KeySource, initial: bool, m: Contents, s: State, mid: Contents, sum: Summary,
                  us: seq<CollectionUpdate>, c: Collection)
    requires Past(m, s, mid, c)
    ensures Past(m, s, ApplyUpdates(E, src, initial, mid, sum, us).m, c)
  {
    ResponseSafe(E, src, initial, mid, sum, us, c);
    ResponseKeepsKeys(E, src, initial, mid, sum, us);
    SameKeysTrans(m, mid, ApplyUpdates(E, src, initial, mid, sum, us).m);
  }

  /** Applying the entry once more to this store fails and changes nothing. */
  ghost predicate Gone(E: Env, src: KeySource, later: bool, after: Contents, again: Summary, u: CollectionUpdate) {
    && LoadState(after, u.collection).Ok?
    && ApplyUpdate(E, src, later, after, again, u) == Applied(after, Err(Refusal(LoadState(after, u.collection).value)))
  }

  /** The first entry of a response cannot be had again. */
  lemma FirstGone(E: Env, src: KeySource, initial: bool, m: Contents, sum: Summary, us: seq<CollectionUpdate>,
                  later: bool, again: Summary)
    requires us != [] && Taking(E, src, initial, m, sum, us[0]) > 0
    ensures Gone(E, src, later, ApplyUpdates(E, src, initial, m, sum, us).m, again, us[0])
  {
    var u, a := us[0], ApplyUpdate(E, src, initial, m, sum, us[0]);
    var s := LoadState(m, u.collection).value;
    EntryMovesPast(E, src, initial, m, sum, u);
    if a.summary.Ok? {
      PastStays(E, src, initial, m, s, a.m, a.summary.value, us[1..], u.collection);
    }
    PastRefuses(E, src, m, ApplyUpdates(E, src, initial, m, sum, us).m, u, s, later, again);
  }

  lemma LaterCounts(E: Env, src: KeySource, initial: bool, m: Contents, sum: Summary, us: seq<CollectionUpdate>, k: nat)
    requires 0 < k < |us| && TakenCounts(E, src, initial, m, sum, us)[k] > 0
    ensures var a := ApplyUpdate(E, src, initial, m, sum, us[0]);
            && a.summary.Ok?
            && TakenCounts(E, src, initial, a.m, a.summary.value, us[1..])[k - 1] > 0
            && ApplyUpdates(E, src, initial, m, sum, us) == ApplyUpdates(E, src, initial, a.m, a.summary.value, us[1..])
  {
  }

  /**
   What a response has stored cannot be had again: applying an entry that got a patch
   through once more, to the store that the response has left, however it ended, fails
   on the first patch and changes nothing.
   */
  lemma {:induction false} LostForGood(E: Env, src: KeySource, initial: bool, m: Contents, sum: Summary, us: seq<CollectionUpdate>,
                                       k: nat, later: bool, again: Summary)
    requires k < |us| && TakenCounts(E, src, initial, m, sum, us)[k] > 0
    ensures Gone(E, src, later, ApplyUpdates(E, src, initial, m, sum, us).m, again, us[k])
    decreases |us|
  {
    if k == 0 {
      FirstGone(E, src, initial, m, sum, us, later, again);
    } else {
      LaterCounts(E, src, initial, m, sum, us, k);
      var a := ApplyUpdate(E, src, initial, m, sum, us[0]);
      LostForGood(E, src, initial, a.m, a.summary.value, us[1..], k - 1, later, again);
    }
  }

  /** A response of two entries. */
  lemma TwoEntries(E: Env, src: KeySource, initial: bool, m: Contents, sum: Summary, u: CollectionUpdate, v: CollectionUpdate)
    requires ApplyUpdate(E, src, initial, m, sum, u).summary.Ok?
    ensures var a := ApplyUpdate(E, src, initial, m, sum, u);
            && ApplyUpdates(E, src, initial, m, sum, [u]) == a
            && (ApplyUpdate(E, src, initial, a.m, a.summary.value, v).summary.Err? ==>
                  ApplyUpdates(E, src, initial, m, sum, [u, v]) == ApplyUpdate(E, src, initial, a.m, a.summary.value, v))
  {
    assert [u, v][1..] == [v] && [u][1..] == [];
  }

  /**
   A response that fails with patches stored: one that says the same of a collection
   twice. It leaves the store that its first entry alone leaves, and returns nothing,
   where that entry alone returns the events of its patches.
   */
  lemma RepeatLoses(E: Env, src: KeySource, initial: bool, m: Contents, u: CollectionUpdate)
    requires ApplyUpdate(E, src, initial, m, NOTHING, u).summary.Ok? && Taking(E, src, initial, m, NOTHING, u) > 0
    ensures var one, two := ApplyUpdates(E, src, initial, m, NOTHING, [u]), ApplyUpdates(E, src, initial, m, NOTHING, [u, u]);
            && one.summary.Ok? && two.summary.Err? && two.m == one.m
            && Returned(one) == JoinAll(Collected(E, src, initial, m, NOTHING, u)) && Returned(two) == NO_EVENTS
  {
    var a := ApplyUpdate(E, src, initial, m, NOTHING, u);
    ReapplyFails(E, src, initial, m, NOTHING, u, initial, a.summary.value);
    TwoEntries(E, src, initial, m, NOTHING, u, u);
    CollectedPassedOn(E, src, initial, m, NOTHING, u);
  }
}
