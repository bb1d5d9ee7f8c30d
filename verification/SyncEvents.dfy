/**
 What a run over the patches of one collection collects
 (crates/wa-core/src/app_state.rs): every event of every applied patch, once, in
 order. Whether that comes back to the caller of a response is in SyncReturns.
 */
module SyncEvents {
  import opened Prelude
  import opened PatchState
  import opened Events
  import opened EventFields
  import opened PatchProtocol
  import opened PatchTheorems
  import opened Store
  import opened SyncStore
  import opened Sync

  function JoinAll(bs: seq<Batch>): Batch {
    if bs == [] then NO_EVENTS else Join(bs[0], JoinAll(bs[1..]))
  }

  /** The mutations that verified patches carry, in order, with no store to write to. */
  function Mutations(E: Env, src: KeySource, m: Contents, c: Collection, s: State, ps: seq<Patch>): seq<Decoded>
    decreases |ps|
  {
    if ps == [] then []
    else
      match FindKey(E, src, m, ps[0])
      case Err(_) => []
      case Ok(None) => []
      case Ok(Some(keyData)) =>
        match DecodePatch(E, c, s, ps[0], keyData)
        case Err(_) => []
        case Ok(d) => d.mutations + Mutations(E, src, m, c, d.next, ps[1..])
  }

  // ----- Batches of lists put together -----------------------------------------

  lemma {:induction false} ReportedAppend(a: seq<Decoded>, b: seq<Decoded>)
    ensures ReportedOfAll(a + b) == ReportedOfAll(a) + ReportedOfAll(b)
    decreases |a|
  {
    if a == [] {
      Neutral(b);
      Neutral(ReportedOfAll(b));
    } else {
      HeadTail(a, b);
      ReportedAppend(a[1..], b);
      Assoc([ReportedOf(a[0])], ReportedOfAll(a[1..]), ReportedOfAll(b));
    }
  }

  lemma {:induction false} OntoAppend(batch: Batch, a: seq<Reported>, b: seq<Reported>, initial: bool)
    ensures BatchOnto(batch, a + b, initial)
         == (if BatchOnto(batch, a, initial).Err? then BatchOnto(batch, a, initial)
             else BatchOnto(BatchOnto(batch, a, initial).value, b, initial))
    decreases |a|
  {
    if a == [] {
      Neutral(b);
    } else {
      HeadTail(a, b);
      var e := EventsOf(a[0].op, a[0].index, a[0].action, initial);
      if e.Ok? {
        OntoAppend(Join(batch, e.value), a[1..], b, initial);
      }
    }
  }

  /** Events of one list after another are the events of the whole list. */
  lemma BatchAppend(a: seq<Decoded>, b: seq<Decoded>, x: Batch, y: Batch, initial: bool)
    requires DecodedBatch(a, initial) == Ok(x) && DecodedBatch(b, initial) == Ok(y)
    ensures DecodedBatch(a + b, initial) == Ok(Join(x, y))
  {
    ReportedAppend(a, b);
    OntoAppend(NO_EVENTS, ReportedOfAll(a), ReportedOfAll(b), initial);
    OntoIsJoin(x, ReportedOfAll(b), initial);
  }

  /** Events come in the order of the mutations, list by list. */
  lemma BatchesInOrder(a: seq<Decoded>, b: seq<Decoded>, x: Batch, y: Batch, initial: bool)
    requires DecodedBatch(a, initial) == Ok(x) && DecodedBatch(b, initial) == Ok(y)
    ensures DecodedBatch(a + b, initial)
         == Ok(Batch(x.chatsUpdate + y.chatsUpdate, x.chatsDelete + y.chatsDelete,
                     x.contactsUpsert + y.contactsUpsert, x.contactsDelete + y.contactsDelete,
                     x.quickReplies + y.quickReplies, x.labelsEdit + y.labelsEdit,
                     x.labelsAssociation + y.labelsAssociation, x.messagesUpdate + y.messagesUpdate))
  {
    BatchAppend(a, b, x, y, initial);
  }

  /** One record reports what its operation, index and action report. */
  lemma OneRecord(d: Decoded, initial: bool)
    ensures var e := EventsOf(d.op, d.index, d.action, initial);
            DecodedBatch([d], initial) == (if e.Ok? then Ok(e.value) else Err(EventFailed(e.error)))
  {
    assert ReportedOfAll([d]) == [ReportedOf(d)];
    BatchOfOne(ReportedOf(d), initial);
  }

  // ----- A run -------------------------------------------------------------------

  /** The batches collected since `pr`, none empty, hold together the events of the patches applied since. */
  ghost predicate Reports(E: Env, src: KeySource, c: Collection, initial: bool, pr: Progress, ps: seq<Patch>, after: Progress) {
    && pr.applied <= after.applied <= pr.applied + |ps|
    && pr.batches <= after.batches
    && NO_EVENTS !in after.batches[|pr.batches|..]
    && DecodedBatch(Mutations(E, src, pr.m, c, pr.state, ps[..after.applied - pr.applied]), initial)
    == Ok(JoinAll(after.batches[|pr.batches|..]))
  }

  /** What a finished step reports. */
  ghost predicate StepReports(E: Env, src: KeySource, c: Collection, initial: bool, pr: Progress, p: Patch, mid: Progress,
                              d: DecodedPatch, b: Batch)
  {
    && FindKey(E, src, pr.m, p).Ok? && FindKey(E, src, pr.m, p).value.Some?
    && DecodePatch(E, c, pr.state, p, FindKey(E, src, pr.m, p).value.value) == Ok(d)
    && DecodedBatch(d.mutations, initial) == Ok(b)
    && mid.applied == pr.applied + 1 && mid.state == d.next && mid.batches == Push(pr.batches, b)
  }

  lemma StepReported(E: Env, src: KeySource, c: Collection, initial: bool, pr: Progress, p: Patch) returns (d: DecodedPatch, b: Batch)
    requires Step(E, src, c, initial, pr, p).end.Finished?
    ensures StepReports(E, src, c, initial, pr, p, Step(E, src, c, initial, pr, p).progress, d, b)
  {
    d := DecodePatch(E, c, pr.state, p, FindKey(E, src, pr.m, p).value.value).value;
    b := ApplyDecoded(pr.m, d, initial).value.batch;
  }

  lemma {:induction false} SameMutations(E: Env, src: KeySource, m: Contents, n: Contents, c: Collection, s: State, ps: seq<Patch>)
    requires OnlyOwn(m, n, c)
    ensures Mutations(E, src, m, c, s, ps) == Mutations(E, src, n, c, s, ps)
    decreases |ps|
  {
    if ps != [] {
      SameKeysFound(E, src, m, n, c, ps[0]);
      var key := FindKey(E, src, m, ps[0]);
      if key.Ok? && key.value.Some? && DecodePatch(E, c, s, ps[0], key.value.value).Ok? {
        SameMutations(E, src, m, n, c, DecodePatch(E, c, s, ps[0], key.value.value).value.next, ps[1..]);
      }
    }
  }

  lemma MutationsFirst(E: Env, src: KeySource, c: Collection, initial: bool, pr: Progress, ps: seq<Patch>, mid: Progress,
                       d: DecodedPatch, b: Batch, n: nat)
    requires 0 < n <= |ps| && StepReports(E, src, c, initial, pr, ps[0], mid, d, b) && OnlyOwn(pr.m, mid.m, c)
    ensures Mutations(E, src, pr.m, c, pr.state, ps[..n])
         == d.mutations + Mutations(E, src, mid.m, c, mid.state, ps[1..][..n - 1])
  {
    assert ps[..n][0] == ps[0] && ps[..n][1..] == ps[1..][..n - 1];
    SameMutations(E, src, pr.m, mid.m, c, mid.state, ps[1..][..n - 1]);
  }

  /** The batches since an earlier point are the one pushed first and those pushed later. */
  lemma PushedFirst(before: seq<Batch>, b: Batch, after: seq<Batch>)
    requires Push(before, b) <= after && NO_EVENTS !in after[|Push(before, b)|..]
    ensures before <= after && NO_EVENTS !in after[|before|..]
    ensures JoinAll(after[|before|..]) == Join(b, JoinAll(after[|Push(before, b)|..]))
  {
    var later := after[|Push(before, b)|..];
    if b == NO_EVENTS {
      JoinNothing(JoinAll(later));
    } else {
      assert after[|before|..] == [b] + later;
      assert ([b] + later)[1..] == later;
    }
  }

  lemma ReportsCons(E: Env, src: KeySource, c: Collection, initial: bool, pr: Progress, ps: seq<Patch>, mid: Progress,
                    d: DecodedPatch, b: Batch, after: Progress)
    requires ps != [] && StepReports(E, src, c, initial, pr, ps[0], mid, d, b) && OnlyOwn(pr.m, mid.m, c)
    requires Reports(E, src, c, initial, mid, ps[1..], after)
    ensures Reports(E, src, c, initial, pr, ps, after)
  {
    var n := after.applied - pr.applied;
    MutationsFirst(E, src, c, initial, pr, ps, mid, d, b, n);
    PushedFirst(pr.batches, b, after.batches);
    BatchAppend(d.mutations, Mutations(E, src, mid.m, c, mid.state, ps[1..][..n - 1]), b,
                JoinAll(after.batches[|mid.batches|..]), initial);
  }

  lemma ReportsNothing(E: Env, src: KeySource, c: Collection, initial: bool, pr: Progress, ps: seq<Patch>, after: Progress)
    requires after.applied == pr.applied && after.batches == pr.batches
    ensures Reports(E, src, c, initial, pr, ps, after)
  {
    assert ps[..0] == [];
    assert after.batches[|pr.batches|..] == [];
  }

  /**
   However a run ends, the batches it has collected, joined in order, are the events of
   exactly the patches it has applied: there is nothing for a patch that was not
   applied, and nothing of an applied one is missing. A run that fails collects them
   in vain: `SyncReturns.EventsReachIff`.
   */
  lemma {:induction false} RunReports(E: Env, src: KeySource, c: Collection, initial: bool, pr: Progress, ps: seq<Patch>)
    requires Anchored(c, pr)
    ensures Reports(E, src, c, initial, pr, ps, Patches(E, src, c, initial, pr, ps).progress)
    decreases |ps|
  {
    if ps == [] {
      ReportsNothing(E, src, c, initial, pr, [], pr);
    } else {
      var r := Step(E, src, c, initial, pr, ps[0]);
      PatchesStep(E, src, c, initial, pr, ps);
      StepExplained(E, src, c, initial, pr, ps[0]);
      if r.end.Finished? {
        var d, b := StepReported(E, src, c, initial, pr, ps[0]);
        RunReports(E, src, c, initial, r.progress, ps[1..]);
        ReportsCons(E, src, c, initial, pr, ps, r.progress, d, b, Patches(E, src, c, initial, r.progress, ps[1..]).progress);
      } else {
        ReportsNothing(E, src, c, initial, pr, ps, r.progress);
      }
    }
  }

  // ----- Snapshots -----------------------------------------------------------------

  /** A stored snapshot reports what its records report during the initial sync, and so deletes no chat. */
  lemma SnapshotReports(m: Contents, d: DecodedSnapshot)
    requires ApplySnapshot(m, d).Ok?
    ensures DecodedBatch(d.mutations, true) == Ok(ApplySnapshot(m, d).value.batch)
    ensures ApplySnapshot(m, d).value.batch.chatsDelete == []
  {
    InitialDeletesNothing(ReportedOfAll(d.mutations));
  }
}
