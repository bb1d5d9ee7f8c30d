/**
 Runs over patches put end to end, started with more keys, or started again
 (`apply_app_state_sync_response_with_store_keys`, crates/wa-core/src/app_state.rs).
 */
module SyncResume {
  import opened Prelude
  import opened StateBytes
  import opened Events
  import opened PatchProtocol
  import opened PatchTheorems
  import opened Store
  import opened SyncStore
  import opened Sync

  // ----- Putting runs end to end ---------------------------------------------

  type Stepping = (Progress, Patch) -> Run

  lemma {:induction false} SplitRun(step: Stepping, pr: Progress, ps: seq<Patch>, n: nat)
    requires n <= |ps|
    ensures var first := RunSteps(step, pr, ps[..n]);
            RunSteps(step, pr, ps) == (if first.end.Finished? then RunSteps(step, first.progress, ps[n..]) else first)
    decreases n
  {
    if n == 0 {
      assert ps[..0] == [] && ps[0..] == ps;
    } else {
      var r := step(pr, ps[0]);
      assert ps[..n][0] == ps[0] && ps[..n][1..] == ps[1..][..n - 1];
      if r.end.Finished? {
        SplitRun(step, r.progress, ps[1..], n - 1);
        assert ps[1..][n - 1..] == ps[n..];
      }
    }
  }

  // ----- More keys -----------------------------------------------------------

  /** Sync keys, new ones or ones the store already has. */
  predicate KeysOnly(extra: Contents) {
    forall k :: k in extra ==> k.ns.AppStateSyncKey?
  }

  /** Two stores with the same sync keys. */
  ghost predicate SameSyncKeys(m: Contents, n: Contents) {
    forall k: StoreKey :: k.ns.AppStateSyncKey? ==> (k in m <==> k in n) && (k in m ==> m[k] == n[k])
  }

  function Plus(pr: Progress, extra: Contents): Progress {
    pr.(m := pr.m + extra)
  }

  /** With the keys added, the key found for `p` is what it was. */
  predicate Unchanged(E: Env, src: KeySource, m: Contents, extra: Contents, p: Patch) {
    FindKey(E, src, m + extra, p) == FindKey(E, src, m, p)
  }

  lemma SameKeyFound(E: Env, src: KeySource, m: Contents, n: Contents, p: Patch)
    requires SameSyncKeys(m, n)
    ensures FindKey(E, src, m, p) == FindKey(E, src, n, p)
  {
  }

  lemma UnchangedOn(E: Env, src: KeySource, m: Contents, n: Contents, extra: Contents, p: Patch)
    requires SameSyncKeys(m, n) && Unchanged(E, src, m, extra, p)
    ensures Unchanged(E, src, n, extra, p)
  {
    SameKeyFound(E, src, m, n, p);
    SameKeyFound(E, src, m + extra, n + extra, p);
  }

  lemma SaveClearPlus(m: Contents, extra: Contents, c: Collection, b: Bytes)
    requires KeysOnly(extra)
    ensures (m + extra)[StateKey(c) := b] - {BlockedKey(c)} == (m[StateKey(c) := b] - {BlockedKey(c)}) + extra
    ensures SameSyncKeys(m, m[StateKey(c) := b] - {BlockedKey(c)})
  {
  }

  /** What applying a decoded patch does to a store, when it works, in terms of the bytes it saves. */
  lemma AppliedBytes(m: Contents, d: DecodedPatch, initial: bool)
    ensures ApplyDecoded(m, d, initial).Ok? <==> DecodedBatch(d.mutations, initial).Ok? && EncodeState(d.next).Ok?
    ensures ApplyDecoded(m, d, initial).Ok? ==>
              ApplyDecoded(m, d, initial)
              == Ok(Saved(m[StateKey(d.collection) := EncodeState(d.next).value] - {BlockedKey(d.collection)},
                          DecodedBatch(d.mutations, initial).value))
  {
  }

  lemma AdoptPlus(initial: bool, pr: Progress, d: DecodedPatch, extra: Contents)
    requires KeysOnly(extra) && Adopt(initial, pr, d).end.Finished?
    ensures var r := Adopt(initial, pr, d);
            && Adopt(initial, Plus(pr, extra), d) == Run(Plus(r.progress, extra), Finished)
            && SameSyncKeys(pr.m, r.progress.m)
  {
    AppliedBytes(pr.m, d, initial);
    AppliedBytes(pr.m + extra, d, initial);
    SaveClearPlus(pr.m, extra, d.collection, EncodeState(d.next).value);
  }

  lemma StepPlus(E: Env, src: KeySource, c: Collection, initial: bool, pr: Progress, p: Patch, extra: Contents)
    requires KeysOnly(extra) && Unchanged(E, src, pr.m, extra, p) && Step(E, src, c, initial, pr, p).end.Finished?
    ensures var r := Step(E, src, c, initial, pr, p);
            && Step(E, src, c, initial, Plus(pr, extra), p) == Run(Plus(r.progress, extra), Finished)
            && SameSyncKeys(pr.m, r.progress.m)
  {
    AdoptPlus(initial, pr, DecodePatch(E, c, pr.state, p, FindKey(E, src, pr.m, p).value.value).value, extra);
  }

  /** Keys that leave the key of its patch as it was do not change a finished step. */
  ghost predicate IgnoresKeys(E: Env, src: KeySource, step: Stepping, extra: Contents) {
    forall pr: Progress, p: Patch :: Unchanged(E, src, pr.m, extra, p) && step(pr, p).end.Finished? ==>
      && step(Plus(pr, extra), p) == Run(Plus(step(pr, p).progress, extra), Finished)
      && SameSyncKeys(pr.m, step(pr, p).progress.m)
  }

  /** Nor do they change a finished run. */
  lemma {:induction false} RunPlus(E: Env, src: KeySource, step: Stepping, pr: Progress, ps: seq<Patch>, extra: Contents)
    requires IgnoresKeys(E, src, step, extra) && RunSteps(step, pr, ps).end.Finished?
    requires forall i :: 0 <= i < |ps| ==> Unchanged(E, src, pr.m, extra, ps[i])
    ensures RunSteps(step, Plus(pr, extra), ps) == Run(Plus(RunSteps(step, pr, ps).progress, extra), Finished)
    decreases |ps|
  {
    if ps != [] {
      var next := step(pr, ps[0]).progress;
      assert Unchanged(E, src, pr.m, extra, ps[0]);
      forall i | 0 <= i < |ps[1..]| ensures Unchanged(E, src, next.m, extra, ps[1..][i]) {
        assert ps[1..][i] == ps[i + 1];
        UnchangedOn(E, src, pr.m, next.m, extra, ps[i + 1]);
      }
      RunPlus(E, src, step, next, ps[1..], extra);
    }
  }

  // ----- The blocked record is only a note ------------------------------------

  /** Two runs at the same point whose stores differ at most in the blocked record. */
  predicate SameButRecord(p: Progress, q: Progress, c: Collection) {
    p == q.(m := p.m) && ClearBlocked(p.m, c) == ClearBlocked(q.m, c)
  }

  lemma SameOwn(m: Contents, n: Contents, c: Collection, b: Bytes)
    requires ClearBlocked(m, c) == ClearBlocked(n, c)
    ensures m[BlockedKey(c) := b] == n[BlockedKey(c) := b]
    ensures m[StateKey(c) := b] - {BlockedKey(c)} == n[StateKey(c) := b] - {BlockedKey(c)}
    ensures OnlyOwn(m, n, c)
  {
    assert m[BlockedKey(c) := b] == ClearBlocked(m, c)[BlockedKey(c) := b];
    assert n[BlockedKey(c) := b] == ClearBlocked(n, c)[BlockedKey(c) := b];
    assert m[StateKey(c) := b] - {BlockedKey(c)} == ClearBlocked(m, c)[StateKey(c) := b];
    assert n[StateKey(c) := b] - {BlockedKey(c)} == ClearBlocked(n, c)[StateKey(c) := b];
    forall k | !Own(c, k) ensures (k in m <==> k in n) && (k in m ==> m[k] == n[k]) {
      assert k in m <==> k in ClearBlocked(m, c);
      assert k in n <==> k in ClearBlocked(n, c);
    }
  }

  /** Two steps that end alike, and differ only in stores that a failure has left alone. */
  predicate SameRun(r: Run, t: Run, p: Progress, q: Progress) {
    && r.end == t.end
    && (!r.end.Failed? ==> r == t)
    && (r.end.Failed? ==> r.progress == p && t.progress == q)
  }

  lemma AdoptSame(initial: bool, p: Progress, q: Progress, d: DecodedPatch)
    requires SameButRecord(p, q, d.collection)
    ensures SameRun(Adopt(initial, p, d), Adopt(initial, q, d), p, q)
  {
    AppliedBytes(p.m, d, initial);
    AppliedBytes(q.m, d, initial);
    if EncodeState(d.next).Ok? {
      SameOwn(p.m, q.m, d.collection, EncodeState(d.next).value);
    }
  }

  lemma DecodeSame(E: Env, c: Collection, initial: bool, p: Progress, q: Progress, patch: Patch, keyData: Bytes)
    requires SameButRecord(p, q, c)
    ensures SameRun(Decode(E, c, initial, p, patch, keyData), Decode(E, c, initial, q, patch, keyData), p, q)
  {
    var r := DecodePatch(E, c, p.state, patch, keyData);
    if r.Ok? {
      AcceptedCollection(E, c, p.state, patch, keyData);
      AdoptSame(initial, p, q, r.value);
    }
  }

  lemma BlockSame(c: Collection, p: Progress, q: Progress, patch: Patch)
    requires SameButRecord(p, q, c)
    ensures SameRun(Block(c, p, patch), Block(c, q, patch), p, q)
  {
    if PatchKeyId(patch).Ok? {
      var record := Blocked(PatchKeyId(patch).value, p.state.version);
      if EncodeBlocked(record).Ok? {
        SameOwn(p.m, q.m, c, EncodeBlocked(record).value);
      }
    }
  }

  lemma KeyFoundSame(E: Env, src: KeySource, c: Collection, m: Contents, n: Contents, p: Patch)
    requires ClearBlocked(m, c) == ClearBlocked(n, c)
    ensures FindKey(E, src, m, p) == FindKey(E, src, n, p)
  {
    SameOwn(m, n, c, []);
    SameKeysFound(E, src, m, n, c, p);
  }

  lemma StepSame(E: Env, src: KeySource, c: Collection, initial: bool, p: Progress, q: Progress, patch: Patch)
    requires SameButRecord(p, q, c)
    ensures SameRun(Step(E, src, c, initial, p, patch), Step(E, src, c, initial, q, patch), p, q)
  {
    KeyFoundSame(E, src, c, p.m, q.m, patch);
    match FindKey(E, src, p.m, patch) {
      case Err(_) =>
      case Ok(None) => BlockSame(c, p, q, patch);
      case Ok(Some(keyData)) => DecodeSame(E, c, initial, p, q, patch, keyData);
    }
  }

  /** A step takes no notice of a leftover record, and leaves the store alone if it fails. */
  ghost predicate IgnoresRecord(step: Stepping, c: Collection) {
    forall p, q, patch {:trigger step(p, patch), step(q, patch)} ::
      SameButRecord(p, q, c) ==> SameRun(step(p, patch), step(q, patch), p, q)
  }

  /** A leftover record changes nothing, unless the very first patch fails and leaves it where it was. */
  lemma RecordIrrelevant(step: Stepping, c: Collection, p: Progress, q: Progress, ps: seq<Patch>)
    requires IgnoresRecord(step, c) && SameButRecord(p, q, c) && ps != []
    ensures var r, t := RunSteps(step, p, ps), RunSteps(step, q, ps);
            r.end == t.end && (r == t || (r.end.Failed? && r.progress == p && t.progress == q))
  {
    assert SameRun(step(p, ps[0]), step(q, ps[0]), p, q);
  }

  // ----- Where a blocked run stopped -------------------------------------------

  /** A step counts each finished patch and notes a blocked one in the record only. */
  ghost predicate Counts(step: Stepping, c: Collection) {
    forall pr: Progress, p: Patch ::
      && (step(pr, p).end.Finished? ==> step(pr, p).progress.applied == pr.applied + 1)
      && (step(pr, p).end.BlockedOn? ==> SameButRecord(pr, step(pr, p).progress, c))
  }

  /** A run's first patches are finished and the rest has only noted a blocked record. */
  ghost predicate CameTo(step: Stepping, c: Collection, pr: Progress, ps: seq<Patch>, after: Progress) {
    && pr.applied <= after.applied < pr.applied + |ps|
    && var before := RunSteps(step, pr, ps[..after.applied - pr.applied]);
    && before.end.Finished?
    && SameButRecord(before.progress, after, c)
  }

  /** Before it stored the record, a blocked run had finished the patches up to the one it blocked on. */
  lemma {:induction false} BlockedPrefix(step: Stepping, c: Collection, pr: Progress, ps: seq<Patch>)
    requires Counts(step, c) && RunSteps(step, pr, ps).end.BlockedOn?
    ensures CameTo(step, c, pr, ps, RunSteps(step, pr, ps).progress)
    decreases |ps|
  {
    var s := step(pr, ps[0]);
    if s.end.Finished? {
      BlockedPrefix(step, c, s.progress, ps[1..]);
      var n := RunSteps(step, pr, ps).progress.applied - pr.applied;
      assert ps[..n][0] == ps[0] && ps[..n][1..] == ps[1..][..n - 1];
    } else {
      assert ps[..0] == [];
    }
  }

  /** What an uninterrupted run and an interrupted, resumed one have in common. */
  ghost predicate Resumes(step: Stepping, c: Collection, pr: Progress, ps: seq<Patch>, extra: Contents, blocked: Progress) {
    && pr.applied <= blocked.applied < pr.applied + |ps|
    && var resumed := RunSteps(step, Plus(blocked, extra), ps[blocked.applied - pr.applied..]);
    var whole := RunSteps(step, Plus(pr, extra), ps);
    && resumed.end == whole.end
    && SameButRecord(whole.progress, resumed.progress, c)
    && (resumed == whole || (resumed.end.Failed? && resumed.progress == Plus(blocked, extra)))
  }

  /** The keys of the patches that a run has applied are what they were. */
  ghost predicate AppliedUnchanged(E: Env, src: KeySource, pr: Progress, ps: seq<Patch>, extra: Contents, after: Progress) {
    forall i :: 0 <= i < |ps| && i < after.applied - pr.applied ==> Unchanged(E, src, pr.m, extra, ps[i])
  }

  lemma AppliedPlus(E: Env, src: KeySource, step: Stepping, pr: Progress, ps: seq<Patch>, n: nat, extra: Contents)
    requires n <= |ps| && IgnoresKeys(E, src, step, extra) && RunSteps(step, pr, ps[..n]).end.Finished?
    requires forall i :: 0 <= i < n ==> Unchanged(E, src, pr.m, extra, ps[i])
    ensures RunSteps(step, Plus(pr, extra), ps)
         == RunSteps(step, Plus(RunSteps(step, pr, ps[..n]).progress, extra), ps[n..])
  {
    forall i | 0 <= i < n ensures Unchanged(E, src, pr.m, extra, ps[..n][i]) {
      assert ps[..n][i] == ps[i];
    }
    RunPlus(E, src, step, pr, ps[..n], extra);
    SplitRun(step, Plus(pr, extra), ps, n);
  }

  /** The same patches are left at two points that differ in the record only. */
  lemma ResumeFrom(step: Stepping, c: Collection, pr: Progress, ps: seq<Patch>, extra: Contents, before: Progress,
                   blocked: Progress)
    requires IgnoresRecord(step, c) && SameButRecord(Plus(before, extra), Plus(blocked, extra), c)
    requires pr.applied <= blocked.applied < pr.applied + |ps|
    requires RunSteps(step, Plus(pr, extra), ps) == RunSteps(step, Plus(before, extra), ps[blocked.applied - pr.applied..])
    ensures Resumes(step, c, pr, ps, extra, blocked)
  {
    RecordIrrelevant(step, c, Plus(before, extra), Plus(blocked, extra), ps[blocked.applied - pr.applied..]);
  }

  lemma ResumeSteps(E: Env, src: KeySource, step: Stepping, c: Collection, pr: Progress, ps: seq<Patch>, extra: Contents)
    requires KeysOnly(extra) && IgnoresKeys(E, src, step, extra) && IgnoresRecord(step, c) && Counts(step, c)
    requires RunSteps(step, pr, ps).end.BlockedOn?
    requires AppliedUnchanged(E, src, pr, ps, extra, RunSteps(step, pr, ps).progress)
    ensures Resumes(step, c, pr, ps, extra, RunSteps(step, pr, ps).progress)
  {
    BlockedPrefix(step, c, pr, ps);
    var blocked := RunSteps(step, pr, ps).progress;
    var n := blocked.applied - pr.applied;
    var before := RunSteps(step, pr, ps[..n]).progress;
    AppliedPlus(E, src, step, pr, ps, n, extra);
    PlusSame(before, blocked, c, extra);
    ResumeFrom(step, c, pr, ps, extra, before, blocked);
  }

  lemma StepEnds(E: Env, src: KeySource, c: Collection, initial: bool, pr: Progress, p: Patch)
    ensures var r := Step(E, src, c, initial, pr, p);
            && (r.end.Finished? ==> r.progress.applied == pr.applied + 1)
            && (r.end.BlockedOn? ==> SameButRecord(pr, r.progress, c))
  {
    if FindKey(E, src, pr.m, p) == Ok(None) {
      BlockedHere(c, pr, p);
    }
  }

  lemma BlockedHere(c: Collection, pr: Progress, p: Patch)
    ensures SameButRecord(pr, Block(c, pr, p).progress, c) && !Block(c, pr, p).end.Finished?
  {
    assert ClearBlocked(Block(c, pr, p).progress.m, c) == ClearBlocked(pr.m, c);
  }

  lemma StepperIgnoresKeys(E: Env, src: KeySource, c: Collection, initial: bool, extra: Contents)
    requires KeysOnly(extra)
    ensures IgnoresKeys(E, src, Stepper(E, src, c, initial), extra)
  {
    var step := Stepper(E, src, c, initial);
    forall pr: Progress, p: Patch | Unchanged(E, src, pr.m, extra, p) && step(pr, p).end.Finished?
      ensures step(Plus(pr, extra), p) == Run(Plus(step(pr, p).progress, extra), Finished)
      ensures SameSyncKeys(pr.m, step(pr, p).progress.m)
    {
      StepPlus(E, src, c, initial, pr, p, extra);
    }
  }

  lemma StepperIgnoresRecord(E: Env, src: KeySource, c: Collection, initial: bool)
    ensures IgnoresRecord(Stepper(E, src, c, initial), c)
  {
    var step := Stepper(E, src, c, initial);
    forall p, q, patch | SameButRecord(p, q, c)
      ensures SameRun(step(p, patch), step(q, patch), p, q)
    {
      StepSame(E, src, c, initial, p, q, patch);
    }
  }

  lemma StepperCounts(E: Env, src: KeySource, c: Collection, initial: bool)
    ensures Counts(Stepper(E, src, c, initial), c)
  {
    var step := Stepper(E, src, c, initial);
    forall pr, p
      ensures step(pr, p).end.Finished? ==> step(pr, p).progress.applied == pr.applied + 1
      ensures step(pr, p).end.BlockedOn? ==> SameButRecord(pr, step(pr, p).progress, c)
    {
      StepEnds(E, src, c, initial, pr, p);
    }
  }

  /**
   Blocking and resuming loses nothing: a run that blocks, continued over the
   remaining patches once keys have arrived, ends like one uninterrupted run with
   those keys: in the same way, at the same state, with the same batches and the
   same store, except that if the continuation fails on its very first patch the
   blocked record is still there. Stored keys may arrive again; only the keys of
   patches already applied must not change.
   */
  lemma ResumeIsWhole(E: Env, src: KeySource, c: Collection, initial: bool, pr: Progress, ps: seq<Patch>, extra: Contents)
    requires KeysOnly(extra) && Patches(E, src, c, initial, pr, ps).end.BlockedOn?
    requires AppliedUnchanged(E, src, pr, ps, extra, Patches(E, src, c, initial, pr, ps).progress)
    ensures Resumes(Stepper(E, src, c, initial), c, pr, ps, extra, Patches(E, src, c, initial, pr, ps).progress)
  {
    StepperIgnoresKeys(E, src, c, initial, extra);
    StepperIgnoresRecord(E, src, c, initial);
    StepperCounts(E, src, c, initial);
    ResumeSteps(E, src, Stepper(E, src, c, initial), c, pr, ps, extra);
  }

  lemma PlusSame(p: Progress, q: Progress, c: Collection, extra: Contents)
    requires SameButRecord(p, q, c) && KeysOnly(extra)
    ensures SameButRecord(Plus(p, extra), Plus(q, extra), c)
  {
    ClearPlus(p.m, extra, c);
    ClearPlus(q.m, extra, c);
  }

  lemma ClearPlus(m: Contents, extra: Contents, c: Collection)
    requires KeysOnly(extra)
    ensures ClearBlocked(m + extra, c) == ClearBlocked(m, c) + extra
  {
  }

  // ----- Where a run starts counting -------------------------------------------

  /** The same point in a run that had already applied and reported something. */
  function Rebase(pr: Progress, applied: nat, batches: seq<Batch>): Progress {
    pr.(applied := applied + pr.applied, batches := batches + pr.batches)
  }

  ghost predicate IgnoresBase(step: Stepping) {
    forall pr: Progress, p: Patch, n: nat, bs: seq<Batch> {:trigger step(Rebase(pr, n, bs), p)} ::
      step(Rebase(pr, n, bs), p) == Run(Rebase(step(pr, p).progress, n, bs), step(pr, p).end)
  }

  lemma {:induction false} RunRebase(step: Stepping, pr: Progress, ps: seq<Patch>, n: nat, bs: seq<Batch>)
    requires IgnoresBase(step)
    ensures RunSteps(step, Rebase(pr, n, bs), ps)
         == Run(Rebase(RunSteps(step, pr, ps).progress, n, bs), RunSteps(step, pr, ps).end)
    decreases |ps|
  {
    if ps != [] {
      assert step(Rebase(pr, n, bs), ps[0]) == Run(Rebase(step(pr, ps[0]).progress, n, bs), step(pr, ps[0]).end);
      if step(pr, ps[0]).end.Finished? {
        RunRebase(step, step(pr, ps[0]).progress, ps[1..], n, bs);
      }
    }
  }

  lemma PushAfter(bs: seq<Batch>, more: seq<Batch>, b: Batch)
    ensures Push(bs + more, b) == bs + Push(more, b)
  {
    Assoc(bs, more, [b]);
  }

  lemma AdoptRebase(initial: bool, pr: Progress, d: DecodedPatch, n: nat, bs: seq<Batch>)
    ensures var r := Adopt(initial, pr, d);
            Adopt(initial, Rebase(pr, n, bs), d) == Run(Rebase(r.progress, n, bs), r.end)
  {
    if ApplyDecoded(pr.m, d, initial).Ok? {
      PushAfter(bs, pr.batches, ApplyDecoded(pr.m, d, initial).value.batch);
    }
  }

  lemma StepRebase(E: Env, src: KeySource, c: Collection, initial: bool, pr: Progress, p: Patch, n: nat, bs: seq<Batch>)
    ensures var r := Step(E, src, c, initial, pr, p);
            Step(E, src, c, initial, Rebase(pr, n, bs), p) == Run(Rebase(r.progress, n, bs), r.end)
  {
    var key := FindKey(E, src, pr.m, p);
    if key.Ok? && key.value.Some? {
      var d := DecodePatch(E, c, pr.state, p, key.value.value);
      if d.Ok? {
        AdoptRebase(initial, pr, d.value, n, bs);
      }
    }
  }

  lemma StepperIgnoresBase(E: Env, src: KeySource, c: Collection, initial: bool)
    ensures IgnoresBase(Stepper(E, src, c, initial))
  {
    var step := Stepper(E, src, c, initial);
    forall pr: Progress, p: Patch, n: nat, bs: seq<Batch>
      ensures step(Rebase(pr, n, bs), p) == Run(Rebase(step(pr, p).progress, n, bs), step(pr, p).end)
    {
      StepRebase(E, src, c, initial, pr, p, n, bs);
    }
  }
}
