/** How a connection ends, and whether that is announced (crates/wa-core/src/connection.rs). */
module ConnectionEnds {
  import opened Prelude
  import opened Queries
  import opened Connection
  import opened ConnectionSafety

  /**
   In every interleaving: at most one Closed event, only after the table has been
   drained; the sink is closed at most once; and the frames handed to it are a
   prefix, in order, of those enqueued before the first close command.
   */
  lemma ClosesOnce(s: State)
    requires Reachable(s)
    ensures CountClosed(s.events) <= 1
    ensures CountClosed(s.events) == 1 ==> s.closed && s.drained
    ensures s.sinkCloses <= 1
    ensures s.sink <= FramesOf(BeforeClose(s.posted))
  {
    ReachableIsGood(s);
    SinkIsPrefix(s.posted, s.taken, s.outbound, s.sink, s.sinkCloses);
  }

  /** When `close` is over, for whatever reason, the connection is closed and its table has been drained. */
  lemma CloseReturnsClosed(s: State, k: nat)
    requires Reachable(s) && k < |s.closers| && s.closers[k].pc.Finished?
    ensures s.closed && s.drained
  {
    ReachableIsGood(s);
  }

  /** A finished outbound task, whether it failed or not, leaves a closed connection. */
  lemma OutboundEndsClosed(s: State)
    requires Reachable(s) && s.outbound.OutDone?
    ensures s.closed
  {
    ReachableIsGood(s);
  }

  // ----- How the parties end --------------------------------------------------------

  /** A join fails only on a failed task. */
  predicate JoinsInv(closers: seq<Closer>, outbound: OutPc) {
    forall k :: 0 <= k < |closers| && closers[k].pc == Finished(JoinFailed) ==> outbound == OutDone(false)
  }

  /** The inbound loop ends with the connection or with a lost frame. */
  predicate LostInv(inbound: InPc, stoppable: bool, closed: bool, fates: seq<Fate>) {
    && (!stoppable ==> closed)
    && (inbound.InDone? ==> closed || (fates != [] && fates[|fates| - 1].Lost?))
    && (forall i :: 0 <= i < |fates| && fates[i].Lost? ==> inbound.InDone? && i == |fates| - 1)
  }

  predicate EndsInv(s: State) {
    JoinsInv(s.closers, s.outbound) && LostInv(s.inbound, s.inboundStoppable, s.closed, s.fates)
  }

  /** The closer that takes the step ends as `JoinFailed` only on a failed task. */
  predicate JoinsRightly(k: Closer, outbound: OutPc) {
    k.pc == Finished(JoinFailed) ==> outbound == OutDone(false)
  }

  lemma JoinFails(s: State, i: nat, step: CloserStep)
    requires i < |s.closers| && DoCloser(s, i, step).Some?
    ensures var t := DoCloser(s, i, step).value; i < |t.closers| && JoinsRightly(t.closers[i], s.outbound)
  {
    match step {
      case Swap =>
      case Drain =>
      case Post =>
      case Take =>
      case Join =>
      case Stop =>
      case Halt =>
      case Announce =>
      case Abandon =>
    }
  }

  lemma CloserJoins(s: State, i: nat, step: CloserStep)
    requires JoinsInv(s.closers, s.outbound) && i < |s.closers| && DoCloser(s, i, step).Some?
    ensures JoinsInv(DoCloser(s, i, step).value.closers, DoCloser(s, i, step).value.outbound)
  {
    CloserLeaves(s, i, step);
    CloserLeavesOthers(s, i, step);
    JoinFails(s, i, step);
  }

  /** What the inbound task depends on is only touched by turning the flag and by asking for an abort. */
  lemma CloserLost(s: State, i: nat, step: CloserStep)
    requires ClosersInv(s.closers, s.winner, s.closed, s.drained) && LostInv(s.inbound, s.inboundStoppable, s.closed, s.fates)
    requires i < |s.closers| && DoCloser(s, i, step).Some?
    ensures var t := DoCloser(s, i, step).value; LostInv(t.inbound, t.inboundStoppable, t.closed, t.fates)
  {
    match step {
      case Swap =>
      case Drain =>
      case Post =>
      case Take =>
      case Join =>
      case Stop =>
      case Halt =>
      case Announce =>
      case Abandon =>
    }
  }

  lemma OutboundEnds(s: State, step: OutStep)
    requires EndsInv(s) && DoOutbound(s, step).Some?
    ensures EndsInv(DoOutbound(s, step).value)
  {
    match step {
      case TakeCommand =>
      case Sent(_) =>
      case SinkClosed(_) =>
      case OutSwap =>
      case OutDrain =>
      case OutAnnounce =>
    }
  }

  lemma TryEnds(s: State, tag: Tag, i: nat, otherwise: InPc)
    requires EndsInv(s) && !s.inbound.InDone? && !otherwise.InDone?
    ensures EndsInv(TryResolve(s, tag, i, otherwise))
  {
    TryLeaves(s, tag, i, otherwise);
  }

  lemma InboundEnds(s: State, step: InStep)
    requires s in Good() && EndsInv(s) && DoInbound(s, step).Some?
    ensures EndsInv(DoInbound(s, step).value)
  {
    match step {
      case Arrive(_) =>
      case StreamEnds =>
      case TryTag =>
        var f := s.received[s.inbound.index];
        if f.tag.Some? {
          TryEnds(s, f.tag.value, s.inbound.index, InNode(s.inbound.index));
        }
      case TryNode =>
        var f := s.received[s.inbound.index];
        if f.node.Some? && f.node.value.Some? {
          TryEnds(s, f.node.value.value, s.inbound.index, InEmit(s.inbound.index));
        }
      case Fail =>
      case EmitFrame =>
      case InSwap =>
      case InDrain =>
      case InAnnounce =>
      case Aborted =>
    }
  }

  lemma EndsStep(s: State, step: Step)
    requires s in Good() && EndsInv(s) && Do(s, step).Some?
    ensures EndsInv(Do(s, step).value)
  {
    match step {
      case OfQuery(c, k) => QueryLeaves(s, c, k);
      case OfCloser(i, k) =>
        CloserJoins(s, i, k);
        CloserLost(s, i, k);
      case OfOutbound(k) => OutboundEnds(s, k);
      case OfInbound(k) => InboundEnds(s, k);
      case OfSender(i) => SenderLeaves(s, i);
      case _ =>
    }
  }

  lemma {:induction false} EndsAlways(s: State, steps: seq<Step>)
    requires s in Good() && EndsInv(s) && Exec(s, steps).Some?
    ensures EndsInv(Exec(s, steps).value)
    decreases |steps|
  {
    if steps != [] {
      StepKeeps(s, steps[0]);
      EndsStep(s, steps[0]);
      EndsAlways(Do(s, steps[0]).value, steps[1..]);
    }
  }

  lemma ReachableEnds(s: State)
    requires Reachable(s)
    ensures s in Good() && EndsInv(s)
  {
    ReachableIsGood(s);
    var start, steps :| Fresh(start) && Exec(start, steps) == Some(s);
    FreshIsGood(start);
    EndsAlways(start, steps);
  }

  // ----- Whether the end is announced ------------------------------------------------

  /** The one party that could announce the end has finished. */
  predicate Settled(s: State) {
    match s.winner
    case Nobody => false
    case ByCloser(k) => k < |s.closers| && s.closers[k].pc.Finished?
    case ByOutbound => s.outbound.OutDone?
    case ByInbound => s.inbound.InDone?
  }

  /** The call of `close` that set the flag did not run through. */
  predicate CutShort(s: State) {
    && s.winner.ByCloser? && s.winner.closer < |s.closers|
    && s.closers[s.winner.closer].pc.Finished?
    && !s.closers[s.winner.closer].pc.end.Completed?
  }

  /** Nothing that decides about the announcement has changed. */
  predicate Decided(s: State, t: State) {
    && t.winner == s.winner
    && Settled(t)
    && (CutShort(t) <==> CutShort(s))
  }

  lemma DecidedCloser(s: State, i: nat, step: CloserStep)
    requires s in Good() && Settled(s) && i < |s.closers| && DoCloser(s, i, step).Some?
    ensures Decided(s, DoCloser(s, i, step).value)
  {
    match step {
      case Swap =>
      case Drain =>
      case Post =>
      case Take =>
      case Join =>
      case Stop =>
      case Halt =>
      case Announce =>
      case Abandon =>
    }
  }

  lemma DecidedOutbound(s: State, step: OutStep)
    requires s in Good() && Settled(s) && DoOutbound(s, step).Some?
    ensures Decided(s, DoOutbound(s, step).value)
  {
    match step {
      case TakeCommand =>
      case Sent(_) =>
      case SinkClosed(_) =>
      case OutSwap =>
      case OutDrain =>
      case OutAnnounce =>
    }
  }

  lemma DecidedInbound(s: State, step: InStep)
    requires s in Good() && Settled(s) && DoInbound(s, step).Some?
    ensures Decided(s, DoInbound(s, step).value)
  {
    match step {
      case Arrive(_) =>
      case StreamEnds =>
      case TryTag =>
        var f := s.received[s.inbound.index];
        if f.tag.Some? {
          TryLeaves(s, f.tag.value, s.inbound.index, InNode(s.inbound.index));
        }
      case TryNode =>
        var f := s.received[s.inbound.index];
        if f.node.Some? && f.node.value.Some? {
          TryLeaves(s, f.node.value.value, s.inbound.index, InEmit(s.inbound.index));
        }
      case Fail =>
      case EmitFrame =>
      case InSwap =>
      case InDrain =>
      case InAnnounce =>
      case Aborted =>
    }
  }

  lemma DecidedStep(s: State, step: Step)
    requires s in Good() && Settled(s) && Do(s, step).Some?
    ensures Decided(s, Do(s, step).value)
  {
    match step {
      case OfQuery(c, k) => QueryLeaves(s, c, k);
      case OfCloser(i, k) => DecidedCloser(s, i, k);
      case OfOutbound(k) => DecidedOutbound(s, k);
      case OfInbound(k) => DecidedInbound(s, k);
      case OfSender(i) => SenderLeaves(s, i);
      case _ =>
    }
  }

  lemma {:induction false} DecidedAlways(s: State, steps: seq<Step>)
    requires s in Good() && Settled(s) && Exec(s, steps).Some?
    ensures Exec(s, steps).value in Good() && Decided(s, Exec(s, steps).value)
    decreases |steps|
  {
    if steps != [] {
      StepKeeps(s, steps[0]);
      DecidedStep(s, steps[0]);
      DecidedAlways(Do(s, steps[0]).value, steps[1..]);
    }
  }

  lemma SettledCount(s: State)
    requires s in Good() && Settled(s)
    ensures CountClosed(s.events) == if CutShort(s) then 0 else 1
  {
  }

  /**
   Once the party that set the flag has finished, it is decided for every further
   run whether the end is announced: it is, exactly once, unless that party was a
   call of `close` that was dropped or whose join failed, and then it never is.
   */
  lemma EndAnnouncedIff(s: State, steps: seq<Step>)
    requires Reachable(s) && Settled(s) && Exec(s, steps).Some?
    ensures CountClosed(Exec(s, steps).value.events) == if CutShort(s) then 0 else 1
  {
    ReachableIsGood(s);
    DecidedAlways(s, steps);
    SettledCount(Exec(s, steps).value);
  }

  /** A join fails exactly on an outbound task that has ended with an error, and until the party has finished nothing is announced. */
  lemma JoinFailedMeansFailed(s: State)
    requires Reachable(s)
    ensures forall k :: 0 <= k < |s.closers| && s.closers[k].pc == Finished(JoinFailed) ==> s.outbound == OutDone(false)
    ensures !Settled(s) ==> CountClosed(s.events) == 0
  {
    ReachableEnds(s);
  }

  /** A run in which a send fails while `close` is under way, so that joining the outbound task cuts it short. */
  lemma JoinCutsShort(frame: Bytes) returns (s: State)
    ensures Reachable(s) && CutShort(s) && s.closers == [Closer(Finished(JoinFailed), false)]
  {
    s := FreshExists();
    s := Next(s, Spawned);
    s := Next(s, NewSender(frame));
    s := Next(s, OfSender(0));
    s := Next(s, OfSender(0));
    s := Next(s, OfOutbound(TakeCommand));
    s := Next(s, NewCloser);
    s := Next(s, OfCloser(0, Swap));
    s := Next(s, OfOutbound(Sent(false)));
    s := Next(s, OfOutbound(OutSwap));
    s := Next(s, OfCloser(0, Drain));
    s := Next(s, OfCloser(0, Post));
    s := Next(s, OfCloser(0, Take));
    s := Next(s, OfCloser(0, Join));
    CutShortAt(s);
  }

  /** After that run nobody ever announces the end, however it goes on. */
  lemma EndNeverAnnounced(frame: Bytes) returns (s: State)
    ensures Reachable(s) && s.closed
    ensures forall steps :: Exec(s, steps).Some? ==> CountClosed(Exec(s, steps).value.events) == 0
  {
    s := JoinCutsShort(frame);
    CloseReturnsClosed(s, 0);
    forall steps | Exec(s, steps).Some? ensures CountClosed(Exec(s, steps).value.events) == 0 {
      EndAnnouncedIff(s, steps);
    }
  }

  /** A run in which `close` is dropped before it has told the outbound task, which goes on taking commands. */
  lemma DropCutsShort() returns (s: State)
    ensures Reachable(s) && CutShort(s) && s.closers == [Closer(Finished(Abandoned), false)]
    ensures s.outbound.OutReady? && s.inbound.InReady? && s.posted == []
  {
    s := FreshExists();
    s := Next(s, Spawned);
    s := Next(s, NewCloser);
    s := Next(s, OfCloser(0, Swap));
    s := Next(s, OfCloser(0, Drain));
    s := Next(s, OfCloser(0, Abandon));
    CutShortAt(s);
  }

  lemma CutShortAt(s: State)
    requires Reachable(s) && s.closed && |s.closers| == 1 && !s.closers[0].wasClosed
    requires s.closers[0].pc.Finished? && !s.closers[0].pc.end.Completed?
    ensures CutShort(s)
  {
    ReachableIsGood(s);
    assert s.winner == ByCloser(0);
  }

  // ----- Whether the end is announced first --------------------------------------------

  /** Before `spawn` has returned nobody but the two tasks is there. */
  predicate Unspawned(s: State) {
    && s.q.callers == [] && s.senders == [] && s.closers == [] && s.posted == [] && s.taken == 0
    && s.outbound.OutReady?
  }

  predicate SpawnInv(s: State) {
    !s.spawned ==> Unspawned(s)
  }

  lemma SpawnInbound(s: State, step: InStep)
    requires SpawnInv(s) && DoInbound(s, step).Some?
    ensures SpawnInv(DoInbound(s, step).value) && DoInbound(s, step).value.spawned == s.spawned
  {
    match step {
      case Arrive(_) =>
      case StreamEnds =>
      case TryTag =>
        var f := s.received[s.inbound.index];
        if f.tag.Some? {
          TryLeaves(s, f.tag.value, s.inbound.index, InNode(s.inbound.index));
        }
      case TryNode =>
        var f := s.received[s.inbound.index];
        if f.node.Some? && f.node.value.Some? {
          TryLeaves(s, f.node.value.value, s.inbound.index, InEmit(s.inbound.index));
        }
      case Fail =>
      case EmitFrame =>
      case InSwap =>
      case InDrain =>
      case InAnnounce =>
      case Aborted =>
    }
  }

  lemma SpawnOutbound(s: State, step: OutStep)
    requires SpawnInv(s) && DoOutbound(s, step).Some?
    ensures s.spawned && DoOutbound(s, step).value.spawned
  {
  }

  lemma SpawnCloser(s: State, i: nat, step: CloserStep)
    requires SpawnInv(s) && i < |s.closers| && DoCloser(s, i, step).Some?
    ensures s.spawned && DoCloser(s, i, step).value.spawned
  {
  }

  lemma SpawnQuery(s: State, c: nat, step: QueryStep)
    requires SpawnInv(s) && c < |s.q.callers| && DoQuery(s, c, step).Some?
    ensures s.spawned && DoQuery(s, c, step).value.spawned
  {
  }

  lemma SpawnStep(s: State, step: Step)
    requires SpawnInv(s) && Do(s, step).Some?
    ensures SpawnInv(Do(s, step).value)
    ensures Do(s, step).value.spawned == (s.spawned || step.Spawned?)
    ensures !s.spawned ==> step.Spawned? || step.OfInbound?
  {
    match step {
      case OfInbound(k) => SpawnInbound(s, k);
      case OfOutbound(k) => SpawnOutbound(s, k);
      case OfCloser(i, k) => SpawnCloser(s, i, k);
      case OfQuery(c, k) => SpawnQuery(s, c, k);
      case _ =>
    }
  }

  lemma {:induction false} SpawnAlways(s: State, steps: seq<Step>)
    requires SpawnInv(s) && Exec(s, steps).Some?
    ensures SpawnInv(Exec(s, steps).value)
    decreases |steps|
  {
    if steps != [] {
      SpawnStep(s, steps[0]);
      SpawnAlways(Do(s, steps[0]).value, steps[1..]);
    }
  }

  lemma UnspawnedCount(s: State)
    requires s in Good() && Unspawned(s)
    ensures CountClosed(s.events) == if s.winner.ByInbound? && s.inbound.InDone? then 1 else 0
  {
  }

  /**
   Before `spawn` has returned there is no query, no sender, no closer and nothing
   enqueued, and the end has been announced if and only if the inbound loop has
   ended, having set the flag itself.
   */
  lemma BeforeSpawn(s: State)
    requires Reachable(s) && !s.spawned
    ensures Unspawned(s)
    ensures CountClosed(s.events) == if s.winner.ByInbound? && s.inbound.InDone? then 1 else 0
  {
    ReachableIsGood(s);
    var start, steps :| Fresh(start) && Exec(start, steps) == Some(s);
    SpawnAlways(start, steps);
    UnspawnedCount(s);
  }

  /** The connection is announced as closed and later as open. */
  predicate ClosedFirst(events: seq<Event>) {
    exists i, j :: 0 <= i < j < |events| && events[i].Closed? && events[j].Opened?
  }

  /** The inbound task announces the end of its stream and later `spawn` returns. */
  predicate StreamEndedFirst(steps: seq<Step>) {
    exists i, j :: 0 <= i < j < |steps| && steps[i] == OfInbound(InAnnounce) && steps[j].Spawned?
  }

  lemma {:induction false} CountedIn(events: seq<Event>)
    ensures CountClosed(events) > 0 <==> Closed in events
    decreases |events|
  {
    if events != [] {
      CountedIn(events[1..]);
      assert events == [events[0]] + events[1..];
    }
  }

  lemma ClosedFirstAppend(events: seq<Event>, e: Event)
    ensures ClosedFirst(events + [e]) <==> ClosedFirst(events) || (e.Opened? && Closed in events)
  {
    var all := events + [e];
    if ClosedFirst(all) {
      var i, j :| 0 <= i < j < |all| && all[i].Closed? && all[j].Opened?;
      assert events[i] == all[i];
    }
    if ClosedFirst(events) {
      var i, j :| 0 <= i < j < |events| && events[i].Closed? && events[j].Opened?;
      assert all[i].Closed? && all[j].Opened?;
    }
    if e.Opened? && Closed in events {
      var i :| 0 <= i < |events| && events[i] == Closed;
      assert all[i].Closed? && all[|events|].Opened?;
    }
  }

  /** At most one event is added, and it does not announce that the connection is open. */
  predicate AddsNoOpen(s: State, t: State) {
    && |s.events| <= |t.events| <= |s.events| + 1 && s.events <= t.events
    && (|t.events| > |s.events| ==> !t.events[|s.events|].Opened?)
  }

  lemma NoOpenKeepsOrder(s: State, t: State)
    requires AddsNoOpen(s, t)
    ensures ClosedFirst(t.events) <==> ClosedFirst(s.events)
  {
    if |t.events| > |s.events| {
      assert t.events == s.events + [t.events[|s.events|]];
      ClosedFirstAppend(s.events, t.events[|s.events|]);
    }
  }

  lemma InboundAdds(s: State, step: InStep)
    requires DoInbound(s, step).Some?
    ensures AddsNoOpen(s, DoInbound(s, step).value)
    ensures Closed in DoInbound(s, step).value.events <==> Closed in s.events || step.InAnnounce?
  {
    match step {
      case Arrive(_) =>
      case StreamEnds =>
      case TryTag =>
      case TryNode =>
      case Fail =>
      case EmitFrame =>
      case InSwap =>
      case InDrain =>
      case InAnnounce => assert DoInbound(s, step).value.events[|s.events|] == Closed;
      case Aborted =>
    }
  }

  lemma CloserAdds(s: State, i: nat, step: CloserStep)
    requires i < |s.closers| && DoCloser(s, i, step).Some?
    ensures AddsNoOpen(s, DoCloser(s, i, step).value)
  {
    match step {
      case Swap =>
      case Drain =>
      case Post =>
      case Take =>
      case Join =>
      case Stop =>
      case Halt =>
      case Announce =>
      case Abandon =>
    }
  }

  lemma OutboundAdds(s: State, step: OutStep)
    requires DoOutbound(s, step).Some?
    ensures AddsNoOpen(s, DoOutbound(s, step).value)
  {
    match step {
      case TakeCommand =>
      case Sent(_) =>
      case SinkClosed(_) =>
      case OutSwap =>
      case OutDrain =>
      case OutAnnounce =>
    }
  }

  lemma StepAdds(s: State, step: Step)
    requires Do(s, step).Some? && !step.Spawned?
    ensures AddsNoOpen(s, Do(s, step).value)
  {
    match step {
      case OfInbound(k) => InboundAdds(s, k);
      case OfQuery(c, k) => QueryLeaves(s, c, k);
      case OfCloser(i, k) => CloserAdds(s, i, k);
      case OfOutbound(k) => OutboundAdds(s, k);
      case OfSender(i) => SenderLeaves(s, i);
      case _ =>
    }
  }

  predicate SpawnsIn(steps: seq<Step>) {
    exists j :: 0 <= j < |steps| && steps[j].Spawned?
  }

  lemma SpawnsInCons(steps: seq<Step>)
    requires steps != []
    ensures SpawnsIn(steps) <==> steps[0].Spawned? || SpawnsIn(steps[1..])
  {
    if SpawnsIn(steps) {
      var j :| 0 <= j < |steps| && steps[j].Spawned?;
      assert j > 0 ==> steps[1..][j - 1].Spawned?;
    }
    if SpawnsIn(steps[1..]) {
      var j :| 0 <= j < |steps[1..]| && steps[1..][j].Spawned?;
      assert steps[j + 1].Spawned?;
    }
  }

  lemma StreamEndedCons(steps: seq<Step>)
    requires steps != []
    ensures StreamEndedFirst(steps)
       <==> (steps[0] == OfInbound(InAnnounce) && SpawnsIn(steps[1..])) || StreamEndedFirst(steps[1..])
  {
    var rest := steps[1..];
    if StreamEndedFirst(steps) {
      var i, j :| 0 <= i < j < |steps| && steps[i] == OfInbound(InAnnounce) && steps[j].Spawned?;
      assert rest[j - 1].Spawned?;
      assert i > 0 ==> rest[i - 1] == OfInbound(InAnnounce);
    }
    if StreamEndedFirst(rest) {
      var i, j :| 0 <= i < j < |rest| && rest[i] == OfInbound(InAnnounce) && rest[j].Spawned?;
      assert steps[i + 1] == OfInbound(InAnnounce) && steps[j + 1].Spawned?;
    }
    if steps[0] == OfInbound(InAnnounce) && SpawnsIn(rest) {
      var j :| 0 <= j < |rest| && rest[j].Spawned?;
      assert steps[j + 1].Spawned?;
    }
  }

  lemma {:induction false} OrderAfterSpawn(s: State, steps: seq<Step>)
    requires s.spawned && Exec(s, steps).Some?
    ensures ClosedFirst(Exec(s, steps).value.events) <==> ClosedFirst(s.events)
    ensures !SpawnsIn(steps) && !StreamEndedFirst(steps)
    decreases |steps|
  {
    if steps != [] {
      var t := Do(s, steps[0]).value;
      SpawnStep(s, steps[0]);
      StepAdds(s, steps[0]);
      NoOpenKeepsOrder(s, t);
      OrderAfterSpawn(t, steps[1..]);
      SpawnsInCons(steps);
      StreamEndedCons(steps);
    }
  }

  lemma {:induction false} OrderFrom(s: State, steps: seq<Step>)
    requires !s.spawned && SpawnInv(s) && Exec(s, steps).Some?
    ensures ClosedFirst(Exec(s, steps).value.events)
       <==> ClosedFirst(s.events) || (Closed in s.events && SpawnsIn(steps)) || StreamEndedFirst(steps)
    decreases |steps|
  {
    if steps != [] {
      var t := Do(s, steps[0]).value;
      SpawnStep(s, steps[0]);
      SpawnsInCons(steps);
      StreamEndedCons(steps);
      match steps[0] {
        case Spawned =>
          ClosedFirstAppend(s.events, Opened);
          OrderAfterSpawn(t, steps[1..]);
        case OfInbound(k) =>
          InboundAdds(s, k);
          NoOpenKeepsOrder(s, t);
          OrderFrom(t, steps[1..]);
      }
    }
  }

  /**
   In every run, Closed is announced before Open if and only if the inbound task
   announces the end of its stream before `spawn` returns.
   */
  lemma ClosedFirstIff(start: State, steps: seq<Step>)
    requires Fresh(start) && Exec(start, steps).Some?
    ensures ClosedFirst(Exec(start, steps).value.events) <==> StreamEndedFirst(steps)
  {
    OrderFrom(start, steps);
  }

  /** A run in which that happens. */
  lemma ClosedBeforeOpened() returns (s: State)
    ensures Reachable(s) && s.events == [Closed, Opened]
  {
    s := FreshExists();
    s := Next(s, OfInbound(StreamEnds));
    s := Next(s, OfInbound(InSwap));
    s := Next(s, OfInbound(InDrain));
    s := Next(s, OfInbound(InAnnounce));
    s := Next(s, Spawned);
  }
}
