/** What queries may rely on in every run (crates/wa-core/src/connection.rs). */
module ConnectionTheorems {
  import opened Prelude
  import opened Queries
  import opened Connection
  import opened ConnectionSafety

  // ----- Queries -----------------------------------------------------------------

  /**
   No query is stranded by closing. Once some closer has drained the table, a query
   that waits has been answered or woken, and whatever is still in the table belongs
   to a query that has registered and not passed the closed flag, or is giving up.
   */
  lemma NoQueryStranded(s: State, c: nat)
    requires Reachable(s) && s.drained && c < |s.q.callers|
    ensures s.closed
    ensures s.q.callers[c].pc.Waiting? ==> DoQuery(s, c, Wake).Some?
    ensures Held(s.q, c) ==> s.q.callers[c].pc.Checking? || s.q.callers[c].pc.Leaving?
  {
    ReachableIsGood(s);
    if s.q.callers[c].pc.Waiting? {
      NoneStranded(s.q, s.closed, c);
    }
  }

  /** How a query ends that had not passed the closed flag when the flag was set. */
  predicate Refusal(a: Answer) {
    a.ConnectionClosed? || a.DuplicateTag? || a.Unsendable?
  }

  predicate TurnedAway(s: State, c: nat) {
    && s.closed && c < |s.q.callers|
    && match s.q.callers[c].pc {
         case Registering => true
         case Checking => true
         case Leaving(a) => Refusal(a)
         case Done(a) => Refusal(a)
         case _ => false
       }
  }

  /** The flag stays set and the query stays where it is. */
  predicate Untouched(s: State, t: State, c: nat) {
    (s.closed ==> t.closed) && PcKept(s.q.callers, t.q.callers, c)
  }

  /** Another query moves on, and that is all. */
  lemma OtherMoves(s: State, t: State, d: nat, pc: Pc, c: nat)
    requires c < |s.q.callers| && d < |s.q.callers| && c != d
    requires t.q == WithPc(s.q, d, pc) && t.closed == s.closed
    ensures Untouched(s, t, c)
  {
  }

  lemma OtherQueries(s: State, d: nat, step: QueryStep, c: nat)
    requires c < |s.q.callers| && d < |s.q.callers| && c != d && DoQuery(s, d, step).Some?
    ensures Untouched(s, DoQuery(s, d, step).value, c)
  {
    var k := s.q.callers[d];
    var t := DoQuery(s, d, step).value;
    match step {
      case Register => RegisterOthers(s.q, d, c);
      case Refuse => OtherMoves(s, t, d, Leaving(Unsendable), c);
      case CheckFlag => OtherMoves(s, t, d, if s.closed then Leaving(ConnectionClosed) else Sending, c);
      case Enqueue => OtherMoves(s, t, d, if QueueOpen(s) then Waiting else Leaving(ConnectionClosed), c);
      case Wake => OtherMoves(s, t, d, Done(if k.slot.Value? then Payload(k.slot.frame) else ConnectionClosed), c);
      case Expire => OtherMoves(s, t, d, Leaving(TimedOut), c);
      case Cancel => OtherMoves(s, t, d, Leaving(Cancelled), c);
      case Remove => LeaveOthers(s.q, d, k.pc.answer, c);
    }
  }

  lemma OtherClosers(s: State, i: nat, step: CloserStep, c: nat)
    requires c < |s.q.callers| && i < |s.closers| && DoCloser(s, i, step).Some?
    ensures Untouched(s, DoCloser(s, i, step).value, c)
  {
    if step.Drain? {
      DrainOthers(s.q, c);
    } else {
      CloserLeavesQueries(s, i, step);
    }
  }

  predicate Leaves(s: State, t: State) {
    t.q == s.q && (s.closed ==> t.closed)
  }

  lemma CloserLeavesQueries(s: State, i: nat, step: CloserStep)
    requires i < |s.closers| && !step.Drain? && DoCloser(s, i, step).Some?
    ensures Leaves(s, DoCloser(s, i, step).value)
  {
    match step {
      case Swap =>
      case Post =>
      case Take =>
      case Join =>
      case Stop =>
      case Halt =>
      case Announce =>
      case Abandon =>
    }
  }

  lemma OtherOutbound(s: State, step: OutStep, c: nat)
    requires c < |s.q.callers| && DoOutbound(s, step).Some?
    ensures Untouched(s, DoOutbound(s, step).value, c)
  {
    if step.OutDrain? {
      DrainOthers(s.q, c);
    }
  }

  lemma TryOthers(s: State, tag: Tag, i: nat, otherwise: InPc, c: nat)
    requires c < |s.q.callers|
    ensures Untouched(s, TryResolve(s, tag, i, otherwise), c)
  {
    ResolveOthers(s.q, tag, i, c);
  }

  lemma OtherInbound(s: State, step: InStep, c: nat)
    requires c < |s.q.callers| && DoInbound(s, step).Some?
    ensures Untouched(s, DoInbound(s, step).value, c)
  {
    match step {
      case TryTag =>
        var f := s.received[s.inbound.index];
        if f.tag.Some? {
          TryOthers(s, f.tag.value, s.inbound.index, InNode(s.inbound.index), c);
        }
      case TryNode =>
        var f := s.received[s.inbound.index];
        if f.node.Some? && f.node.value.Some? {
          TryOthers(s, f.node.value.value, s.inbound.index, InEmit(s.inbound.index), c);
        }
      case InDrain => DrainOthers(s.q, c);
      case _ =>
    }
  }

  lemma OwnStep(s: State, c: nat, step: QueryStep)
    requires TurnedAway(s, c) && DoQuery(s, c, step).Some?
    ensures TurnedAway(DoQuery(s, c, step).value, c)
  {
  }

  lemma UntouchedTurnedAway(s: State, t: State, c: nat)
    requires TurnedAway(s, c) && Untouched(s, t, c)
    ensures TurnedAway(t, c)
  {
  }

  lemma TurnedAwayStep(s: State, c: nat, step: Step)
    requires TurnedAway(s, c) && Do(s, step).Some?
    ensures TurnedAway(Do(s, step).value, c)
  {
    match step {
      case OfQuery(d, k) =>
        if d == c {
          OwnStep(s, c, k);
        } else {
          OtherQueries(s, d, k, c);
          UntouchedTurnedAway(s, Do(s, step).value, c);
        }
      case OfCloser(i, k) =>
        OtherClosers(s, i, k, c);
        UntouchedTurnedAway(s, Do(s, step).value, c);
      case OfOutbound(k) =>
        OtherOutbound(s, k, c);
        UntouchedTurnedAway(s, Do(s, step).value, c);
      case OfInbound(k) =>
        OtherInbound(s, k, c);
        UntouchedTurnedAway(s, Do(s, step).value, c);
      case OfSender(i) =>
        UntouchedTurnedAway(s, Do(s, step).value, c);
      case _ =>
        UntouchedTurnedAway(s, Do(s, step).value, c);
    }
  }

  /**
   A query that has not yet read the closed flag when the connection closes is
   refused: over any further run it can end only with an error, and never sends.
   */
  lemma {:induction false} ClosedTurnsAway(s: State, c: nat, steps: seq<Step>)
    requires TurnedAway(s, c) && Exec(s, steps).Some?
    ensures TurnedAway(Exec(s, steps).value, c)
    decreases |steps|
  {
    if steps != [] {
      TurnedAwayStep(s, c, steps[0]);
      ClosedTurnsAway(Do(s, steps[0]).value, c, steps[1..]);
    }
  }

  /**
   An answer is a received frame that carries the query's tag, no other query gets
   that frame, and no event reports it.
   */
  lemma AnswersBelong(s: State, c: nat, i: nat)
    requires Reachable(s) && c < |s.q.callers| && s.q.callers[c].pc == Done(Payload(i))
    ensures i < |s.received| && Addressed(s.received[i], s.q.callers[c].tag)
    ensures forall d :: 0 <= d < |s.q.callers| && s.q.callers[d].pc == Done(Payload(i)) ==> d == c
    ensures i !in FrameEvents(s.events)
  {
    ReachableIsGood(s);
    UnmatchedOnly(s.fates, i);
  }

  lemma {:induction false} UnmatchedOnly(fates: seq<Fate>, i: nat)
    ensures i in Unmatched(fates) <==> i < |fates| && fates[i].ToEvents?
    decreases |fates|
  {
    if fates != [] {
      UnmatchedOnly(fates[..|fates| - 1], i);
    }
  }

  /**
   Every frame that the inbound loop has finished with was handed to one query, or
   was reported as an event, or was lost with the loop; and events come in the
   order of their frames.
   */
  lemma FramesAccounted(s: State, i: nat)
    requires Reachable(s) && i < |s.fates|
    ensures |s.received| <= |s.fates| + 1
    ensures FrameEvents(s.events) == Unmatched(s.fates)
    ensures i in FrameEvents(s.events) <==> s.fates[i].ToEvents?
    ensures s.fates[i].ToQuery? ==> s.fates[i].caller < |s.q.callers| && s.q.callers[s.fates[i].caller].slot == Value(i)
  {
    ReachableIsGood(s);
    UnmatchedOnly(s.fates, i);
  }

  /** The request of a query that waits or has been answered is among the commands enqueued. */
  predicate Asked(k: Caller, posted: seq<Command>) {
    k.pc.Waiting? || (k.pc.Done? && k.pc.answer.Payload?) ==> SendFrame(k.frame) in posted
  }

  predicate AllAsked(s: State) {
    forall c :: 0 <= c < |s.q.callers| ==> Asked(s.q.callers[c], s.posted)
  }

  /** Nothing enqueued is taken back, and other queries stay where they are. */
  predicate OthersKept(s: State, t: State, c: nat) {
    && s.posted <= t.posted
    && |t.q.callers| == |s.q.callers|
    && forall d :: 0 <= d < |s.q.callers| && d != c ==> PcKept(s.q.callers, t.q.callers, d)
  }

  lemma KeptAsked(s: State, t: State, c: nat)
    requires AllAsked(s) && OthersKept(s, t, c)
    requires c < |t.q.callers| ==> Asked(t.q.callers[c], t.posted)
    ensures AllAsked(t)
  {
    forall d | 0 <= d < |t.q.callers| ensures Asked(t.q.callers[d], t.posted) {
      if d != c {
        assert PcKept(s.q.callers, t.q.callers, d);
      }
    }
  }

  lemma RegisteredPc(q: Pending, c: nat)
    requires c < |q.callers|
    ensures |RegisterTag(q, c).callers| == |q.callers|
    ensures var pc := RegisterTag(q, c).callers[c].pc; pc.Checking? || pc == Leaving(DuplicateTag)
  {
    DropOne(q.callers, EntryFor(q.waiters, q.callers[c].tag));
  }

  lemma LeftPc(q: Pending, c: nat, answer: Answer)
    requires c < |q.callers|
    ensures |Leave(q, c, answer).callers| == |q.callers|
    ensures Leave(q, c, answer).callers[c].pc == Done(answer)
  {
    DropOne(q.callers, EntryFor(q.waiters, q.callers[c].tag));
  }

  /** The query itself moves on: it waits only once its request is enqueued, and is answered only from waiting. */
  ghost predicate OwnMove(s: State, t: State, c: nat) {
    && c < |t.q.callers| == |s.q.callers|
    && s.posted <= t.posted
    && Asked(t.q.callers[c], t.posted)
  }

  lemma OwnEnqueue(s: State, c: nat)
    requires c < |s.q.callers| && DoQuery(s, c, Enqueue).Some?
    ensures OwnMove(s, DoQuery(s, c, Enqueue).value, c)
  {
    var t := DoQuery(s, c, Enqueue).value;
    if QueueOpen(s) {
      assert t.posted[|s.posted|] == SendFrame(s.q.callers[c].frame);
    }
  }

  lemma OwnAsked(s: State, c: nat, step: QueryStep)
    requires c < |s.q.callers| && Asked(s.q.callers[c], s.posted) && DoQuery(s, c, step).Some?
    requires PayloadInv(s.q)
    ensures OwnMove(s, DoQuery(s, c, step).value, c)
  {
    match step {
      case Register => RegisteredPc(s.q, c);
      case Enqueue => OwnEnqueue(s, c);
      case Remove => LeftPc(s.q, c, s.q.callers[c].pc.answer);
      case Refuse =>
      case CheckFlag =>
      case Wake =>
      case Expire =>
      case Cancel =>
    }
  }

  lemma QueryAsked(s: State, c: nat, step: QueryStep)
    requires AllAsked(s) && PayloadInv(s.q) && c < |s.q.callers| && DoQuery(s, c, step).Some?
    ensures AllAsked(DoQuery(s, c, step).value)
  {
    var t := DoQuery(s, c, step).value;
    OwnAsked(s, c, step);
    forall d | 0 <= d < |s.q.callers| && d != c ensures PcKept(s.q.callers, t.q.callers, d) {
      OtherQueries(s, c, step, d);
    }
    KeptAsked(s, t, c);
  }

  lemma CloserPosted(s: State, i: nat, step: CloserStep)
    requires i < |s.closers| && DoCloser(s, i, step).Some?
    ensures s.posted <= DoCloser(s, i, step).value.posted
    ensures |DoCloser(s, i, step).value.q.callers| == |s.q.callers|
  {
    match step {
      case Swap =>
      case Drain =>
      case Post =>
      case Take =>
      case Join =>
      case Stop =>
      case Halt =>
      case Announce =>
      case Abandon =>
    }
  }

  lemma OutboundPosted(s: State, step: OutStep)
    requires DoOutbound(s, step).Some?
    ensures DoOutbound(s, step).value.posted == s.posted
    ensures |DoOutbound(s, step).value.q.callers| == |s.q.callers|
  {
    match step {
      case TakeCommand =>
      case Sent(_) =>
      case SinkClosed(_) =>
      case OutSwap =>
      case OutDrain =>
      case OutAnnounce =>
    }
  }

  lemma TryPosted(s: State, tag: Tag, i: nat, otherwise: InPc)
    ensures TryResolve(s, tag, i, otherwise).posted == s.posted
    ensures |TryResolve(s, tag, i, otherwise).q.callers| == |s.q.callers|
  {
    var t := s.(q := Resolve(s.q, tag, i));
    assert t.posted == s.posted && |t.q.callers| == |s.q.callers|;
    var m := Matched(s.q, tag);
    if m.Some? {
      assert TryResolve(s, tag, i, otherwise) == t.(fates := s.fates + [ToQuery(m.value)], inbound := InReady);
    } else {
      assert TryResolve(s, tag, i, otherwise) == t.(inbound := otherwise);
    }
  }

  lemma InboundPosted(s: State, step: InStep)
    requires DoInbound(s, step).Some?
    ensures DoInbound(s, step).value.posted == s.posted
    ensures |DoInbound(s, step).value.q.callers| == |s.q.callers|
  {
    match step {
      case Arrive(_) =>
      case StreamEnds =>
      case TryTag =>
        var f := s.received[s.inbound.index];
        if f.tag.Some? {
          TryPosted(s, f.tag.value, s.inbound.index, InNode(s.inbound.index));
        }
      case TryNode =>
        var f := s.received[s.inbound.index];
        if f.node.Some? && f.node.value.Some? {
          TryPosted(s, f.node.value.value, s.inbound.index, InEmit(s.inbound.index));
        }
      case Fail =>
      case EmitFrame =>
      case InSwap =>
      case InDrain =>
      case InAnnounce =>
      case Aborted =>
    }
  }

  lemma CloserKept(s: State, i: nat, step: CloserStep)
    requires i < |s.closers| && DoCloser(s, i, step).Some?
    ensures OthersKept(s, DoCloser(s, i, step).value, |s.q.callers|)
  {
    var t := DoCloser(s, i, step).value;
    CloserPosted(s, i, step);
    forall d | 0 <= d < |s.q.callers| ensures PcKept(s.q.callers, t.q.callers, d) {
      OtherClosers(s, i, step, d);
    }
  }

  lemma OutboundKept(s: State, step: OutStep)
    requires DoOutbound(s, step).Some?
    ensures OthersKept(s, DoOutbound(s, step).value, |s.q.callers|)
  {
    var t := DoOutbound(s, step).value;
    OutboundPosted(s, step);
    forall d | 0 <= d < |s.q.callers| ensures PcKept(s.q.callers, t.q.callers, d) {
      OtherOutbound(s, step, d);
    }
  }

  lemma InboundKept(s: State, step: InStep)
    requires DoInbound(s, step).Some?
    ensures OthersKept(s, DoInbound(s, step).value, |s.q.callers|)
  {
    var t := DoInbound(s, step).value;
    InboundPosted(s, step);
    forall d | 0 <= d < |s.q.callers| ensures PcKept(s.q.callers, t.q.callers, d) {
      OtherInbound(s, step, d);
    }
  }

  lemma SenderKept(s: State, i: nat)
    requires i < |s.senders| && DoSender(s, i).Some?
    ensures OthersKept(s, DoSender(s, i).value, |s.q.callers|)
  {
  }

  lemma NewAsked(s: State, tag: Tag, frame: Bytes)
    requires AllAsked(s)
    ensures AllAsked(s.(q := s.q.(callers := s.q.callers + [Caller(tag, frame, Registering, Empty)])))
  {
  }

  lemma AskedStep(s: State, step: Step)
    requires AllAsked(s) && PayloadInv(s.q) && Do(s, step).Some?
    ensures AllAsked(Do(s, step).value)
  {
    var t := Do(s, step).value;
    match step {
      case OfQuery(c, k) => QueryAsked(s, c, k);
      case OfCloser(i, k) =>
        CloserKept(s, i, k);
        KeptAsked(s, t, |s.q.callers|);
      case OfOutbound(k) =>
        OutboundKept(s, k);
        KeptAsked(s, t, |s.q.callers|);
      case OfInbound(k) =>
        InboundKept(s, k);
        KeptAsked(s, t, |s.q.callers|);
      case OfSender(i) =>
        SenderKept(s, i);
        KeptAsked(s, t, |s.q.callers|);
      case NewQuery(tag, frame) => NewAsked(s, tag, frame);
      case _ => KeptAsked(s, t, |s.q.callers|);
    }
  }

  lemma {:induction false} AskedAlways(s: State, steps: seq<Step>)
    requires s in Good() && AllAsked(s) && Exec(s, steps).Some?
    ensures AllAsked(Exec(s, steps).value)
    decreases |steps|
  {
    if steps != [] {
      StepKeeps(s, steps[0]);
      AskedStep(s, steps[0]);
      AskedAlways(Do(s, steps[0]).value, steps[1..]);
    }
  }

  /** Nobody waits, and nobody is answered, without having enqueued the request. */
  lemma AnswersWereAsked(s: State, c: nat)
    requires Reachable(s) && c < |s.q.callers|
    requires s.q.callers[c].pc.Waiting? || (s.q.callers[c].pc.Done? && s.q.callers[c].pc.answer.Payload?)
    ensures SendFrame(s.q.callers[c].frame) in s.posted
  {
    var start, steps :| Fresh(start) && Exec(start, steps) == Some(s);
    FreshIsGood(start);
    AskedAlways(start, steps);
    assert Asked(s.q.callers[c], s.posted);
  }
}
