/** When the inbound loop ends on a frame and leaves the connection open (crates/wa-core/src/connection.rs). */
module ConnectionLoop {
  import opened Prelude
  import opened Queries
  import opened Connection
  import opened ConnectionSafety
  import opened ConnectionAnswers
  import opened ConnectionEnds

  // ----- Which frames are lost --------------------------------------------------------

  /** A frame is lost exactly when its node is stuck and no query got the frame before. */
  predicate StuckInv(inbound: InPc, received: seq<Inbound>, fates: seq<Fate>) {
    && |fates| <= |received|
    && (inbound.InEmit? && inbound.index < |received| ==> !Stuck(received[inbound.index]))
    && (forall i :: 0 <= i < |fates| ==> (fates[i].Lost? <==> Stuck(received[i]) && !fates[i].ToQuery?))
  }

  /** What a step leaves of the inbound task. */
  predicate SameLoop(s: State, t: State) {
    t.inbound == s.inbound && t.received == s.received && t.fates == s.fates
  }

  lemma OutboundLoop(s: State, k: OutStep)
    requires DoOutbound(s, k).Some?
    ensures SameLoop(s, DoOutbound(s, k).value)
  {
    match k {
      case TakeCommand =>
      case Sent(_) =>
      case SinkClosed(_) =>
      case OutSwap =>
      case OutDrain =>
      case OutAnnounce =>
    }
  }

  lemma CloserLoop(s: State, i: nat, k: CloserStep)
    requires i < |s.closers| && DoCloser(s, i, k).Some?
    ensures SameLoop(s, DoCloser(s, i, k).value)
  {
    match k {
      case Swap =>
      case Drain =>
      case Post =>
      case Take =>
      case Join =>
      case Stop =>
      case Halt =>
      case Announce =>
      case Abandon =>
    }
  }

  lemma OthersLoop(s: State, step: Step)
    requires Do(s, step).Some? && !step.OfInbound?
    ensures SameLoop(s, Do(s, step).value)
  {
    match step {
      case OfQuery(c, k) => QueryLeaves(s, c, k);
      case OfCloser(i, k) => CloserLoop(s, i, k);
      case OfOutbound(k) => OutboundLoop(s, k);
      case OfSender(i) => SenderLeaves(s, i);
      case _ =>
    }
  }

  lemma TryStuck(s: State, tag: Tag, i: nat, otherwise: InPc)
    requires StuckInv(s.inbound, s.received, s.fates) && i == |s.fates| < |s.received|
    requires otherwise == InNode(i) || (otherwise == InEmit(i) && !Stuck(s.received[i]))
    ensures var t := TryResolve(s, tag, i, otherwise); StuckInv(t.inbound, t.received, t.fates)
  {
    TryLeaves(s, tag, i, otherwise);
  }

  lemma InboundStuck(s: State, step: InStep)
    requires s in Good() && StuckInv(s.inbound, s.received, s.fates) && DoInbound(s, step).Some?
    ensures var t := DoInbound(s, step).value; StuckInv(t.inbound, t.received, t.fates)
  {
    match step {
      case Arrive(_) =>
      case StreamEnds =>
      case TryTag =>
        var f := s.received[s.inbound.index];
        if f.tag.Some? {
          TryStuck(s, f.tag.value, s.inbound.index, InNode(s.inbound.index));
        }
      case TryNode =>
        var f := s.received[s.inbound.index];
        if f.node.Some? && f.node.value.Some? {
          TryStuck(s, f.node.value.value, s.inbound.index, InEmit(s.inbound.index));
        }
      case Fail =>
      case EmitFrame =>
      case InSwap =>
      case InDrain =>
      case InAnnounce =>
      case Aborted =>
    }
  }

  lemma {:induction false} StuckAlways(s: State, steps: seq<Step>)
    requires s in Good() && StuckInv(s.inbound, s.received, s.fates) && Exec(s, steps).Some?
    ensures var t := Exec(s, steps).value; StuckInv(t.inbound, t.received, t.fates)
    decreases |steps|
  {
    if steps != [] {
      StepKeeps(s, steps[0]);
      if steps[0].OfInbound? {
        InboundStuck(s, steps[0].inb);
      } else {
        OthersLoop(s, steps[0]);
      }
      StuckAlways(Do(s, steps[0]).value, steps[1..]);
    }
  }

  lemma ReachableStuck(s: State)
    requires Reachable(s)
    ensures s in Good() && EndsInv(s) && StuckInv(s.inbound, s.received, s.fates)
  {
    ReachableEnds(s);
    var start, steps :| Fresh(start) && Exec(start, steps) == Some(s);
    FreshIsGood(start);
    StuckAlways(start, steps);
  }

  /**
   While the connection is open, its inbound loop has ended if and only if the last
   frame received has a node with an id that cannot be written again, and the loop
   is through with it without a query having got it by its own tag.
   */
  lemma DeadLoopIff(s: State)
    requires Reachable(s) && !s.closed
    ensures s.inbound.InDone?
       <==> s.received != [] && |s.fates| == |s.received|
            && Stuck(s.received[|s.received| - 1]) && !s.fates[|s.fates| - 1].ToQuery?
  {
    ReachableStuck(s);
  }

  // ----- From which moment on -----------------------------------------------------------

  /** The loop looks for a query that waits for the frame's own tag, finds none, and will have to write the node. */
  predicate Strikes(s: State, step: Step) {
    && step == OfInbound(TryTag) && s.inbound.InTag? && s.inbound.index < |s.received|
    && var f := s.received[s.inbound.index];
       Stuck(f) && (f.tag.Some? ==> Matched(s.q, f.tag.value).None?)
  }

  predicate Struck(s: State, steps: seq<Step>)
    decreases |steps|
  {
    && steps != [] && Do(s, steps[0]).Some?
    && (Strikes(s, steps[0]) || Struck(Do(s, steps[0]).value, steps[1..]))
  }

  /** The loop has ended, or can do nothing but end. */
  predicate Doomed(s: State) {
    s.inbound.InDone? || (s.inbound.InNode? && s.inbound.index < |s.received| && Stuck(s.received[s.inbound.index]))
  }

  lemma DoomedOnlyFails(s: State, step: InStep)
    requires s in Good() && Doomed(s) && DoInbound(s, step).Some?
    ensures step.Fail? && DoInbound(s, step).value.inbound.InDone?
  {
  }

  lemma TryTagDooms(s: State)
    requires s in Good() && DoInbound(s, TryTag).Some?
    ensures Doomed(DoInbound(s, TryTag).value) <==> Strikes(s, OfInbound(TryTag))
  {
    var f := s.received[s.inbound.index];
    if f.tag.Some? {
      TryLeaves(s, f.tag.value, s.inbound.index, InNode(s.inbound.index));
    }
  }

  lemma TryNodeSpares(s: State)
    requires s in Good() && DoInbound(s, TryNode).Some?
    ensures !Doomed(DoInbound(s, TryNode).value)
  {
    var f := s.received[s.inbound.index];
    if f.node.Some? && f.node.value.Some? {
      TryLeaves(s, f.node.value.value, s.inbound.index, InEmit(s.inbound.index));
    }
  }

  lemma InboundDooms(s: State, step: InStep)
    requires s in Good() && EndsInv(s) && DoInbound(s, step).Some? && !DoInbound(s, step).value.closed
    ensures Doomed(DoInbound(s, step).value) <==> Doomed(s) || Strikes(s, OfInbound(step))
  {
    if Doomed(s) {
      DoomedOnlyFails(s, step);
    } else {
      match step {
        case TryTag => TryTagDooms(s);
        case TryNode => TryNodeSpares(s);
        case Arrive(_) =>
        case StreamEnds =>
        case Fail =>
        case EmitFrame =>
        case InSwap =>
        case InDrain =>
        case InAnnounce =>
        case Aborted =>
      }
    }
  }

  lemma DoomedStep(s: State, step: Step)
    requires s in Good() && EndsInv(s) && Do(s, step).Some? && !Do(s, step).value.closed
    ensures Doomed(Do(s, step).value) <==> Doomed(s) || Strikes(s, step)
  {
    if step.OfInbound? {
      InboundDooms(s, step.inb);
    } else {
      OthersLoop(s, step);
    }
  }

  lemma {:induction false} DoomedRun(s: State, steps: seq<Step>)
    requires s in Good() && EndsInv(s) && Exec(s, steps).Some? && !Exec(s, steps).value.closed
    ensures Doomed(Exec(s, steps).value) <==> Doomed(s) || Struck(s, steps)
    decreases |steps|
  {
    if steps != [] {
      var t := Do(s, steps[0]).value;
      StepKeeps(s, steps[0]);
      EndsStep(s, steps[0]);
      if t.closed {
        ClosedStays(t, steps[1..]);
      }
      DoomedStep(s, steps[0]);
      DoomedRun(t, steps[1..]);
    }
  }

  /**
   In every run that leaves the connection open, the inbound loop has ended, or can
   do nothing but end, if and only if it once had in hand a frame whose node has an
   id and cannot be written again, and found no query waiting for its own tag.
   */
  lemma DeafenedIff(start: State, steps: seq<Step>)
    requires Fresh(start) && Exec(start, steps).Some? && !Exec(start, steps).value.closed
    ensures Doomed(Exec(start, steps).value) <==> Struck(start, steps)
  {
    FreshIsGood(start);
    DoomedRun(start, steps);
  }

  /** A run in which the loop ends on such a frame while a query waits for its node. */
  lemma LoopDies(f: Inbound, id: Tag, frame: Bytes) returns (s: State)
    requires f == Inbound(None, Some(Some(id)), false)
    ensures Reachable(s) && !s.closed && Deaf(s, 0) && s.received == [f] && s.fates == [Lost]
    ensures |s.q.callers| == 1 && s.q.callers[0] == Caller(id, frame, Waiting, Empty)
  {
    s := OneWaiting(id, frame);
    s := Next(s, OfInbound(Arrive(f)));
    s := Next(s, OfInbound(TryTag));
    s := Next(s, OfInbound(InStep.Fail));
  }
}
