/** Which of the frames that `send_frame` has accepted reach the sink (crates/wa-core/src/connection.rs). */
module ConnectionSends {
  import opened Prelude
  import opened Queries
  import opened Connection
  import opened ConnectionSafety
  import opened ConnectionTheorems

  /** Command `j` has been handed to the sink: it is the frame that follows those of the commands before it. */
  predicate HandedOver(s: State, j: nat) {
    && j < |s.posted| && s.posted[j].SendFrame?
    && |FramesOf(s.posted[..j])| < |s.sink|
    && s.sink[|FramesOf(s.posted[..j])|] == s.posted[j].frame
  }

  /** The loop has stopped without a close, and not later than at command `j`. */
  predicate FailedBefore(s: State, j: nat) {
    !StillTaking(s.outbound) && s.sinkCloses == 0 && s.taken <= j
  }

  lemma {:induction false} FramesConcat(a: seq<Command>, b: seq<Command>)
    ensures FramesOf(a + b) == FramesOf(a) + FramesOf(b)
    decreases |a|
  {
    if a == [] {
      Neutral(b);
    } else {
      HeadTail(a, b);
      FramesConcat(a[1..], b);
    }
  }

  /** Handed over is taken. */
  lemma HandedIsTaken(s: State, j: nat)
    requires s in Good() && j < |s.posted| && s.posted[j].SendFrame?
    ensures HandedOver(s, j) <==> j < s.taken
  {
    if j < s.taken {
      assert s.posted[..s.taken] == s.posted[..j] + [s.posted[j]] + s.posted[j + 1..s.taken];
      FramesConcat(s.posted[..j] + [s.posted[j]], s.posted[j + 1..s.taken]);
      FramesAppend(s.posted[..j], s.posted[j]);
    } else {
      assert s.posted[..j] == s.posted[..s.taken] + s.posted[s.taken..j];
      FramesConcat(s.posted[..s.taken], s.posted[s.taken..j]);
    }
  }

  lemma Stopped(s: State, j: nat)
    requires s in Good() && j < |s.posted| && s.posted[j].SendFrame? && !StillTaking(s.outbound)
    ensures j < s.taken <==> NoClose(s.posted[..j]) && !FailedBefore(s, j)
  {
    var last := s.taken - 1;
    if j < s.taken {
      assert s.posted[..j] == s.posted[..last][..if j < last then j else last];
    } else if s.sinkCloses == 1 {
      assert s.posted[..j][last].CloseSink?;
    }
  }

  // ----- When the sink fails ------------------------------------------------------

  /** The sink returns an error for a frame before command `j`. */
  predicate SinkFails(s: State, step: Step, j: nat) {
    step == OfOutbound(Sent(false)) && s.taken <= j
  }

  predicate SinkFailed(s: State, steps: seq<Step>, j: nat)
    decreases |steps|
  {
    && steps != [] && Do(s, steps[0]).Some?
    && (SinkFails(s, steps[0], j) || SinkFailed(Do(s, steps[0]).value, steps[1..], j))
  }

  predicate SamePipe(s: State, t: State) {
    t.outbound == s.outbound && t.taken == s.taken && t.sinkCloses == s.sinkCloses
  }

  lemma CloserPipe(s: State, i: nat, k: CloserStep)
    requires i < |s.closers| && DoCloser(s, i, k).Some?
    ensures SamePipe(s, DoCloser(s, i, k).value)
  {
    match k {
      case Swap =>
      case Drain =>
      case Post =>
      case Take =>
      case Join =>
      case Stop =>
      case Halt =>
      case Announce =>
      case Abandon =>
    }
  }

  lemma TryPipe(s: State, tag: Tag, i: nat, otherwise: InPc)
    ensures SamePipe(s, TryResolve(s, tag, i, otherwise))
  {
  }

  lemma InboundPipe(s: State, k: InStep)
    requires DoInbound(s, k).Some?
    ensures SamePipe(s, DoInbound(s, k).value)
  {
    match k {
      case Arrive(_) =>
      case StreamEnds =>
      case TryTag =>
        var f := s.received[s.inbound.index];
        if f.tag.Some? {
          TryPipe(s, f.tag.value, s.inbound.index, InNode(s.inbound.index));
        }
      case TryNode =>
        var f := s.received[s.inbound.index];
        if f.node.Some? && f.node.value.Some? {
          TryPipe(s, f.node.value.value, s.inbound.index, InEmit(s.inbound.index));
        }
      case Fail =>
      case EmitFrame =>
      case InSwap =>
      case InDrain =>
      case InAnnounce =>
      case Aborted =>
    }
  }

  lemma QueryPipe(s: State, c: nat, k: QueryStep)
    requires c < |s.q.callers| && DoQuery(s, c, k).Some?
    ensures SamePipe(s, DoQuery(s, c, k).value)
  {
  }

  lemma OthersPipe(s: State, step: Step)
    requires Do(s, step).Some? && !step.OfOutbound?
    ensures SamePipe(s, Do(s, step).value)
  {
    match step {
      case OfQuery(c, k) => QueryPipe(s, c, k);
      case OfCloser(i, k) => CloserPipe(s, i, k);
      case OfInbound(k) => InboundPipe(s, k);
      case _ =>
    }
  }

  lemma OutboundFails(s: State, k: OutStep, j: nat)
    requires (StillTaking(s.outbound) ==> s.sinkCloses == 0) && DoOutbound(s, k).Some?
    ensures FailedBefore(DoOutbound(s, k).value, j) <==> FailedBefore(s, j) || SinkFails(s, OfOutbound(k), j)
  {
    match k {
      case TakeCommand =>
      case Sent(_) =>
      case SinkClosed(_) =>
      case OutSwap =>
      case OutDrain =>
      case OutAnnounce =>
    }
  }

  lemma {:induction false} FailedRun(s: State, steps: seq<Step>, j: nat)
    requires s in Good() && Exec(s, steps).Some?
    ensures FailedBefore(Exec(s, steps).value, j) <==> FailedBefore(s, j) || SinkFailed(s, steps, j)
    decreases |steps|
  {
    if steps != [] {
      StepKeeps(s, steps[0]);
      if steps[0].OfOutbound? {
        OutboundFails(s, steps[0].out, j);
      } else {
        OthersPipe(s, steps[0]);
      }
      FailedRun(Do(s, steps[0]).value, steps[1..], j);
    }
  }

  // ----- A send that was accepted -------------------------------------------------

  lemma QueryPosts(s: State, c: nat, k: QueryStep)
    requires c < |s.q.callers| && DoQuery(s, c, k).Some?
    ensures s.posted <= DoQuery(s, c, k).value.posted
  {
  }

  lemma StepPosts(s: State, step: Step)
    requires Do(s, step).Some?
    ensures s.posted <= Do(s, step).value.posted
  {
    match step {
      case OfQuery(c, k) => QueryPosts(s, c, k);
      case OfCloser(i, k) => CloserPosted(s, i, k);
      case OfOutbound(k) => OutboundPosted(s, k);
      case OfInbound(k) => InboundPosted(s, k);
      case _ =>
    }
  }

  lemma {:induction false} RunPosts(s: State, steps: seq<Step>)
    requires s in Good() && Exec(s, steps).Some?
    ensures Exec(s, steps).value in Good() && s.posted <= Exec(s, steps).value.posted
    decreases |steps|
  {
    if steps != [] {
      StepKeeps(s, steps[0]);
      StepPosts(s, steps[0]);
      RunPosts(Do(s, steps[0]).value, steps[1..]);
    }
  }

  /** At this step `send_frame` returns without an error. */
  predicate Accepts(s: State, i: nat) {
    i < |s.senders| && DoSender(s, i).Some? && DoSender(s, i).value.senders[i] == SenderDone(true)
  }

  lemma AcceptedPosts(s: State, i: nat)
    requires Accepts(s, i)
    ensures s.senders[i].SenderSending?
    ensures DoSender(s, i).value.posted == s.posted + [SendFrame(s.senders[i].frame)]
  {
  }

  /**
   In every run in which a send returns without an error and the outbound loop later
   stops: its frame has been handed to the sink if and only if, when it returned, no
   close had been enqueued, and the sink failed on no frame enqueued earlier, before
   or after. Returning without an error does not mean that the frame is sent.
   */
  lemma AcceptedIsSentIff(start: State, before: seq<Step>, s: State, i: nat, after: seq<Step>)
    requires Fresh(start) && Exec(start, before) == Some(s) && Accepts(s, i)
    requires Exec(DoSender(s, i).value, after).Some? && !StillTaking(Exec(DoSender(s, i).value, after).value.outbound)
    ensures var now, t, j := DoSender(s, i).value, Exec(DoSender(s, i).value, after).value, |s.posted|;
            && j < |t.posted| && t.posted[j] == SendFrame(s.senders[i].frame)
            && (HandedOver(t, j)
                <==> NoClose(s.posted) && !SinkFailed(start, before, j) && !SinkFailed(now, after, j))
  {
    var now, j := DoSender(s, i).value, |s.posted|;
    FreshIsGood(start);
    RunPosts(start, before);
    FailedRun(start, before, j);
    AcceptedPosts(s, i);
    StepKeeps(s, OfSender(i));
    OthersPipe(s, OfSender(i));
    RunPosts(now, after);
    FailedRun(now, after, j);
    var t := Exec(now, after).value;
    assert t.posted[..j] == s.posted && t.posted[j] == now.posted[j];
    HandedIsTaken(t, j);
    Stopped(t, j);
  }

  /** A sender that has passed the flag when `close` enqueues its command. */
  lemma ClosedBetween(frame: Bytes) returns (s: State)
    ensures Reachable(s) && s.senders == [SenderSending(frame)] && s.posted == [CloseSink]
    ensures s.outbound.OutReady? && s.taken == 0 && s.sink == []
  {
    s := FreshExists();
    s := Next(s, Spawned);
    s := Next(s, NewSender(frame));
    s := Next(s, OfSender(0));
    s := Next(s, NewCloser);
    s := Next(s, OfCloser(0, Swap));
    s := Next(s, OfCloser(0, Drain));
    s := Next(s, OfCloser(0, Post));
  }

  /** A run in which a send returns without an error behind a close, and its frame is dropped. */
  lemma AcceptedAndDropped(frame: Bytes) returns (s: State)
    ensures Reachable(s) && s.senders == [SenderDone(true)] && s.posted == [CloseSink, SendFrame(frame)]
    ensures !StillTaking(s.outbound) && s.sink == []
  {
    s := ClosedBetween(frame);
    s := Next(s, OfSender(0));
    s := Next(s, OfOutbound(TakeCommand));
  }
}
