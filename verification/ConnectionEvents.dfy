/**
 Which event an inbound frame becomes, and what the inbound loop does with one frame
 (crates/wa-core/src/connection.rs, crates/wa-core/src/router.rs).
 */
module ConnectionEvents {
  import opened Prelude
  import opened Tokens
  import opened NodeFormat
  import opened Queries
  import opened Connection
  import opened ConnectionSafety
  import opened ConnectionTheorems
  import opened ConnectionFrames

  // ----- Nodes and frames -------------------------------------------------------

  /** Nodes are reported of frames that decode to one, and raw frames of the others. */
  predicate KindsInv(events: seq<Event>, received: seq<Inbound>) {
    forall i :: 0 <= i < |events| ==>
      && (events[i].RawNode? ==> events[i].index < |received| && received[events[i].index].node.Some?)
      && (events[i].RawFrame? ==> events[i].index < |received| && received[events[i].index].node.None?)
  }

  /** The steps that report no frame leave the frames received, or add one, and add at most an announcement. */
  predicate Announces(s: State, t: State) {
    && s.received <= t.received
    && (t.events == s.events || t.events == s.events + [Closed] || t.events == s.events + [Opened])
  }

  lemma AnnouncesKinds(s: State, t: State)
    requires KindsInv(s.events, s.received) && Announces(s, t)
    ensures KindsInv(t.events, t.received)
  {
  }

  lemma CloserAnnounces(s: State, i: nat, k: CloserStep)
    requires i < |s.closers| && DoCloser(s, i, k).Some?
    ensures Announces(s, DoCloser(s, i, k).value)
  {
    match k {
      case Swap =>
      case Drain =>
      case Post =>
      case Take =>
      case Join =>
      case Stop =>
      case Halt =>
      case Announce =>
      case Abandon =>
    }
  }

  lemma OutboundAnnounces(s: State, k: OutStep)
    requires DoOutbound(s, k).Some?
    ensures Announces(s, DoOutbound(s, k).value)
  {
    match k {
      case TakeCommand =>
      case Sent(_) =>
      case SinkClosed(_) =>
      case OutSwap =>
      case OutDrain =>
      case OutAnnounce =>
    }
  }

  lemma InboundAnnounces(s: State, k: InStep)
    requires DoInbound(s, k).Some? && !k.EmitFrame?
    ensures Announces(s, DoInbound(s, k).value)
  {
    match k {
      case Arrive(_) =>
      case StreamEnds =>
      case TryTag =>
        var f := s.received[s.inbound.index];
        if f.tag.Some? {
          TryLeaves(s, f.tag.value, s.inbound.index, InNode(s.inbound.index));
        }
      case TryNode =>
        var f := s.received[s.inbound.index];
        if f.node.Some? && f.node.value.Some? {
          TryLeaves(s, f.node.value.value, s.inbound.index, InEmit(s.inbound.index));
        }
      case Fail =>
      case InSwap =>
      case InDrain =>
      case InAnnounce =>
      case Aborted =>
    }
  }

  lemma EmitKinds(s: State)
    requires KindsInv(s.events, s.received) && DoInbound(s, EmitFrame).Some?
    ensures var t := DoInbound(s, EmitFrame).value; KindsInv(t.events, t.received)
  {
  }

  lemma StepKinds(s: State, step: Step)
    requires KindsInv(s.events, s.received) && Do(s, step).Some?
    ensures KindsInv(Do(s, step).value.events, Do(s, step).value.received)
  {
    if step == OfInbound(EmitFrame) {
      EmitKinds(s);
    } else {
      match step {
        case OfQuery(c, k) => QueryLeaves(s, c, k);
        case OfSender(i) => SenderLeaves(s, i);
        case OfCloser(i, k) => CloserAnnounces(s, i, k);
        case OfOutbound(k) => OutboundAnnounces(s, k);
        case OfInbound(k) => InboundAnnounces(s, k);
        case _ =>
      }
      AnnouncesKinds(s, Do(s, step).value);
    }
  }

  lemma {:induction false} RunKinds(s: State, steps: seq<Step>)
    requires KindsInv(s.events, s.received) && Exec(s, steps).Some?
    ensures KindsInv(Exec(s, steps).value.events, Exec(s, steps).value.received)
    decreases |steps|
  {
    if steps != [] {
      StepKinds(s, steps[0]);
      RunKinds(Do(s, steps[0]).value, steps[1..]);
    }
  }

  lemma {:induction false} FrameEventIs(events: seq<Event>, i: nat)
    ensures i in FrameEvents(events) <==> RawNode(i) in events || RawFrame(i) in events
    decreases |events|
  {
    if events != [] {
      FrameEventIs(events[1..], i);
      assert events == [events[0]] + events[1..];
    }
  }

  /** Frame `i` went to the events, and it decodes to a node or not. */
  predicate Reported(s: State, i: nat, asNode: bool) {
    && i < |s.fates| && s.fates[i].ToEvents?
    && i < |s.received| && s.received[i].node.Some? == asNode
  }

  /**
   In every reachable state: a frame is reported as a node if and only if it answered no
   query, the loop was through with it and it decodes to a node, and as a raw frame if
   and only if it does not decode to one.
   */
  lemma EventKinds(s: State, i: nat)
    requires Reachable(s)
    ensures RawNode(i) in s.events <==> Reported(s, i, true)
    ensures RawFrame(i) in s.events <==> Reported(s, i, false)
  {
    var start, steps :| Fresh(start) && Exec(start, steps) == Some(s);
    RunKinds(start, steps);
    ReachableIsGood(s);
    UnmatchedOnly(s.fates, i);
    FrameEventIs(s.events, i);
  }

  /** The same, of the bytes that the frame came with. */
  lemma EventOfPayload(T: Tokens.Table, inflate: Bytes -> Option<Bytes>, s: State, i: nat, payload: Bytes)
    requires Shape(T) && Reachable(s) && i < |s.fates| && i < |s.received|
    requires s.received[i] == Describe(T, inflate, s.received[i].tag, payload)
    ensures RawNode(i) in s.events <==> s.fates[i].ToEvents? && DecodeFrame(T, inflate, payload).Ok?
    ensures RawFrame(i) in s.events <==> s.fates[i].ToEvents? && DecodeFrame(T, inflate, payload).Err?
  {
    EventKinds(s, i);
  }

  // ----- One frame, with nothing in between ---------------------------------------

  /** The query has this tag, is not over, and nothing has come through to it. */
  predicate Awaits(q: Pending, c: nat, tag: Tag) {
    && c < |q.callers| && q.callers[c].tag == tag && q.callers[c].slot.Empty?
    && (q.callers[c].pc.Checking? || q.callers[c].pc.Sending? || q.callers[c].pc.Waiting? || q.callers[c].pc.Leaving?)
  }

  lemma MatchedIff(q: Pending, tag: Tag, c: nat)
    requires TableInv(q)
    ensures Matched(q, tag) == Some(c) <==> Awaits(q, c, tag)
  {
    if Matched(q, tag) == Some(c) {
      assert Held(q, c);
    }
    if Awaits(q, c, tag) {
      assert Held(q, c);
    }
  }

  ghost predicate NobodyAwaits(q: Pending, tag: Option<Tag>) {
    tag.Some? ==> forall c: nat :: !Awaits(q, c, tag.value)
  }

  lemma NobodyMatched(q: Pending, tag: Tag)
    requires TableInv(q) && NobodyAwaits(q, Some(tag))
    ensures Matched(q, tag).None?
  {
    if Matched(q, tag).Some? {
      MatchedIff(q, tag, Matched(q, tag).value);
    }
  }

  /** The frame goes to this query, and is not reported. */
  predicate Answers(s: State, t: State, c: nat, i: nat) {
    && t.inbound.InReady? && t.fates == s.fates + [ToQuery(c)] && t.events == s.events
    && c < |s.q.callers| == |t.q.callers| && t.q.callers[c] == s.q.callers[c].(slot := Value(i))
  }

  lemma TryAnswers(s: State, tag: Tag, i: nat, otherwise: InPc, c: nat)
    requires TableInv(s.q) && Awaits(s.q, c, tag)
    ensures Answers(s, TryResolve(s, tag, i, otherwise), c, i)
  {
    MatchedIff(s.q, tag, c);
  }

  lemma TryGoesOn(s: State, tag: Tag, i: nat, otherwise: InPc)
    requires TableInv(s.q) && NobodyAwaits(s.q, Some(tag))
    ensures var t := TryResolve(s, tag, i, otherwise);
            && t.inbound == otherwise && t.fates == s.fates && t.events == s.events
            && t.q.callers == s.q.callers && t.received == s.received
  {
    NobodyMatched(s.q, tag);
  }

  /** The frame is in hand and about to be looked at for its own tag, or for its node's id. */
  predicate InHand(s: State, f: Inbound, i: nat) {
    (s.inbound == InTag(i) || s.inbound == InNode(i)) && i < |s.received| && s.received[i] == f
  }

  /** A frame goes first to the query that awaits its own tag, whatever its node says. */
  lemma OwnTagFirst(s: State, f: Inbound, i: nat, c: nat)
    requires TableInv(s.q) && s.inbound.InTag? && InHand(s, f, i)
    requires f.tag.Some? && Awaits(s.q, c, f.tag.value)
    ensures Do(s, OfInbound(TryTag)).Some? && Answers(s, Do(s, OfInbound(TryTag)).value, c, i)
  {
    TryAnswers(s, f.tag.value, i, InNode(i), c);
  }

  /** If nobody awaits its own tag, it is looked at for its node's id, and that is all. */
  lemma ThenByNode(s: State, f: Inbound, i: nat)
    requires TableInv(s.q) && s.inbound.InTag? && InHand(s, f, i) && NobodyAwaits(s.q, f.tag)
    ensures Do(s, OfInbound(TryTag)).Some?
    ensures var t := Do(s, OfInbound(TryTag)).value;
            && t.inbound.InNode? && InHand(t, f, i) && t.q.callers == s.q.callers
            && t.fates == s.fates && t.events == s.events
  {
    if f.tag.Some? {
      TryGoesOn(s, f.tag.value, i, InNode(i));
    }
  }

  /** A node with an id that can be written again goes to the query that awaits the id. */
  lemma NodeAnswers(s: State, f: Inbound, i: nat, id: Tag, c: nat)
    requires TableInv(s.q) && s.inbound.InNode? && InHand(s, f, i)
    requires f.node == Some(Some(id)) && f.writable && Awaits(s.q, c, id)
    ensures Do(s, OfInbound(TryNode)).Some? && Answers(s, Do(s, OfInbound(TryNode)).value, c, i)
  {
    TryAnswers(s, id, i, InEmit(i), c);
  }

  /** One that cannot be written again ends the loop, whoever awaits it. */
  lemma UnwritableEnds(s: State, f: Inbound, i: nat, id: Tag)
    requires s.inbound.InNode? && InHand(s, f, i) && f.node == Some(Some(id)) && !f.writable
    ensures Do(s, OfInbound(TryNode)).None? && Do(s, OfInbound(InStep.Fail)).Some?
    ensures var t := Do(s, OfInbound(InStep.Fail)).value;
            t.inbound.InDone? && t.fates == s.fates + [Lost] && t.events == s.events && t.q == s.q
  {
  }

  /** The node's id, if the frame has one. */
  function IdOf(f: Inbound): Option<Tag> {
    if f.node.Some? then f.node.value else None
  }

  /** In every other case the frame is reported: as a node if it decodes to one, and as it is if it does not. */
  lemma OthersReported(s: State, f: Inbound, i: nat)
    requires TableInv(s.q) && s.inbound.InNode? && InHand(s, f, i) && !Stuck(f) && NobodyAwaits(s.q, IdOf(f))
    ensures Do(s, OfInbound(TryNode)).Some? && Do(Do(s, OfInbound(TryNode)).value, OfInbound(EmitFrame)).Some?
    ensures var t := Do(Do(s, OfInbound(TryNode)).value, OfInbound(EmitFrame)).value;
            && t.inbound.InReady? && t.fates == s.fates + [ToEvents] && t.q.callers == s.q.callers
            && t.events == s.events + [if f.node.Some? then RawNode(i) else RawFrame(i)]
  {
    if IdOf(f).Some? {
      TryGoesOn(s, IdOf(f).value, i, InEmit(i));
    }
  }
}
