/** What holds in every reachable state of a connection (crates/wa-core/src/connection.rs). */
module ConnectionSafety {
  import opened Prelude
  import opened Queries
  import opened Connection

  // ----- The outbound queue ------------------------------------------------------

  function FramesOf(cs: seq<Command>): seq<Bytes> {
    if cs == [] then []
    else if cs[0].SendFrame? then [cs[0].frame] + FramesOf(cs[1..])
    else FramesOf(cs[1..])
  }

  /** The commands before the first one that closes the sink. */
  function BeforeClose(cs: seq<Command>): seq<Command> {
    if cs == [] || cs[0].CloseSink? then [] else [cs[0]] + BeforeClose(cs[1..])
  }

  predicate NoClose(cs: seq<Command>) {
    forall i :: 0 <= i < |cs| ==> cs[i].SendFrame?
  }

  /** The outbound loop is still taking commands. */
  predicate StillTaking(pc: OutPc) {
    pc.OutReady? || pc.OutSending?
  }

  /** What has been handed over is what was taken, and nothing is taken after a close. */
  ghost predicate PipeInv(posted: seq<Command>, taken: nat, outbound: OutPc, sink: seq<Bytes>, closes: nat) {
    && taken <= |posted|
    && sink == FramesOf(posted[..taken])
    && closes <= 1
    && (StillTaking(outbound) ==> closes == 0 && NoClose(posted[..taken]))
    && (taken > 0 ==> NoClose(posted[..taken - 1]))
    && (!outbound.OutReady? ==> taken > 0)
    && (closes == 1 <==> taken > 0 && posted[taken - 1].CloseSink?)
  }

  lemma {:induction false} FramesAppend(cs: seq<Command>, c: Command)
    ensures FramesOf(cs + [c]) == (if c.SendFrame? then FramesOf(cs) + [c.frame] else FramesOf(cs))
    decreases |cs|
  {
    if cs == [] {
      assert (cs + [c])[1..] == [];
    } else {
      assert (cs + [c])[1..] == cs[1..] + [c];
      FramesAppend(cs[1..], c);
    }
  }

  lemma PostKeepsPipe(posted: seq<Command>, taken: nat, outbound: OutPc, sink: seq<Bytes>, closes: nat, c: Command)
    requires PipeInv(posted, taken, outbound, sink, closes)
    ensures PipeInv(posted + [c], taken, outbound, sink, closes)
  {
    assert (posted + [c])[..taken] == posted[..taken];
    if taken > 0 {
      assert (posted + [c])[..taken - 1] == posted[..taken - 1];
    }
  }

  lemma TakeKeepsPipe(posted: seq<Command>, taken: nat, sink: seq<Bytes>, closes: nat)
    requires PipeInv(posted, taken, OutReady, sink, closes) && taken < |posted|
    ensures posted[taken].SendFrame? ==> PipeInv(posted, taken + 1, OutSending, sink + [posted[taken].frame], closes)
    ensures posted[taken].CloseSink? ==> PipeInv(posted, taken + 1, OutClosing, sink, closes + 1)
  {
    assert posted[..taken + 1] == posted[..taken] + [posted[taken]];
    FramesAppend(posted[..taken], posted[taken]);
  }

  lemma {:induction false} NoCloseIsBefore(cs: seq<Command>, k: nat)
    requires k <= |cs| && NoClose(cs[..k])
    ensures k <= |BeforeClose(cs)| && BeforeClose(cs)[..k] == cs[..k]
    decreases k
  {
    if k > 0 {
      assert cs[..k][0] == cs[0];
      assert cs[1..][..k - 1] == cs[..k][1..];
      NoCloseIsBefore(cs[1..], k - 1);
      PrefixCons(cs, k);
      PrefixCons(BeforeClose(cs), k);
      assert BeforeClose(cs)[1..] == BeforeClose(cs[1..]);
    }
  }

  lemma {:induction false} FramesOfPrefix(cs: seq<Command>, k: nat)
    requires k <= |cs|
    ensures FramesOf(cs[..k]) <= FramesOf(cs)
    decreases k
  {
    if k == 0 {
      assert cs[..0] == [];
    } else {
      assert cs[..k][0] == cs[0] && cs[..k][1..] == cs[1..][..k - 1];
      FramesOfPrefix(cs[1..], k - 1);
    }
  }

  /** Frames reach the sink in the order they were enqueued, and only those enqueued before the first close. */
  lemma SinkIsPrefix(posted: seq<Command>, taken: nat, outbound: OutPc, sink: seq<Bytes>, closes: nat)
    requires PipeInv(posted, taken, outbound, sink, closes)
    ensures sink <= FramesOf(BeforeClose(posted))
  {
    var k := if taken > 0 && posted[taken - 1].CloseSink? then taken - 1 else taken;
    if taken > 0 {
      assert posted[..taken] == posted[..taken - 1] + [posted[taken - 1]];
      FramesAppend(posted[..taken - 1], posted[taken - 1]);
    }
    assert sink == FramesOf(posted[..k]) && NoClose(posted[..k]);
    NoCloseIsBefore(posted, k);
    FramesOfPrefix(BeforeClose(posted), k);
  }

  // ----- Closing -----------------------------------------------------------------

  function CountClosed(events: seq<Event>): nat {
    if events == [] then 0 else (if events[0].Closed? then 1 else 0) + CountClosed(events[1..])
  }

  lemma {:induction false} CountAppend(events: seq<Event>, e: Event)
    ensures CountClosed(events + [e]) == CountClosed(events) + (if e.Closed? then 1 else 0)
    decreases |events|
  {
    if events == [] {
      assert (events + [e])[1..] == [];
    } else {
      assert (events + [e])[1..] == events[1..] + [e];
      CountAppend(events[1..], e);
    }
  }

  /** Every closer that has turned the flag found it set, or is the winner; later ones have drained. */
  ghost predicate ClosersInv(closers: seq<Closer>, winner: Winner, closed: bool, drained: bool) {
    && (winner.Nobody? <==> !closed)
    && (winner.ByCloser? ==> winner.closer < |closers|)
    && forall k :: 0 <= k < |closers| ==>
         && (!closers[k].pc.Swapping? ==> closed)
         && (!closers[k].pc.Swapping? && !closers[k].pc.Draining? ==> drained)
         && (!closers[k].pc.Swapping? && !closers[k].wasClosed <==> winner == ByCloser(k))
  }

  ghost predicate TasksInv(outbound: OutPc, inbound: InPc, winner: Winner, closed: bool, drained: bool) {
    && (outbound.OutDraining? || outbound.OutEmitting? ==> winner.ByOutbound?)
    && (winner.ByOutbound? ==> outbound.OutDraining? || outbound.OutEmitting? || outbound.OutDone?)
    && (outbound.OutEmitting? ==> drained)
    && (outbound.OutDone? ==> closed)
    && (outbound.OutDone? && winner.ByOutbound? ==> drained)
    && (inbound.InDraining? || inbound.InEmitting? ==> winner.ByInbound?)
    && (winner.ByInbound? ==> inbound.InDraining? || inbound.InEmitting? || inbound.InDone?)
    && (inbound.InEmitting? ==> drained)
    && (inbound.InDone? && winner.ByInbound? ==> drained)
  }

  /** The winner has said that the connection is closed. */
  predicate Announced(closers: seq<Closer>, outbound: OutPc, inbound: InPc, winner: Winner) {
    match winner
    case Nobody => false
    case ByCloser(k) => k < |closers| && closers[k].pc == Finished(Completed)
    case ByOutbound => outbound.OutDone?
    case ByInbound => inbound.InDone?
  }

  /** The winner announces the end, once, and nobody else does. */
  ghost predicate EventsInv(events: seq<Event>, announced: bool) {
    CountClosed(events) == if announced then 1 else 0
  }

  // ----- Inbound frames -------------------------------------------------------------

  /** The frame carries the tag, itself or in its node. */
  predicate Addressed(f: Inbound, tag: Tag) {
    f.tag == Some(tag) || f.node == Some(Some(tag))
  }

  function FrameEvents(events: seq<Event>): seq<nat> {
    if events == [] then []
    else if events[0].RawFrame? || events[0].RawNode? then [events[0].index] + FrameEvents(events[1..])
    else FrameEvents(events[1..])
  }

  /** The numbers of the frames that answered no query and were not lost, in order. */
  function Unmatched(fates: seq<Fate>): seq<nat> {
    if fates == [] then []
    else if fates[|fates| - 1].ToEvents? then Unmatched(fates[..|fates| - 1]) + [|fates| - 1]
    else Unmatched(fates[..|fates| - 1])
  }

  /** Answers come from frames that carry the query's tag, and each frame has at most one use. */
  ghost predicate AnswersInv(callers: seq<Caller>, received: seq<Inbound>, fates: seq<Fate>) {
    && |fates| <= |received|
    && (forall c :: 0 <= c < |callers| && callers[c].slot.Value? ==>
          callers[c].slot.frame < |fates| && fates[callers[c].slot.frame] == ToQuery(c))
    && (forall i :: 0 <= i < |fates| && fates[i].ToQuery? ==>
          && fates[i].caller < |callers| && callers[fates[i].caller].slot == Value(i)
          && Addressed(received[i], callers[fates[i].caller].tag))
  }

  /** One frame is in hand, or none. */
  ghost predicate InHand(inbound: InPc, received: seq<Inbound>, fates: seq<Fate>) {
    if inbound.InTag? || inbound.InNode? || inbound.InEmit? then
      inbound.index == |fates| && |received| == |fates| + 1
    else |received| == |fates|
  }

  ghost predicate Inv(s: State) {
    && QueriesInv(s.q, s.closed, s.drained)
    && PipeInv(s.posted, s.taken, s.outbound, s.sink, s.sinkCloses)
    && ClosersInv(s.closers, s.winner, s.closed, s.drained)
    && TasksInv(s.outbound, s.inbound, s.winner, s.closed, s.drained)
    && EventsInv(s.events, Announced(s.closers, s.outbound, s.inbound, s.winner))
    && AnswersInv(s.q.callers, s.received, s.fates)
    && InHand(s.inbound, s.received, s.fates)
    && FrameEvents(s.events) == Unmatched(s.fates)
  }

  /** The states that satisfy the invariant. */
  ghost function Good(): iset<State> {
    iset s | Inv(s)
  }

  /** Putting the parts together, once for every kind of step. */
  lemma Together(s: State)
    requires QueriesInv(s.q, s.closed, s.drained)
    requires PipeInv(s.posted, s.taken, s.outbound, s.sink, s.sinkCloses)
    requires ClosersInv(s.closers, s.winner, s.closed, s.drained)
    requires TasksInv(s.outbound, s.inbound, s.winner, s.closed, s.drained)
    requires EventsInv(s.events, Announced(s.closers, s.outbound, s.inbound, s.winner))
    requires AnswersInv(s.q.callers, s.received, s.fates)
    requires InHand(s.inbound, s.received, s.fates)
    requires FrameEvents(s.events) == Unmatched(s.fates)
    ensures s in Good()
  {
  }

  lemma FreshQueue(s: State)
    requires Fresh(s)
    ensures QueriesInv(s.q, s.closed, s.drained)
    ensures PipeInv(s.posted, s.taken, s.outbound, s.sink, s.sinkCloses)
  {
    NoQueries(s.q);
  }

  lemma FreshParties(s: State)
    requires Fresh(s)
    ensures ClosersInv(s.closers, s.winner, s.closed, s.drained)
    ensures TasksInv(s.outbound, s.inbound, s.winner, s.closed, s.drained)
    ensures EventsInv(s.events, Announced(s.closers, s.outbound, s.inbound, s.winner))
  {
  }

  lemma FreshIsGood(s: State)
    requires Fresh(s)
    ensures s in Good()
  {
    FreshQueue(s);
    FreshParties(s);
    Together(s);
  }

  // ----- Steps of queries and senders ----------------------------------------------

  lemma AnswersKept(a: seq<Caller>, b: seq<Caller>, received: seq<Inbound>, fates: seq<Fate>)
    requires AnswersInv(a, received, fates) && SameValues(a, b)
    ensures AnswersInv(b, received, fates)
  {
  }

  /** A step that only changes the queries. */
  lemma OnlyQueries(s: State, q: Pending)
    requires s in Good() && QueriesInv(q, s.closed, s.drained) && SameValues(s.q.callers, q.callers)
    ensures s.(q := q) in Good()
  {
    AnswersKept(s.q.callers, q.callers, s.received, s.fates);
    Together(s.(q := q));
  }

  lemma MoveOnly(s: State, c: nat, pc: Pc)
    requires s in Good() && c < |s.q.callers| && Moves(s.q, c, pc, s.closed, s.drained)
    ensures s.(q := WithPc(s.q, c, pc)) in Good()
  {
    MoveKeeps(s.q, c, pc, s.closed, s.drained);
    OnlyQueries(s, WithPc(s.q, c, pc));
  }

  lemma OnlyPosted(s: State, cmd: Command)
    requires s in Good()
    ensures s.(posted := s.posted + [cmd]) in Good()
  {
    PostKeepsPipe(s.posted, s.taken, s.outbound, s.sink, s.sinkCloses, cmd);
    Together(s.(posted := s.posted + [cmd]));
  }

  lemma QueryStepKeeps(s: State, c: nat, step: QueryStep)
    requires s in Good() && c < |s.q.callers| && DoQuery(s, c, step).Some?
    ensures DoQuery(s, c, step).value in Good()
  {
    var k := s.q.callers[c];
    match step {
      case Register =>
        RegisterKeeps(s.q, c, s.closed, s.drained);
        RegisterValues(s.q, c);
        OnlyQueries(s, RegisterTag(s.q, c));
      case Refuse => MoveOnly(s, c, Leaving(Unsendable));
      case CheckFlag => MoveOnly(s, c, if s.closed then Leaving(ConnectionClosed) else Sending);
      case Enqueue =>
        if QueueOpen(s) {
          OnlyPosted(s, SendFrame(k.frame));
          MoveOnly(s.(posted := s.posted + [SendFrame(k.frame)]), c, Waiting);
        } else {
          MoveOnly(s, c, Leaving(ConnectionClosed));
        }
      case Wake => MoveOnly(s, c, Done(if k.slot.Value? then Payload(k.slot.frame) else ConnectionClosed));
      case Expire => MoveOnly(s, c, Leaving(TimedOut));
      case Cancel => MoveOnly(s, c, Leaving(Cancelled));
      case Remove =>
        LeaveKeeps(s.q, c, k.pc.answer, s.closed, s.drained);
        LeaveValues(s.q, c, k.pc.answer);
        OnlyQueries(s, Leave(s.q, c, k.pc.answer));
    }
  }

  lemma SenderStepKeeps(s: State, i: nat)
    requires s in Good() && i < |s.senders| && DoSender(s, i).Some?
    ensures DoSender(s, i).value in Good()
  {
    var t := DoSender(s, i).value;
    if s.senders[i].SenderSending? && QueueOpen(s) {
      OnlyPosted(s, SendFrame(s.senders[i].frame));
    }
    Together(t);
  }

  // ----- Steps of closers ------------------------------------------------------------

  lemma DrainKeepsAll(s: State)
    requires s in Good() && s.closed
    ensures DrainTable(s) in Good()
  {
    DrainKeeps(s.q, s.drained);
    DrainValues(s.q);
    AnswersKept(s.q.callers, DrainAll(s.q).callers, s.received, s.fates);
    Together(DrainTable(s));
  }

  /** A closer that moves on without announcing anything. */
  lemma CloserMoves(s: State, i: nat, pc: CloserPc)
    requires s in Good() && i < |s.closers| && !s.closers[i].pc.Swapping? && !s.closers[i].pc.Finished?
    requires !pc.Swapping? && (pc.Draining? || s.drained) && (pc == Finished(Completed) ==> s.closers[i].wasClosed)
    ensures WithCloser(s, i, pc) in Good()
  {
    Together(WithCloser(s, i, pc));
  }

  /** Handles that tasks are joined and stopped through. */
  lemma HandlesFree(s: State, outbound: bool, inbound: bool)
    requires s in Good()
    ensures s.(outboundJoinable := outbound) in Good() && s.(inboundStoppable := inbound) in Good()
  {
    Together(s.(outboundJoinable := outbound));
    Together(s.(inboundStoppable := inbound));
  }

  lemma SwapKeeps(s: State, i: nat)
    requires s in Good() && i < |s.closers| && s.closers[i].pc.Swapping?
    ensures Turn(s, ByCloser(i)).(closers := s.closers[i := Closer(Draining, s.closed)]) in Good()
  {
    CloseKeeps(s.q, s.closed, s.drained);
    Together(Turn(s, ByCloser(i)).(closers := s.closers[i := Closer(Draining, s.closed)]));
  }

  lemma FrameEventsAppend(events: seq<Event>, e: Event)
    ensures FrameEvents(events + [e]) == (if e.RawFrame? || e.RawNode? then FrameEvents(events) + [e.index] else FrameEvents(events))
    decreases |events|
  {
    if events == [] {
      assert (events + [e])[1..] == [];
    } else {
      assert (events + [e])[1..] == events[1..] + [e];
      FrameEventsAppend(events[1..], e);
    }
  }

  lemma AnnounceKeeps(s: State, i: nat)
    requires s in Good() && i < |s.closers| && s.closers[i].pc.Emitting? && !s.closers[i].wasClosed
    ensures WithCloser(s, i, Finished(Completed)).(events := s.events + [Closed]) in Good()
  {
    CountAppend(s.events, Closed);
    FrameEventsAppend(s.events, Closed);
    Together(WithCloser(s, i, Finished(Completed)).(events := s.events + [Closed]));
  }

  lemma CloserStepKeeps(s: State, i: nat, step: CloserStep)
    requires s in Good() && i < |s.closers| && DoCloser(s, i, step).Some?
    ensures DoCloser(s, i, step).value in Good()
  {
    var k := s.closers[i];
    match step {
      case Swap => SwapKeeps(s, i);
      case Drain => DrainStepKeeps(s, i);
      case Post =>
        CloserMoves(s, i, Taking);
        OnlyPosted(WithCloser(s, i, Taking), CloseSink);
      case Take =>
        CloserMoves(s, i, Joining);
        CloserMoves(s, i, Stopping);
        HandlesFree(WithCloser(s, i, Joining), false, false);
      case Join =>
        CloserMoves(s, i, Stopping);
        CloserMoves(s, i, Finished(JoinFailed));
      case Stop =>
        CloserMoves(s, i, Halting);
        CloserMoves(s, i, Emitting);
        HandlesFree(WithCloser(s, i, Halting), false, false);
      case Halt => CloserMoves(s, i, Emitting);
      case Announce =>
        if k.wasClosed {
          CloserMoves(s, i, Finished(Completed));
        } else {
          AnnounceKeeps(s, i);
        }
      case Abandon => CloserMoves(s, i, Finished(Abandoned));
    }
  }

  lemma DrainStepKeeps(s: State, i: nat)
    requires s in Good() && i < |s.closers| && s.closers[i].pc.Draining?
    ensures DrainTable(WithCloser(s, i, Posting)) in Good()
  {
    DrainKeepsAll(s);
    CloserMoves(DrainTable(s), i, Posting);
    assert WithCloser(DrainTable(s), i, Posting) == DrainTable(WithCloser(s, i, Posting));
  }

  // ----- Steps of the outbound task ----------------------------------------------------

  lemma TakeFrameKeeps(s: State, f: Bytes)
    requires s in Good() && s.outbound.OutReady? && s.taken < |s.posted| && s.posted[s.taken] == SendFrame(f)
    ensures s.(taken := s.taken + 1, sink := s.sink + [f], outbound := OutSending) in Good()
  {
    TakeKeepsPipe(s.posted, s.taken, s.sink, s.sinkCloses);
    Together(s.(taken := s.taken + 1, sink := s.sink + [f], outbound := OutSending));
  }

  lemma TakeCloseKeeps(s: State)
    requires s in Good() && s.outbound.OutReady? && s.taken < |s.posted| && s.posted[s.taken].CloseSink?
    ensures s.(taken := s.taken + 1, sinkCloses := s.sinkCloses + 1, outbound := OutClosing) in Good()
  {
    TakeKeepsPipe(s.posted, s.taken, s.sink, s.sinkCloses);
    Together(s.(taken := s.taken + 1, sinkCloses := s.sinkCloses + 1, outbound := OutClosing));
  }

  lemma TakeStepKeeps(s: State)
    requires s in Good() && DoOutbound(s, TakeCommand).Some?
    ensures DoOutbound(s, TakeCommand).value in Good()
  {
    match s.posted[s.taken] {
      case SendFrame(f) => TakeFrameKeeps(s, f);
      case CloseSink => TakeCloseKeeps(s);
    }
  }

  /** The outbound task moves on without touching anything else. */
  lemma OutboundMoves(s: State, pc: OutPc)
    requires s in Good() && !s.outbound.OutReady? && !s.outbound.OutDone? && !s.outbound.OutDraining? && !s.outbound.OutEmitting?
    requires pc.OutReady? ==> s.outbound.OutSending?
    requires pc.OutReady? || pc.OutSwapping? || (pc.OutDone? && s.closed)
    ensures s.(outbound := pc) in Good()
  {
    Together(s.(outbound := pc));
  }

  lemma OutTurnKeeps(s: State, ok: bool)
    requires s in Good() && s.outbound.OutSwapping? && !s.closed
    ensures Turn(s, ByOutbound).(outbound := OutDraining(ok)) in Good()
  {
    CloseKeeps(s.q, s.closed, s.drained);
    Together(Turn(s, ByOutbound).(outbound := OutDraining(ok)));
  }

  lemma OutDrainKeeps(s: State, ok: bool)
    requires s in Good() && s.outbound.OutDraining?
    ensures DrainTable(s).(outbound := OutEmitting(ok)) in Good()
  {
    DrainKeepsAll(s);
    Together(DrainTable(s).(outbound := OutEmitting(ok)));
  }

  lemma OutAnnounceKeeps(s: State, ok: bool)
    requires s in Good() && s.outbound.OutEmitting?
    ensures s.(outbound := OutDone(ok), events := s.events + [Closed]) in Good()
  {
    CountAppend(s.events, Closed);
    FrameEventsAppend(s.events, Closed);
    Together(s.(outbound := OutDone(ok), events := s.events + [Closed]));
  }

  lemma OutboundStepKeeps(s: State, step: OutStep)
    requires s in Good() && DoOutbound(s, step).Some?
    ensures DoOutbound(s, step).value in Good()
  {
    match step {
      case TakeCommand => TakeStepKeeps(s);
      case Sent(ok) => OutboundMoves(s, if ok then OutReady else OutSwapping(false));
      case SinkClosed(ok) => OutboundMoves(s, OutSwapping(ok));
      case OutSwap =>
        if s.closed {
          OutboundMoves(s, OutDone(s.outbound.ok));
        } else {
          OutTurnKeeps(s, s.outbound.ok);
        }
      case OutDrain => OutDrainKeeps(s, s.outbound.ok);
      case OutAnnounce => OutAnnounceKeeps(s, s.outbound.ok);
    }
  }

  // ----- Steps of the inbound task -----------------------------------------------------

  lemma UnmatchedAppend(fates: seq<Fate>, f: Fate)
    ensures Unmatched(fates + [f]) == (if f.ToEvents? then Unmatched(fates) + [|fates|] else Unmatched(fates))
  {
    assert (fates + [f])[..|fates + [f]| - 1] == fates;
  }

  /** The inbound task moves on with the frame it has, or with none. */
  lemma InboundMoves(s: State, pc: InPc)
    requires s in Good() && InHand(pc, s.received, s.fates)
    requires !s.inbound.InDraining? && !s.inbound.InEmitting? && !s.inbound.InDone?
    requires !pc.InDraining? && !pc.InEmitting?
    ensures s.(inbound := pc) in Good()
  {
    Together(s.(inbound := pc));
  }

  lemma ArriveKeeps(s: State, f: Inbound)
    requires s in Good() && s.inbound.InReady?
    ensures s.(received := s.received + [f], inbound := InTag(|s.received|)) in Good()
  {
    Together(s.(received := s.received + [f], inbound := InTag(|s.received|)));
  }

  /** Some query gets the frame in hand. */
  lemma AnswerRecorded(q: Pending, r: Pending, tag: Tag, received: seq<Inbound>, fates: seq<Fate>, c: nat)
    requires TableInv(q) && Resolved(q, r, tag, |fates|) && AnswersInv(q.callers, received, fates)
    requires |received| == |fates| + 1 && Addressed(received[|fates|], tag)
    requires c < |q.callers| && Held(q, c) && q.callers[c].tag == tag
    ensures AnswersInv(r.callers, received, fates + [ToQuery(c)])
  {
  }

  /** Nobody waits for the tag. */
  lemma NothingResolved(q: Pending, r: Pending, tag: Tag, frame: nat)
    requires TableInv(q) && Resolved(q, r, tag, frame) && Matched(q, tag).None?
    ensures SameValues(q.callers, r.callers)
  {
    forall c | 0 <= c < |q.callers| ensures r.callers[c] == q.callers[c] {
      assert !(Held(q, c) && q.callers[c].tag == tag);
    }
  }

  lemma AnswerKeeps(s: State, tag: Tag, r: Pending, c: nat)
    requires s in Good() && (s.inbound.InTag? || s.inbound.InNode?) && Addressed(s.received[|s.fates|], tag)
    requires QueriesInv(r, s.closed, s.drained) && Resolved(s.q, r, tag, |s.fates|) && Matched(s.q, tag) == Some(c)
    ensures s.(q := r, fates := s.fates + [ToQuery(c)], inbound := InReady) in Good()
  {
    AnswerRecorded(s.q, r, tag, s.received, s.fates, c);
    UnmatchedAppend(s.fates, ToQuery(c));
    Together(s.(q := r, fates := s.fates + [ToQuery(c)], inbound := InReady));
  }

  lemma TryKeeps(s: State, tag: Tag, otherwise: InPc)
    requires s in Good() && (s.inbound.InTag? || s.inbound.InNode?) && Addressed(s.received[|s.fates|], tag)
    requires otherwise == InNode(|s.fates|) || otherwise == InEmit(|s.fates|)
    ensures TryResolve(s, tag, |s.fates|, otherwise) in Good()
  {
    var i := |s.fates|;
    var r := Resolve(s.q, tag, i);
    ResolveKeeps(s.q, tag, i, s.closed, s.drained);
    ResolveResolves(s.q, tag, i);
    var m := Matched(s.q, tag);
    if m.Some? {
      AnswerKeeps(s, tag, r, m.value);
    } else {
      NothingResolved(s.q, r, tag, i);
      OnlyQueries(s, r);
      InboundMoves(s.(q := r), otherwise);
    }
  }

  lemma LostKeeps(s: State)
    requires s in Good() && s.inbound.InNode?
    ensures s.(inbound := InDone, fates := s.fates + [Lost]) in Good()
  {
    UnmatchedAppend(s.fates, Lost);
    Together(s.(inbound := InDone, fates := s.fates + [Lost]));
  }

  lemma EmitKeeps(s: State, e: Event)
    requires s in Good() && s.inbound.InEmit?
    requires e == RawFrame(s.inbound.index) || e == RawNode(s.inbound.index)
    ensures s.(inbound := InReady, fates := s.fates + [ToEvents], events := s.events + [e]) in Good()
  {
    UnmatchedAppend(s.fates, ToEvents);
    CountAppend(s.events, e);
    FrameEventsAppend(s.events, e);
    Together(s.(inbound := InReady, fates := s.fates + [ToEvents], events := s.events + [e]));
  }

  lemma InTurnKeeps(s: State)
    requires s in Good() && s.inbound.InSwapping? && !s.closed
    ensures Turn(s, ByInbound).(inbound := InDraining) in Good()
  {
    CloseKeeps(s.q, s.closed, s.drained);
    Together(Turn(s, ByInbound).(inbound := InDraining));
  }

  lemma InDrainKeeps(s: State)
    requires s in Good() && s.inbound.InDraining?
    ensures DrainTable(s).(inbound := InEmitting) in Good()
  {
    DrainKeepsAll(s);
    Together(DrainTable(s).(inbound := InEmitting));
  }

  lemma InAnnounceKeeps(s: State)
    requires s in Good() && s.inbound.InEmitting?
    ensures s.(inbound := InDone, events := s.events + [Closed]) in Good()
  {
    CountAppend(s.events, Closed);
    FrameEventsAppend(s.events, Closed);
    Together(s.(inbound := InDone, events := s.events + [Closed]));
  }

  lemma TryTagKeeps(s: State)
    requires s in Good() && DoInbound(s, TryTag).Some?
    ensures DoInbound(s, TryTag).value in Good()
  {
    var f := s.received[s.inbound.index];
    if f.tag.Some? {
      TryKeeps(s, f.tag.value, InNode(s.inbound.index));
    } else {
      InboundMoves(s, InNode(s.inbound.index));
    }
  }

  lemma TryNodeKeeps(s: State)
    requires s in Good() && DoInbound(s, TryNode).Some?
    ensures DoInbound(s, TryNode).value in Good()
  {
    var f := s.received[s.inbound.index];
    if f.node.Some? && f.node.value.Some? {
      TryKeeps(s, f.node.value.value, InEmit(s.inbound.index));
    } else {
      InboundMoves(s, InEmit(s.inbound.index));
    }
  }

  lemma InboundStepKeeps(s: State, step: InStep)
    requires s in Good() && DoInbound(s, step).Some?
    ensures DoInbound(s, step).value in Good()
  {
    match step {
      case Arrive(f) => ArriveKeeps(s, f);
      case StreamEnds => InboundMoves(s, InSwapping);
      case TryTag => TryTagKeeps(s);
      case TryNode => TryNodeKeeps(s);
      case Fail => LostKeeps(s);
      case EmitFrame =>
        EmitKeeps(s, if s.received[s.inbound.index].node.Some? then RawNode(s.inbound.index) else RawFrame(s.inbound.index));
      case InSwap =>
        if s.closed {
          InboundMoves(s, InDone);
        } else {
          InTurnKeeps(s);
        }
      case InDrain => InDrainKeeps(s);
      case InAnnounce => InAnnounceKeeps(s);
      case Aborted => InboundMoves(s, InDone);
    }
  }

  // ----- Every run ---------------------------------------------------------------------

  lemma NewKeeps(s: State, step: Step)
    requires s in Good() && Do(s, step).Some?
    requires step.Spawned? || step.NewQuery? || step.NewSender? || step.NewCloser?
    ensures Do(s, step).value in Good()
  {
    match step {
      case Spawned =>
        CountAppend(s.events, Opened);
        FrameEventsAppend(s.events, Opened);
      case NewQuery(tag, frame) =>
        NewCallerKeeps(s.q, tag, frame, s.closed, s.drained);
        AnswersKept(s.q.callers, Do(s, step).value.q.callers, s.received, s.fates);
      case _ =>
    }
    Together(Do(s, step).value);
  }

  lemma StepKeeps(s: State, step: Step)
    requires s in Good() && Do(s, step).Some?
    ensures Do(s, step).value in Good()
  {
    match step {
      case OfQuery(c, k) => QueryStepKeeps(s, c, k);
      case OfSender(i) => SenderStepKeeps(s, i);
      case DropSend(i) => Together(Do(s, step).value);
      case OfCloser(i, k) => CloserStepKeeps(s, i, k);
      case OfOutbound(k) => OutboundStepKeeps(s, k);
      case OfInbound(k) => InboundStepKeeps(s, k);
      case _ => NewKeeps(s, step);
    }
  }

  lemma {:induction false} ExecKeeps(s: State, steps: seq<Step>)
    requires s in Good() && Exec(s, steps).Some?
    ensures Exec(s, steps).value in Good()
    decreases |steps|
  {
    if steps != [] {
      StepKeeps(s, steps[0]);
      ExecKeeps(Do(s, steps[0]).value, steps[1..]);
    }
  }

  /** Every state that any interleaving reaches satisfies the invariant. */
  lemma ReachableIsGood(s: State)
    requires Reachable(s)
    ensures s in Good()
  {
    var start, steps :| Fresh(start) && Exec(start, steps) == Some(s);
    FreshIsGood(start);
    ExecKeeps(start, steps);
  }

  // ----- What single steps leave alone -------------------------------------------------

  lemma SenderLeaves(s: State, i: nat)
    requires i < |s.senders| && DoSender(s, i).Some?
    ensures var t := DoSender(s, i).value; t == s.(senders := t.senders, posted := t.posted)
  {
    match s.senders[i] {
      case SenderChecking(_) =>
      case SenderSending(_) =>
    }
  }

  lemma QueryLeaves(s: State, c: nat, step: QueryStep)
    requires c < |s.q.callers| && DoQuery(s, c, step).Some?
    ensures var t := DoQuery(s, c, step).value; t == s.(q := t.q, posted := t.posted)
  {
    match step {
      case Register =>
      case Refuse =>
      case CheckFlag =>
      case Enqueue =>
      case Wake =>
      case Expire =>
      case Cancel =>
      case Remove =>
    }
  }

  lemma CloserLeavesOthers(s: State, i: nat, step: CloserStep)
    requires i < |s.closers| && DoCloser(s, i, step).Some?
    ensures var t := DoCloser(s, i, step).value;
            |t.closers| == |s.closers| && t.closers == s.closers[i := t.closers[i]]
  {
    match step {
      case Swap =>
      case Drain =>
      case Post =>
      case Take =>
      case Join =>
      case Stop =>
      case Halt =>
      case Announce =>
      case Abandon =>
    }
  }

  lemma CloserLeaves(s: State, i: nat, step: CloserStep)
    requires i < |s.closers| && DoCloser(s, i, step).Some?
    ensures var t := DoCloser(s, i, step).value;
            t.spawned == s.spawned && t.outbound == s.outbound && t.inbound == s.inbound && t.fates == s.fates
  {
    match step {
      case Swap =>
      case Drain =>
      case Post =>
      case Take =>
      case Join =>
      case Stop =>
      case Halt =>
      case Announce =>
      case Abandon =>
    }
  }

  /** What resolving a tag leaves alone, and where the loop goes on. */
  lemma TryLeaves(s: State, tag: Tag, i: nat, otherwise: InPc)
    ensures var t := TryResolve(s, tag, i, otherwise);
            && t.q == Resolve(s.q, tag, i) && t == s.(q := t.q, fates := t.fates, inbound := t.inbound)
            && |t.q.callers| == |s.q.callers|
            && ((t.inbound == otherwise && t.fates == s.fates) || (t.inbound.InReady? && exists c :: t.fates == s.fates + [ToQuery(c)]))
  {
    var m := Matched(s.q, tag);
    var t := TryResolve(s, tag, i, otherwise);
    if m.Some? {
      assert t.fates == s.fates + [ToQuery(m.value)];
    }
  }

  // ----- Runs written out ----------------------------------------------------------------

  lemma {:induction false} ExecMore(s: State, steps: seq<Step>, more: seq<Step>)
    requires Exec(s, steps).Some?
    ensures Exec(s, steps + more) == Exec(Exec(s, steps).value, more)
    decreases |steps|
  {
    if steps == [] {
      assert steps + more == more;
    } else {
      assert (steps + more)[0] == steps[0] && (steps + more)[1..] == steps[1..] + more;
      ExecMore(Do(s, steps[0]).value, steps[1..], more);
    }
  }

  lemma ReachMore(s: State, step: Step)
    requires Reachable(s) && Do(s, step).Some?
    ensures Reachable(Do(s, step).value)
  {
    var start, steps :| Fresh(start) && Exec(start, steps) == Some(s);
    ExecMore(start, steps, [step]);
    assert [step][1..] == [];
    assert Exec(s, [step]) == Some(Do(s, step).value);
  }

  lemma FreshExists() returns (s: State)
    ensures Fresh(s) && Reachable(s)
  {
    s := State(false, false, false, Nobody, Pending([], map[], false), [], [], [], 0, OutReady, true, [], 0, InReady, true,
               [], [], []);
    assert Exec(s, []) == Some(s);
  }

  /** One more step of a run that is being written out. */
  lemma Next(s: State, step: Step) returns (t: State)
    requires Reachable(s) && Do(s, step).Some?
    ensures t == Do(s, step).value && Reachable(t)
  {
    ReachMore(s, step);
    t := Do(s, step).value;
  }
}
