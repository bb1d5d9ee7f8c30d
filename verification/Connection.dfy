/**
 The life of a connection (crates/wa-core/src/connection.rs): queries, senders and
 closers, the outbound task and the inbound task, interleaved at every shared
 access.
 */
module Connection {
  import opened Prelude
  import opened Queries

  datatype Command = SendFrame(frame: Bytes) | CloseSink

  /**
   An inbound frame: its own tag, if any; if it decodes to a node, that node's id, if
   any; and whether that node can be written again (`ConnectionFrames.Describe`).
   */
  datatype Inbound = Inbound(tag: Option<Tag>, node: Option<Option<Tag>>, writable: bool)

  /** The node has an id, so it is written again before the id is resolved, and that fails. */
  predicate Stuck(f: Inbound) {
    f.node.Some? && f.node.value.Some? && !f.writable
  }

  datatype Event = Opened | Closed | RawFrame(index: nat) | RawNode(index: nat)

  /** `send_frame` outside a query: about to look at the flag, about to enqueue, finished. */
  datatype Sender = SenderChecking(frame: Bytes) | SenderSending(frame: Bytes) | SenderDone(ok: bool)

  /** How a call of `close` ends: it runs through, joining finds that the outbound task failed, or it is dropped. */
  datatype CloseEnd = Completed | JoinFailed | Abandoned

  /** A call of `close`, with what its swap of the flag returned. */
  datatype CloserPc = Swapping | Draining | Posting | Taking | Joining | Stopping | Halting | Emitting | Finished(end: CloseEnd)

  datatype Closer = Closer(pc: CloserPc, wasClosed: bool)

  /** The outbound loop, and then `mark_closed`. */
  datatype OutPc = OutReady | OutSending | OutClosing | OutSwapping(ok: bool) | OutDraining(ok: bool) | OutEmitting(ok: bool) | OutDone(ok: bool)

  /** The inbound loop with the number of the frame in hand, and then `mark_closed`. */
  datatype InPc = InReady | InTag(index: nat) | InNode(index: nat) | InEmit(index: nat) | InSwapping | InDraining | InEmitting | InDone

  /** Who turned the closed flag from false to true. */
  datatype Winner = Nobody | ByCloser(closer: nat) | ByOutbound | ByInbound

  /** What became of an inbound frame: a query's answer, an event, or lost because the loop failed on it. */
  datatype Fate = ToQuery(caller: nat) | ToEvents | Lost

  datatype State = State(
    spawned: bool, // whether `spawn` has returned the connection
    closed: bool,
    drained: bool,
    winner: Winner,
    q: Pending,
    senders: seq<Sender>,
    closers: seq<Closer>,
    posted: seq<Command>, // every command enqueued so far
    taken: nat, // how many of them the outbound loop has taken
    outbound: OutPc,
    outboundJoinable: bool,
    sink: seq<Bytes>, // every frame handed to the sink
    sinkCloses: nat,
    inbound: InPc,
    inboundStoppable: bool,
    received: seq<Inbound>,
    fates: seq<Fate>,
    events: seq<Event>)

  /** A connection as `spawn` builds it, before its tasks have run. */
  predicate Fresh(s: State) {
    && !s.spawned && !s.closed && !s.drained && s.winner.Nobody?
    && s.q.callers == [] && s.q.waiters == map[] && !s.q.disturbed
    && s.senders == [] && s.closers == []
    && s.posted == [] && s.taken == 0 && s.outbound.OutReady? && s.outboundJoinable && s.sink == [] && s.sinkCloses == 0
    && s.inbound.InReady? && s.inboundStoppable && s.received == [] && s.fates == [] && s.events == []
  }

  /** The queue's receiving end lives as long as the outbound task. */
  predicate QueueOpen(s: State) {
    !s.outbound.OutDone?
  }

  // ----- Steps -----------------------------------------------------------------

  datatype QueryStep = Register | Refuse | CheckFlag | Enqueue | Wake | Expire | Cancel | Remove

  datatype CloserStep = Swap | Drain | Post | Take | Join | Stop | Halt | Announce | Abandon

  datatype OutStep = TakeCommand | Sent(ok: bool) | SinkClosed(ok: bool) | OutSwap | OutDrain | OutAnnounce

  datatype InStep = Arrive(frame: Inbound) | StreamEnds | TryTag | TryNode | Fail | EmitFrame | InSwap | InDrain | InAnnounce | Aborted

  datatype Step =
    | Spawned
    | NewQuery(tag: Tag, frame: Bytes)
    | NewSender(frame: Bytes)
    | NewCloser
    | OfQuery(caller: nat, query: QueryStep)
    | OfSender(sender: nat)
    | DropSend(sender: nat)
    | OfCloser(closer: nat, close: CloserStep)
    | OfOutbound(out: OutStep)
    | OfInbound(inb: InStep)

  /** `query` and `query_node`, from registering to dropping the waiter. */
  function DoQuery(s: State, c: nat, step: QueryStep): Option<State>
    requires c < |s.q.callers|
  {
    var k := s.q.callers[c];
    match step
    case Register =>
      if k.pc.Registering? then Some(s.(q := RegisterTag(s.q, c))) else None
    case Refuse => // the request cannot be encoded
      if k.pc.Checking? then Some(s.(q := WithPc(s.q, c, Leaving(Unsendable)))) else None
    case CheckFlag =>
      if k.pc.Checking? then Some(s.(q := WithPc(s.q, c, if s.closed then Leaving(ConnectionClosed) else Sending)))
      else None
    case Enqueue =>
      if !k.pc.Sending? then None
      else if QueueOpen(s) then Some(s.(posted := s.posted + [SendFrame(k.frame)], q := WithPc(s.q, c, Waiting)))
      else Some(s.(q := WithPc(s.q, c, Leaving(ConnectionClosed))))
    case Wake =>
      if !k.pc.Waiting? || k.slot.Empty? then None
      else Some(s.(q := WithPc(s.q, c, Done(if k.slot.Value? then Payload(k.slot.frame) else ConnectionClosed))))
    case Expire =>
      if k.pc.Waiting? && k.slot.Empty? then Some(s.(q := WithPc(s.q, c, Leaving(TimedOut)))) else None
    case Cancel => // the caller drops the future where it is suspended
      if k.pc.Sending? || k.pc.Waiting? then Some(s.(q := WithPc(s.q, c, Leaving(Cancelled)))) else None
    case Remove =>
      if k.pc.Leaving? then Some(s.(q := Leave(s.q, c, k.pc.answer))) else None
  }

  /** `send_frame` */
  function DoSender(s: State, i: nat): Option<State>
    requires i < |s.senders|
  {
    match s.senders[i]
    case SenderChecking(f) =>
      Some(s.(senders := s.senders[i := if s.closed then SenderDone(false) else SenderSending(f)]))
    case SenderSending(f) =>
      if QueueOpen(s) then Some(s.(posted := s.posted + [SendFrame(f)], senders := s.senders[i := SenderDone(true)]))
      else Some(s.(senders := s.senders[i := SenderDone(false)]))
    case SenderDone(_) => None
  }

  /** A caller of `send_frame` drops the future where it is suspended. */
  function DoDropSend(s: State, i: nat): Option<State>
    requires i < |s.senders|
  {
    if s.senders[i].SenderSending? then Some(s.(senders := s.senders[i := SenderDone(false)])) else None
  }

  function WithCloser(s: State, i: nat, pc: CloserPc): State
    requires i < |s.closers|
  {
    s.(closers := s.closers[i := s.closers[i].(pc := pc)])
  }

  /** Turning the flag, for whoever does it. */
  function Turn(s: State, who: Winner): State {
    s.(closed := true, winner := if s.closed then s.winner else who)
  }

  /** `close_pending` */
  function DrainTable(s: State): State {
    s.(q := DrainAll(s.q), drained := true)
  }

  /** `close` */
  function DoCloser(s: State, i: nat, step: CloserStep): Option<State>
    requires i < |s.closers|
  {
    var k := s.closers[i];
    match step
    case Swap =>
      if k.pc.Swapping? then Some(Turn(s, ByCloser(i)).(closers := s.closers[i := Closer(Draining, s.closed)])) else None
    case Drain =>
      if k.pc.Draining? then Some(DrainTable(WithCloser(s, i, Posting))) else None
    case Post =>
      if !k.pc.Posting? then None
      else if QueueOpen(s) then Some(WithCloser(s, i, Taking).(posted := s.posted + [CloseSink]))
      else Some(WithCloser(s, i, Taking))
    case Take =>
      if !k.pc.Taking? then None
      else if s.outboundJoinable then Some(WithCloser(s, i, Joining).(outboundJoinable := false))
      else Some(WithCloser(s, i, Stopping))
    case Join => // a failed task ends the call here
      if k.pc.Joining? && s.outbound.OutDone? then Some(WithCloser(s, i, if s.outbound.ok then Stopping else Finished(JoinFailed)))
      else None
    case Stop => // takes the handle and asks for the inbound task to be aborted
      if !k.pc.Stopping? then None
      else if s.inboundStoppable then Some(WithCloser(s, i, Halting).(inboundStoppable := false))
      else Some(WithCloser(s, i, Emitting))
    case Halt =>
      if k.pc.Halting? && s.inbound.InDone? then Some(WithCloser(s, i, Emitting)) else None
    case Announce =>
      if !k.pc.Emitting? then None
      else if k.wasClosed then Some(WithCloser(s, i, Finished(Completed)))
      else Some(WithCloser(s, i, Finished(Completed)).(events := s.events + [Closed]))
    case Abandon => // the caller drops the future where it is suspended
      if k.pc.Posting? || k.pc.Joining? || k.pc.Halting? then Some(WithCloser(s, i, Finished(Abandoned))) else None
  }

  /** `run_outbound` */
  function DoOutbound(s: State, step: OutStep): Option<State> {
    match step
    case TakeCommand =>
      if !s.outbound.OutReady? || s.taken >= |s.posted| then None
      else
        (match s.posted[s.taken]
         case SendFrame(f) => Some(s.(taken := s.taken + 1, sink := s.sink + [f], outbound := OutSending))
         case CloseSink => Some(s.(taken := s.taken + 1, sinkCloses := s.sinkCloses + 1, outbound := OutClosing)))
    case Sent(ok) =>
      if s.outbound.OutSending? then Some(s.(outbound := if ok then OutReady else OutSwapping(false))) else None
    case SinkClosed(ok) =>
      if s.outbound.OutClosing? then Some(s.(outbound := OutSwapping(ok))) else None
    case OutSwap =>
      if !s.outbound.OutSwapping? then None
      else if s.closed then Some(s.(outbound := OutDone(s.outbound.ok)))
      else Some(Turn(s, ByOutbound).(outbound := OutDraining(s.outbound.ok)))
    case OutDrain =>
      if s.outbound.OutDraining? then Some(DrainTable(s).(outbound := OutEmitting(s.outbound.ok))) else None
    case OutAnnounce =>
      if s.outbound.OutEmitting? then Some(s.(outbound := OutDone(s.outbound.ok), events := s.events + [Closed])) else None
  }

  /** `resolve`, for the frame in hand: an answer, or on to the next way to handle it. */
  function TryResolve(s: State, tag: Tag, i: nat, otherwise: InPc): State {
    var m := Matched(s.q, tag);
    var t := s.(q := Resolve(s.q, tag, i));
    if m.Some? then t.(fates := s.fates + [ToQuery(m.value)], inbound := InReady) else t.(inbound := otherwise)
  }

  /** `run_inbound` with `dispatch_binary_node` */
  function DoInbound(s: State, step: InStep): Option<State> {
    match step
    case Arrive(f) =>
      if s.inbound.InReady? then Some(s.(received := s.received + [f], inbound := InTag(|s.received|))) else None
    case StreamEnds =>
      if s.inbound.InReady? then Some(s.(inbound := InSwapping)) else None
    case TryTag =>
      if !s.inbound.InTag? || s.inbound.index >= |s.received| then None
      else
        var f := s.received[s.inbound.index];
        if f.tag.Some? then Some(TryResolve(s, f.tag.value, s.inbound.index, InNode(s.inbound.index)))
        else Some(s.(inbound := InNode(s.inbound.index)))
    case TryNode =>
      if !s.inbound.InNode? || s.inbound.index >= |s.received| then None
      else
        var f := s.received[s.inbound.index];
        if Stuck(f) then None
        else if f.node.Some? && f.node.value.Some? then
          Some(TryResolve(s, f.node.value.value, s.inbound.index, InEmit(s.inbound.index)))
        else Some(s.(inbound := InEmit(s.inbound.index)))
    case Fail => // the node cannot be written again: the task ends without closing the connection
      if !s.inbound.InNode? || s.inbound.index >= |s.received| || !Stuck(s.received[s.inbound.index]) then None
      else Some(s.(inbound := InDone, fates := s.fates + [Lost]))
    case EmitFrame =>
      if !s.inbound.InEmit? || s.inbound.index >= |s.received| then None
      else
        var e := if s.received[s.inbound.index].node.Some? then RawNode(s.inbound.index) else RawFrame(s.inbound.index);
        Some(s.(inbound := InReady, fates := s.fates + [ToEvents], events := s.events + [e]))
    case InSwap =>
      if !s.inbound.InSwapping? then None
      else if s.closed then Some(s.(inbound := InDone))
      else Some(Turn(s, ByInbound).(inbound := InDraining))
    case InDrain =>
      if s.inbound.InDraining? then Some(DrainTable(s).(inbound := InEmitting)) else None
    case InAnnounce =>
      if s.inbound.InEmitting? then Some(s.(inbound := InDone, events := s.events + [Closed])) else None
    case Aborted => // once a closer has asked for it, the task is cancelled where it waits for a frame
      if s.inbound.InReady? && !s.inboundStoppable then Some(s.(inbound := InDone)) else None
  }

  /** One step of any process, if it can take it. */
  function Do(s: State, step: Step): Option<State> {
    match step
    case Spawned => if s.spawned then None else Some(s.(spawned := true, events := s.events + [Opened]))
    case NewQuery(tag, frame) =>
      if s.spawned then Some(s.(q := s.q.(callers := s.q.callers + [Caller(tag, frame, Registering, Empty)])))
      else None
    case NewSender(frame) => if s.spawned then Some(s.(senders := s.senders + [SenderChecking(frame)])) else None
    case NewCloser => if s.spawned then Some(s.(closers := s.closers + [Closer(Swapping, false)])) else None
    case OfQuery(c, k) => if c < |s.q.callers| then DoQuery(s, c, k) else None
    case OfSender(i) => if i < |s.senders| then DoSender(s, i) else None
    case DropSend(i) => if i < |s.senders| then DoDropSend(s, i) else None
    case OfCloser(i, k) => if i < |s.closers| then DoCloser(s, i, k) else None
    case OfOutbound(k) => DoOutbound(s, k)
    case OfInbound(k) => DoInbound(s, k)
  }

  /** Where a sequence of steps leads. */
  function Exec(s: State, steps: seq<Step>): Option<State>
    decreases |steps|
  {
    if steps == [] then Some(s)
    else
      match Do(s, steps[0])
      case None => None
      case Some(t) => Exec(t, steps[1..])
  }

  ghost predicate Reachable(s: State) {
    exists start, steps :: Fresh(start) && Exec(start, steps) == Some(s)
  }
}
