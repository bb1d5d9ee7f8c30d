/** How queries and sends end, told from the steps of a run (crates/wa-core/src/connection.rs, query.rs). */
module ConnectionOutcomes {
  import opened Prelude
  import opened Queries
  import opened Connection
  import opened ConnectionSafety
  import opened ConnectionTheorems

  // ----- Queries -----------------------------------------------------------------

  /** What a step decides about the end of query `c`, if it decides anything. */
  function Decides(s: State, step: Step, c: nat): Option<Answer>
    requires c < |s.q.callers|
  {
    var k := s.q.callers[c];
    if !step.OfQuery? || step.caller != c then None
    else
      match step.query
      case Register => if k.tag in s.q.waiters then Some(DuplicateTag) else None // someone has the tag
      case CheckFlag => if s.closed then Some(ConnectionClosed) else None // the flag is set
      case Enqueue => if s.outbound.OutDone? then Some(ConnectionClosed) else None // nobody takes commands any more
      case Wake =>
        (match k.slot
         case Value(i) => Some(Payload(i)) // a frame has come through
         case Dropped => Some(ConnectionClosed) // the sender is gone
         case Empty => None)
      case Refuse => Some(Unsendable)
      case Expire => Some(TimedOut)
      case Cancel => Some(Cancelled)
      case Remove => None
  }

  /** The first such decision of a run. */
  function Verdict(s: State, steps: seq<Step>, c: nat): Option<Answer>
    decreases |steps|
  {
    if steps == [] || Do(s, steps[0]).None? then None
    else if c < |s.q.callers| && Decides(s, steps[0], c).Some? then Decides(s, steps[0], c)
    else Verdict(Do(s, steps[0]).value, steps[1..], c)
  }

  /** How a query ends, once that is decided. */
  function EndOf(pc: Pc): Option<Answer> {
    if pc.Leaving? || pc.Done? then Some(pc.answer) else None
  }

  lemma OwnVerdict(s: State, c: nat, k: QueryStep)
    requires c < |s.q.callers| && DoQuery(s, c, k).Some?
    ensures var t, before := DoQuery(s, c, k).value, EndOf(s.q.callers[c].pc);
            && |t.q.callers| == |s.q.callers|
            && (before.Some? ==> EndOf(t.q.callers[c].pc) == before && Decides(s, OfQuery(c, k), c).None?)
            && (before.None? ==> EndOf(t.q.callers[c].pc) == Decides(s, OfQuery(c, k), c))
  {
    match k {
      case Register => DropOne(s.q.callers, EntryFor(s.q.waiters, s.q.callers[c].tag));
      case Remove => LeftPc(s.q, c, s.q.callers[c].pc.answer);
      case Refuse =>
      case CheckFlag =>
      case Enqueue =>
      case Wake =>
      case Expire =>
      case Cancel =>
    }
  }

  lemma OthersVerdict(s: State, step: Step, c: nat)
    requires c < |s.q.callers| && Do(s, step).Some? && !(step.OfQuery? && step.caller == c)
    ensures PcKept(s.q.callers, Do(s, step).value.q.callers, c)
  {
    match step {
      case OfQuery(d, k) => OtherQueries(s, d, k, c);
      case OfCloser(i, k) => OtherClosers(s, i, k, c);
      case OfOutbound(k) => OtherOutbound(s, k, c);
      case OfInbound(k) => OtherInbound(s, k, c);
      case OfSender(i) => SenderLeaves(s, i);
      case _ =>
    }
  }

  lemma StepVerdict(s: State, step: Step, c: nat)
    requires c < |s.q.callers| && Do(s, step).Some?
    ensures var t, before := Do(s, step).value, EndOf(s.q.callers[c].pc);
            && c < |t.q.callers|
            && (before.Some? ==> EndOf(t.q.callers[c].pc) == before)
            && (before.None? ==> EndOf(t.q.callers[c].pc) == Decides(s, step, c))
  {
    if step.OfQuery? && step.caller == c {
      OwnVerdict(s, c, step.query);
    } else {
      OthersVerdict(s, step, c);
    }
  }

  lemma {:induction false} RunVerdict(s: State, steps: seq<Step>, c: nat)
    requires c < |s.q.callers| && Exec(s, steps).Some?
    ensures var t, before := Exec(s, steps).value, EndOf(s.q.callers[c].pc);
            && c < |t.q.callers|
            && EndOf(t.q.callers[c].pc) == (if before.Some? then before else Verdict(s, steps, c))
    decreases |steps|
  {
    if steps != [] {
      StepVerdict(s, steps[0], c);
      RunVerdict(Do(s, steps[0]).value, steps[1..], c);
    }
  }

  /** A query that a step brings is about to register. */
  lemma Newcomer(s: State, step: Step, t: State, c: nat)
    requires Do(s, step) == Some(t) && |s.q.callers| <= c < |t.q.callers|
    ensures t.q.callers[c].pc.Registering?
  {
    match step {
      case OfQuery(d, k) => OwnVerdict(s, d, k);
      case OfCloser(i, k) => CloserPosted(s, i, k);
      case OfOutbound(k) => OutboundPosted(s, k);
      case OfInbound(k) => InboundPosted(s, k);
      case OfSender(i) => SenderLeaves(s, i);
      case _ =>
    }
  }

  /** A step before the query is there decides nothing about it. */
  lemma NotYet(s: State, steps: seq<Step>, c: nat)
    requires steps != [] && |s.q.callers| <= c && Exec(s, steps).Some?
    ensures Do(s, steps[0]).Some? && Exec(Do(s, steps[0]).value, steps[1..]) == Exec(s, steps)
    ensures Verdict(s, steps, c) == Verdict(Do(s, steps[0]).value, steps[1..], c)
  {
  }

  lemma {:induction false} LaterVerdict(s: State, steps: seq<Step>, c: nat)
    requires |s.q.callers| <= c && Exec(s, steps).Some? && c < |Exec(s, steps).value.q.callers|
    ensures EndOf(Exec(s, steps).value.q.callers[c].pc) == Verdict(s, steps, c)
    decreases |steps|
  {
    if steps != [] {
      NotYet(s, steps, c);
      var t := Do(s, steps[0]).value;
      if c < |t.q.callers| {
        Newcomer(s, steps[0], t, c);
        RunVerdict(t, steps[1..], c);
      } else {
        LaterVerdict(t, steps[1..], c);
      }
    }
  }

  /**
   In every run, a query ends, or is giving up, with the answer that the first deciding
   step has for it, and otherwise it has not ended: nothing that another query, a
   sender, a closer or one of the tasks does decides it, and nothing changes it later.
   */
  lemma EndsAsDecided(start: State, steps: seq<Step>, c: nat)
    requires Fresh(start) && Exec(start, steps).Some? && c < |Exec(start, steps).value.q.callers|
    ensures EndOf(Exec(start, steps).value.q.callers[c].pc) == Verdict(start, steps, c)
  {
    LaterVerdict(start, steps, c);
  }

  // ----- Sends ---------------------------------------------------------------------

  /** What a step decides about the end of send `i`: whether it returns without an error. */
  function DecidesSend(s: State, step: Step, i: nat): Option<bool>
    requires i < |s.senders|
  {
    if step == DropSend(i) then Some(false)
    else if step != OfSender(i) then None
    else if s.senders[i].SenderChecking? then (if s.closed then Some(false) else None)
    else Some(!s.outbound.OutDone?)
  }

  /** How the send stands after the step, and what the step has enqueued. */
  predicate SendFacts(s: State, t: State, i: nat, decided: Option<bool>) {
    && i < |s.senders| == |t.senders| && !s.senders[i].SenderDone?
    && t.senders[i] == (if decided.Some? then SenderDone(decided.value) else SenderSending(s.senders[i].frame))
    && t.posted == s.posted + (if decided == Some(true) then [SendFrame(s.senders[i].frame)] else [])
  }

  /**
   A send that finds the flag set fails; one that does not, waits for room, and returns
   without an error exactly if the outbound task still takes commands; its frame is then
   the last one enqueued, and in every other case nothing is enqueued.
   */
  lemma SendSteps(s: State, step: Step, t: State, i: nat)
    requires i < |s.senders| && (step == OfSender(i) || step == DropSend(i)) && Do(s, step) == Some(t)
    ensures SendFacts(s, t, i, DecidesSend(s, step, i))
  {
    if step == OfSender(i) {
      assert DoSender(s, i) == Some(t);
    } else {
      assert DoDropSend(s, i) == Some(t);
    }
  }
}
