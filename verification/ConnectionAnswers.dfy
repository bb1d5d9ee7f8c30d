/** Which queries are answered, which are told that the connection is closed, and which are left alone. */
module ConnectionAnswers {
  import opened Prelude
  import opened Queries
  import opened Connection
  import opened ConnectionSafety
  import opened ConnectionTheorems

  // ----- What a step does to a query's slot ------------------------------------------

  /**
   A registration that finds the entry of query `c`, or a query that leaves and
   removes it (crates/wa-core/src/query.rs:55 and 141-148).
   */
  predicate Overtakes(s: State, step: Step, c: nat) {
    match step
    case OfQuery(d, k) => d < |s.q.callers| && OvertakesBy(s.q, d, k, c)
    case _ => false
  }

  predicate OvertakesBy(q: Pending, d: nat, k: QueryStep, c: nat)
    requires d < |q.callers|
  {
    && d != c && (k.Register? || (k.Remove? && !TurnedDown(q.callers[d])))
    && EntryFor(q.waiters, q.callers[d].tag) == Some(Live(c))
  }

  lemma DisplacedSlot(q: Pending, r: Pending, d: nat, pc: Pc, k: QueryStep, c: nat)
    requires TableInv(q) && Displaced(q, r, d, pc) && (k.Register? || (k.Remove? && !TurnedDown(q.callers[d]))) && c < |q.callers|
    ensures r.callers[c].slot == if OvertakesBy(q, d, k, c) then Dropped else q.callers[c].slot
  {
  }

  lemma RegisterSlot(q: Pending, d: nat, c: nat)
    requires TableInv(q) && d < |q.callers| && q.callers[d].pc.Registering? && c < |q.callers|
    ensures |RegisterTag(q, d).callers| == |q.callers|
    ensures RegisterTag(q, d).callers[c].slot == if OvertakesBy(q, d, Register, c) then Dropped else q.callers[c].slot
  {
    if q.callers[d].tag in q.waiters {
      RegisterDisplaces(q, d);
      DisplacedSlot(q, RegisterTag(q, d), d, Leaving(DuplicateTag), Register, c);
    }
  }

  lemma LeaveSlot(q: Pending, d: nat, c: nat)
    requires TableInv(q) && d < |q.callers| && q.callers[d].pc.Leaving? && c < |q.callers|
    ensures var r := Leave(q, d, q.callers[d].pc.answer);
            |r.callers| == |q.callers|
            && r.callers[c].slot == if OvertakesBy(q, d, Remove, c) then Dropped else q.callers[c].slot
  {
    var answer := q.callers[d].pc.answer;
    if !answer.DuplicateTag? {
      LeaveDisplaces(q, d, answer);
      DisplacedSlot(q, Leave(q, d, answer), d, Done(answer), Remove, c);
    }
  }

  lemma QuerySlot(s: State, d: nat, k: QueryStep, c: nat)
    requires TableInv(s.q) && d < |s.q.callers| && DoQuery(s, d, k).Some? && c < |s.q.callers|
    ensures var t := DoQuery(s, d, k).value;
            |t.q.callers| == |s.q.callers| && t.closed == s.closed
            && t.q.callers[c].slot == if OvertakesBy(s.q, d, k, c) then Dropped else s.q.callers[c].slot
  {
    match k {
      case Register => RegisterSlot(s.q, d, c);
      case Remove => LeaveSlot(s.q, d, c);
      case Refuse =>
      case CheckFlag =>
      case Enqueue =>
      case Wake =>
      case Expire =>
      case Cancel =>
    }
  }

  /** A slot is only ever filled once, by the inbound loop, by closing, or by being overtaken. */
  predicate SlotMoves(s: State, step: Step, t: State, c: nat) {
    && c < |s.q.callers| <= |t.q.callers|
    && (s.closed ==> t.closed)
    && var from, to := s.q.callers[c].slot, t.q.callers[c].slot;
       if Overtakes(s, step, c) then to.Dropped? && t.closed == s.closed
       else to == from || (from.Empty? && ((to.Value? && step.OfInbound?) || (to.Dropped? && t.closed)))
  }

  lemma CloserSlot(s: State, i: nat, k: CloserStep, c: nat)
    requires s in Good() && i < |s.closers| && DoCloser(s, i, k).Some? && c < |s.q.callers|
    ensures SlotMoves(s, OfCloser(i, k), DoCloser(s, i, k).value, c)
  {
    if !k.Drain? {
      CloserLeavesQueries(s, i, k);
    }
  }

  lemma OutboundSlot(s: State, k: OutStep, c: nat)
    requires s in Good() && DoOutbound(s, k).Some? && c < |s.q.callers|
    ensures SlotMoves(s, OfOutbound(k), DoOutbound(s, k).value, c)
  {
    if !k.OutDrain? {
      OutboundKeepsQueries(s, k);
    }
  }

  lemma OutboundKeepsQueries(s: State, k: OutStep)
    requires !k.OutDrain? && DoOutbound(s, k).Some?
    ensures Leaves(s, DoOutbound(s, k).value)
  {
    match k {
      case TakeCommand =>
      case Sent(_) =>
      case SinkClosed(_) =>
      case OutSwap =>
      case OutAnnounce =>
    }
  }

  lemma ResolveSlot(q: Pending, tag: Tag, i: nat, c: nat)
    requires TableInv(q) && c < |q.callers|
    ensures |Resolve(q, tag, i).callers| == |q.callers|
    ensures var from, to := q.callers[c].slot, Resolve(q, tag, i).callers[c].slot; to == from || (from.Empty? && to.Value?)
  {
    ResolveResolves(q, tag, i);
  }

  lemma TrySlot(s: State, tag: Tag, i: nat, otherwise: InPc, k: InStep, c: nat)
    requires TableInv(s.q) && c < |s.q.callers|
    ensures SlotMoves(s, OfInbound(k), TryResolve(s, tag, i, otherwise), c)
  {
    ResolveSlot(s.q, tag, i, c);
    TryLeaves(s, tag, i, otherwise);
  }

  lemma InboundSlot(s: State, k: InStep, c: nat)
    requires s in Good() && DoInbound(s, k).Some? && c < |s.q.callers|
    ensures SlotMoves(s, OfInbound(k), DoInbound(s, k).value, c)
  {
    match k {
      case Arrive(_) =>
      case StreamEnds =>
      case TryTag =>
        var f := s.received[s.inbound.index];
        if f.tag.Some? {
          TrySlot(s, f.tag.value, s.inbound.index, InNode(s.inbound.index), k, c);
        }
      case TryNode =>
        var f := s.received[s.inbound.index];
        if f.node.Some? && f.node.value.Some? {
          TrySlot(s, f.node.value.value, s.inbound.index, InEmit(s.inbound.index), k, c);
        }
      case Fail =>
      case EmitFrame =>
      case InSwap =>
      case InDrain =>
      case InAnnounce =>
      case Aborted =>
    }
  }

  lemma SameQueries(s: State, step: Step, t: State, c: nat)
    requires c < |s.q.callers| && t.q == s.q && t.closed == s.closed && !step.OfQuery?
    ensures SlotMoves(s, step, t, c)
  {
  }

  lemma StepSlot(s: State, step: Step, c: nat)
    requires s in Good() && Do(s, step).Some? && c < |s.q.callers|
    ensures SlotMoves(s, step, Do(s, step).value, c)
  {
    match step {
      case OfQuery(d, k) => QuerySlot(s, d, k, c);
      case OfCloser(i, k) => CloserSlot(s, i, k, c);
      case OfOutbound(k) => OutboundSlot(s, k, c);
      case OfInbound(k) => InboundSlot(s, k, c);
      case OfSender(i) =>
        SenderLeaves(s, i);
        SameQueries(s, step, Do(s, step).value, c);
      case DropSend(_) => SameQueries(s, step, Do(s, step).value, c);
      case Spawned => SameQueries(s, step, Do(s, step).value, c);
      case NewSender(_) => SameQueries(s, step, Do(s, step).value, c);
      case NewCloser => SameQueries(s, step, Do(s, step).value, c);
      case NewQuery(_, _) =>
    }
  }

  /** A step that is not the query's own leaves it where it is. */
  lemma StepPc(s: State, step: Step, c: nat)
    requires Do(s, step).Some? && c < |s.q.callers| && !(step.OfQuery? && step.caller == c)
    ensures Untouched(s, Do(s, step).value, c)
  {
    match step {
      case OfQuery(d, k) => OtherQueries(s, d, k, c);
      case OfCloser(i, k) => OtherClosers(s, i, k, c);
      case OfOutbound(k) => OtherOutbound(s, k, c);
      case OfInbound(k) => OtherInbound(s, k, c);
      case OfSender(_) =>
      case _ =>
    }
  }

  // ----- Being told that the connection is closed ---------------------------------------

  /** The entry of query `c`, which has not been refused itself, is overtaken. */
  predicate CutsOff(s: State, step: Step, c: nat) {
    Overtakes(s, step, c) && c < |s.q.callers| && !TurnedDown(s.q.callers[c])
  }

  /** At some step of the run that happens. */
  predicate Overtaken(s: State, steps: seq<Step>, c: nat)
    decreases |steps|
  {
    && steps != [] && Do(s, steps[0]).Some?
    && (CutsOff(s, steps[0], c) || Overtaken(Do(s, steps[0]).value, steps[1..], c))
  }

  lemma OwnTold(s: State, c: nat, k: QueryStep)
    requires s in Good() && c < |s.q.callers| && DoQuery(s, c, k).Some? && !s.closed
    ensures c < |DoQuery(s, c, k).value.q.callers|
    ensures SaysClosed(DoQuery(s, c, k).value.q.callers[c]) <==> SaysClosed(s.q.callers[c])
  {
    QuerySlot(s, c, k, c);
    match k {
      case Register => RegisteredPc(s.q, c);
      case Remove => LeftPc(s.q, c, s.q.callers[c].pc.answer);
      case Refuse =>
      case CheckFlag =>
      case Enqueue =>
      case Wake =>
      case Expire =>
      case Cancel =>
    }
  }

  lemma ToldStep(s: State, step: Step, c: nat)
    requires s in Good() && Do(s, step).Some? && !Do(s, step).value.closed && !s.closed && c < |s.q.callers|
    ensures c < |Do(s, step).value.q.callers|
    ensures SaysClosed(Do(s, step).value.q.callers[c]) <==> SaysClosed(s.q.callers[c]) || CutsOff(s, step, c)
  {
    if step.OfQuery? && step.caller == c {
      OwnTold(s, c, step.query);
    } else {
      StepPc(s, step, c);
      StepSlot(s, step, c);
    }
  }

  /** The flag stays set, and queries are only added, new ones as they start. */
  predicate Grows(s: State, t: State) {
    && (s.closed ==> t.closed) && |s.q.callers| <= |t.q.callers|
    && forall c :: |s.q.callers| <= c < |t.q.callers| ==> t.q.callers[c].pc.Registering? && t.q.callers[c].slot.Empty?
  }

  lemma InboundGrows(s: State, k: InStep)
    requires DoInbound(s, k).Some?
    ensures Grows(s, DoInbound(s, k).value)
  {
    match k {
      case Arrive(_) =>
      case StreamEnds =>
      case TryTag =>
        var f := s.received[s.inbound.index];
        if f.tag.Some? {
          TryLeaves(s, f.tag.value, s.inbound.index, InNode(s.inbound.index));
        }
      case TryNode =>
        var f := s.received[s.inbound.index];
        if f.node.Some? && f.node.value.Some? {
          TryLeaves(s, f.node.value.value, s.inbound.index, InEmit(s.inbound.index));
        }
      case Fail =>
      case EmitFrame =>
      case InSwap =>
      case InDrain =>
      case InAnnounce =>
      case Aborted =>
    }
  }

  lemma CloserGrows(s: State, i: nat, k: CloserStep)
    requires i < |s.closers| && DoCloser(s, i, k).Some?
    ensures Grows(s, DoCloser(s, i, k).value)
  {
    if !k.Drain? {
      CloserLeavesQueries(s, i, k);
    }
  }

  lemma OutboundGrows(s: State, k: OutStep)
    requires DoOutbound(s, k).Some?
    ensures Grows(s, DoOutbound(s, k).value)
  {
    OutboundPosted(s, k);
  }

  lemma StepGrows(s: State, step: Step)
    requires s in Good() && Do(s, step).Some?
    ensures Grows(s, Do(s, step).value)
  {
    match step {
      case OfQuery(d, k) => QuerySlot(s, d, k, d);
      case OfCloser(i, k) => CloserGrows(s, i, k);
      case OfOutbound(k) => OutboundGrows(s, k);
      case OfInbound(k) => InboundGrows(s, k);
      case OfSender(i) => SenderLeaves(s, i);
      case _ =>
    }
  }

  lemma {:induction false} ClosedStays(s: State, steps: seq<Step>)
    requires s in Good() && s.closed && Exec(s, steps).Some?
    ensures Exec(s, steps).value.closed
    decreases |steps|
  {
    if steps != [] {
      StepKeeps(s, steps[0]);
      StepGrows(s, steps[0]);
      ClosedStays(Do(s, steps[0]).value, steps[1..]);
    }
  }

  predicate Told(s: State, c: nat) {
    c < |s.q.callers| && SaysClosed(s.q.callers[c])
  }

  lemma ToldOne(s: State, step: Step, c: nat)
    requires s in Good() && Do(s, step).Some? && !Do(s, step).value.closed && !s.closed
    ensures Told(Do(s, step).value, c) <==> Told(s, c) || CutsOff(s, step, c)
  {
    StepGrows(s, step);
    if c < |s.q.callers| {
      ToldStep(s, step, c);
    }
  }

  lemma {:induction false} ToldRun(s: State, steps: seq<Step>, c: nat)
    requires s in Good() && Exec(s, steps).Some? && !Exec(s, steps).value.closed
    ensures !s.closed
    ensures Told(Exec(s, steps).value, c) <==> Told(s, c) || Overtaken(s, steps, c)
    decreases |steps|
  {
    if s.closed {
      ClosedStays(s, steps);
    }
    if steps != [] {
      StepKeeps(s, steps[0]);
      ToldRun(Do(s, steps[0]).value, steps[1..], c);
      ToldOne(s, steps[0], c);
    }
  }

  /**
   In every run that leaves the connection open, a query has been told that it is
   closed if and only if another query with its tag, registering or leaving, found
   its entry still in the table.
   */
  lemma ClosedIsHonest(start: State, steps: seq<Step>, c: nat)
    requires Fresh(start) && Exec(start, steps).Some? && !Exec(start, steps).value.closed
    ensures Told(Exec(start, steps).value, c) <==> Overtaken(start, steps, c)
  {
    FreshIsGood(start);
    ToldRun(start, steps, c);
  }

  // ----- For which tags that can happen ---------------------------------------------------

  predicate Repeats(tags: seq<Tag>) {
    exists i, j :: 0 <= i < j < |tags| && tags[i] == tags[j]
  }

  predicate Tagged(s: State, tags: seq<Tag>) {
    |s.q.callers| == |tags| && forall k :: 0 <= k < |tags| ==> s.q.callers[k].tag == tags[k]
  }

  /** Query `c` reports a closed connection although it is open. */
  ghost predicate Misled(s: State, c: nat, tags: seq<Tag>) {
    && Reachable(s) && !s.closed && Tagged(s, tags)
    && c < |s.q.callers| && s.q.callers[c].pc == Done(ConnectionClosed)
  }

  /** A connection on which queries have been made and have not started. */
  predicate JustMade(s: State, frame: Bytes, tags: seq<Tag>) {
    && s.spawned && !s.closed && s.outbound.OutReady? && s.q.waiters == map[] && !s.q.disturbed
    && |s.q.callers| == |tags|
    && forall k :: 0 <= k < |tags| ==> s.q.callers[k] == Caller(tags[k], frame, Registering, Empty)
  }

  lemma {:induction false} Made(frame: Bytes, tags: seq<Tag>) returns (s: State)
    ensures Reachable(s) && JustMade(s, frame, tags)
  {
    if tags == [] {
      s := FreshExists();
      s := Next(s, Spawned);
    } else {
      s := Made(frame, tags[..|tags| - 1]);
      s := Next(s, NewQuery(tags[|tags| - 1], frame));
    }
  }

  /** Query `i` waits, and nothing else has happened. */
  lemma MadeToWait(s0: State, frame: Bytes, tags: seq<Tag>, i: nat) returns (s: State)
    requires Reachable(s0) && JustMade(s0, frame, tags) && i < |tags|
    ensures Reachable(s) && !s.closed && s.q.waiters == map[tags[i] := Live(i)]
    ensures s.q.callers == s0.q.callers[i := Caller(tags[i], frame, Waiting, Empty)]
  {
    s := Next(s0, OfQuery(i, Register));
    s := Next(s, OfQuery(i, CheckFlag));
    s := Next(s, OfQuery(i, Enqueue));
  }

  lemma MadeToMislead(frame: Bytes, tags: seq<Tag>, i: nat, j: nat) returns (s: State)
    requires i < j < |tags| && tags[i] == tags[j]
    ensures Misled(s, i, tags)
  {
    s := Made(frame, tags);
    s := MadeToWait(s, frame, tags, i);
    s := Next(s, OfQuery(j, Register));
    s := Next(s, OfQuery(i, Wake));
  }

  /** Some run misleads a query if and only if two of the tags are the same. */
  lemma MisleadingTags(tags: seq<Tag>)
    ensures (exists s, c :: Misled(s, c, tags)) <==> Repeats(tags)
  {
    if exists s, c :: Misled(s, c, tags) {
      var s: State, c: nat :| Misled(s, c, tags);
      ReachableIsGood(s);
      assert SaysClosed(s.q.callers[c]);
      assert s.q.disturbed && SameTagTwice(s.q);
      var i, j :| 0 <= i < j < |s.q.callers| && s.q.callers[i].tag == s.q.callers[j].tag;
      assert tags[i] == tags[j];
    }
    if Repeats(tags) {
      var i, j :| 0 <= i < j < |tags| && tags[i] == tags[j];
      var s := MadeToMislead([], tags, i, j);
    }
  }

  /** One query has enqueued its request and waits. */
  lemma OneWaiting(tag: Tag, frame: Bytes) returns (s: State)
    ensures Reachable(s) && s.spawned && !s.closed && s.inbound.InReady? && s.received == [] && s.fates == []
    ensures s.q == Pending([Caller(tag, frame, Waiting, Empty)], map[tag := Live(0)], false) && s.events == [Opened]
  {
    s := FreshExists();
    s := Next(s, Spawned);
    s := Next(s, NewQuery(tag, frame));
    s := Next(s, OfQuery(0, Register));
    s := Next(s, OfQuery(0, CheckFlag));
    s := Next(s, OfQuery(0, Enqueue));
  }

  /** Then a registration with the same tag is refused, and its receiving end is still there. */
  lemma OneRefused(tag: Tag, frame: Bytes) returns (s: State)
    ensures Reachable(s) && s.spawned && !s.closed && s.inbound.InReady? && s.received == [] && s.fates == [] && s.events == [Opened]
    ensures s.q == Pending([Caller(tag, frame, Waiting, Dropped), Caller(tag, frame, Leaving(DuplicateTag), Empty)],
                           map[tag := Live(1)], true)
  {
    s := OneWaiting(tag, frame);
    s := Next(s, NewQuery(tag, frame));
    s := Next(s, OfQuery(1, Register));
  }

  /** The shortest such run: a refused second registration drops the first query's sender. */
  lemma SharedTagMisleads(tag: Tag, frame: Bytes) returns (s: State)
    ensures Reachable(s) && !s.closed && |s.q.callers| == 2
    ensures s.q.callers[0].pc == Done(ConnectionClosed) && s.q.callers[1].pc == Done(DuplicateTag)
  {
    s := OneRefused(tag, frame);
    s := Next(s, OfQuery(1, Remove));
    s := Next(s, OfQuery(0, Wake));
  }

  // ----- Being answered --------------------------------------------------------------------

  /** The query is giving up, or has ended without an answer. */
  predicate GaveUp(k: Caller) {
    k.pc.Leaving? || (k.pc.Done? && !k.pc.answer.Payload?)
  }

  /**
   The query gives up at this step: its request cannot be encoded, the connection
   or its queue is closed before the request is enqueued, it runs out of time, or
   its caller drops it.
   */
  predicate GivesUp(s: State, step: Step, c: nat) {
    && step.OfQuery? && step.caller == c
    && match step.query {
         case Refuse => true
         case Expire => true
         case Cancel => true
         case CheckFlag => s.closed
         case Enqueue => !QueueOpen(s)
         case _ => false
       }
  }

  predicate EverGivesUp(s: State, steps: seq<Step>, c: nat)
    decreases |steps|
  {
    && steps != [] && Do(s, steps[0]).Some?
    && (GivesUp(s, steps[0], c) || EverGivesUp(Do(s, steps[0]).value, steps[1..], c))
  }

  /** The query has been handed frame `i`. */
  predicate Handed(s: State, c: nat, i: nat) {
    c < |s.q.callers| && s.q.callers[c].slot == Value(i)
  }

  lemma OwnHanded(s: State, c: nat, i: nat, k: QueryStep)
    requires s in Good() && Handed(s, c, i) && DoQuery(s, c, k).Some?
    ensures Handed(DoQuery(s, c, k).value, c, i)
    ensures GaveUp(DoQuery(s, c, k).value.q.callers[c]) <==> GaveUp(s.q.callers[c]) || GivesUp(s, OfQuery(c, k), c)
  {
    QuerySlot(s, c, k, c);
    match k {
      case Register =>
      case Remove => LeftPc(s.q, c, s.q.callers[c].pc.answer);
      case Refuse =>
      case CheckFlag =>
      case Enqueue =>
      case Wake =>
      case Expire =>
      case Cancel =>
    }
  }

  /** An entry that can be overtaken has had nothing handed to it. */
  lemma HandedStep(s: State, c: nat, i: nat, step: Step)
    requires s in Good() && Handed(s, c, i) && Do(s, step).Some?
    ensures Handed(Do(s, step).value, c, i)
    ensures GaveUp(Do(s, step).value.q.callers[c]) <==> GaveUp(s.q.callers[c]) || GivesUp(s, step, c)
  {
    if step.OfQuery? && step.caller == c {
      OwnHanded(s, c, i, step.query);
    } else {
      StepPc(s, step, c);
      StepSlot(s, step, c);
      assert !Held(s.q, c);
    }
  }

  lemma {:induction false} HandedRun(s: State, c: nat, i: nat, steps: seq<Step>)
    requires s in Good() && Handed(s, c, i) && Exec(s, steps).Some?
    ensures Exec(s, steps).value in Good() && Handed(Exec(s, steps).value, c, i)
    ensures GaveUp(Exec(s, steps).value.q.callers[c]) <==> GaveUp(s.q.callers[c]) || EverGivesUp(s, steps, c)
    decreases |steps|
  {
    if steps != [] {
      StepKeeps(s, steps[0]);
      HandedStep(s, c, i, steps[0]);
      HandedRun(Do(s, steps[0]).value, c, i, steps[1..]);
    }
  }

  /**
   A query that has been handed a frame and ends, ends with that frame if and only
   if it was not giving up already and does not give up afterwards.
   */
  lemma AnsweredIff(s: State, c: nat, i: nat, steps: seq<Step>)
    requires Reachable(s) && Handed(s, c, i) && Exec(s, steps).Some?
    ensures var t := Exec(s, steps).value;
            && c < |t.q.callers|
            && (t.q.callers[c].pc.Done? ==>
                  (t.q.callers[c].pc == Done(Payload(i)) <==> !GaveUp(s.q.callers[c]) && !EverGivesUp(s, steps, c)))
  {
    ReachableIsGood(s);
    HandedRun(s, c, i, steps);
  }

  /** A run in which a frame goes to a query that has run out of time: no answer, no event, and the loop goes on. */
  lemma AnswerTooLate(tag: Tag, frame: Bytes) returns (s: State)
    ensures Reachable(s) && !s.closed && s.inbound.InReady? && s.fates == [ToQuery(0)]
    ensures |s.q.callers| == 1 && s.q.callers[0].pc == Done(TimedOut) && FrameEvents(s.events) == []
  {
    s := OneWaiting(tag, frame);
    s := Next(s, OfQuery(0, Expire));
    s := Next(s, OfInbound(Arrive(Inbound(Some(tag), None, true))));
    s := Next(s, OfInbound(TryTag));
    s := Next(s, OfQuery(0, Remove));
  }

  /**
   A run in which a frame goes to a refused registration whose receiving end is still
   there: the query that asked for it is told that the connection is closed.
   */
  lemma AnswerToRefused(tag: Tag, frame: Bytes) returns (s: State)
    ensures Reachable(s) && !s.closed && s.inbound.InReady? && s.fates == [ToQuery(1)] && FrameEvents(s.events) == []
    ensures |s.q.callers| == 2
    ensures s.q.callers[0].pc == Done(ConnectionClosed) && s.q.callers[1].pc == Done(DuplicateTag)
  {
    s := OneRefused(tag, frame);
    s := Next(s, OfInbound(Arrive(Inbound(Some(tag), None, true))));
    s := Next(s, OfInbound(TryTag));
    s := Next(s, OfQuery(1, Remove));
    s := Next(s, OfQuery(0, Wake));
  }

  // ----- Being left alone --------------------------------------------------------------------

  /** The inbound loop has ended and the query has been handed nothing. */
  predicate Deaf(s: State, c: nat) {
    s.inbound.InDone? && (c < |s.q.callers| ==> !s.q.callers[c].slot.Value?)
  }

  lemma OutboundInbound(s: State, k: OutStep)
    requires DoOutbound(s, k).Some?
    ensures DoOutbound(s, k).value.inbound == s.inbound
  {
    match k {
      case TakeCommand =>
      case Sent(_) =>
      case SinkClosed(_) =>
      case OutSwap =>
      case OutDrain =>
      case OutAnnounce =>
    }
  }

  lemma DoneStays(s: State, step: Step)
    requires s.inbound.InDone? && Do(s, step).Some?
    ensures Do(s, step).value.inbound.InDone? && !step.OfInbound?
  {
    match step {
      case OfQuery(d, k) => QueryLeaves(s, d, k);
      case OfCloser(i, k) => CloserLeaves(s, i, k);
      case OfOutbound(k) => OutboundInbound(s, k);
      case OfInbound(k) =>
      case OfSender(i) => SenderLeaves(s, i);
      case _ =>
    }
  }

  lemma DeafStep(s: State, c: nat, step: Step)
    requires s in Good() && Deaf(s, c) && Do(s, step).Some?
    ensures Deaf(Do(s, step).value, c)
  {
    DoneStays(s, step);
    StepGrows(s, step);
    if c < |s.q.callers| {
      StepSlot(s, step, c);
    }
  }

  lemma {:induction false} DeafRun(s: State, c: nat, steps: seq<Step>)
    requires s in Good() && Deaf(s, c) && Exec(s, steps).Some?
    ensures Exec(s, steps).value in Good() && Deaf(Exec(s, steps).value, c)
    decreases |steps|
  {
    if steps != [] {
      StepKeeps(s, steps[0]);
      DeafStep(s, c, steps[0]);
      DeafRun(Do(s, steps[0]).value, c, steps[1..]);
    }
  }

  /** Once the inbound loop has ended, no query that has been handed nothing is ever answered, nor any later one. */
  lemma DeafForever(s: State, c: nat, steps: seq<Step>)
    requires Reachable(s) && Deaf(s, c) && Exec(s, steps).Some?
    ensures var t := Exec(s, steps).value;
            c < |t.q.callers| && t.q.callers[c].pc.Done? ==> !t.q.callers[c].pc.answer.Payload?
  {
    ReachableIsGood(s);
    DeafRun(s, c, steps);
  }
}
