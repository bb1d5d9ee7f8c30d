/**
 The table of waiting queries (crates/wa-core/src/query.rs): one sender per tag in
 the table, and one waiter, with the receiving end, per caller.
 */
module Queries {
  import opened Prelude

  type Tag = Bytes

  /** Whose sender is in the table; nobody's, when a refused registration left its own there. */
  datatype Holder = Live(caller: nat) | Dead

  /** The receiving end: still empty, holding the number of an inbound frame, or its sender is gone. */
  datatype Slot = Empty | Value(frame: nat) | Dropped

  datatype Answer = Payload(frame: nat) | ConnectionClosed | DuplicateTag | TimedOut | Cancelled | Unsendable

  /**
   A query: about to register, about to look at the closed flag, sending, waiting,
   giving up with its receiving end still there, or finished.
   */
  datatype Pc = Registering | Checking | Sending | Waiting | Leaving(answer: Answer) | Done(answer: Answer)

  datatype Caller = Caller(tag: Tag, frame: Bytes, pc: Pc, slot: Slot)

  type Table = map<Tag, Holder>

  /** `disturbed` notes that a sender was dropped because two queries shared a tag. */
  datatype Pending = Pending(callers: seq<Caller>, waiters: Table, disturbed: bool)

  function WithPc(q: Pending, c: nat, pc: Pc): Pending
    requires c < |q.callers|
  {
    q.(callers := q.callers[c := q.callers[c].(pc := pc)])
  }

  /** The table's entry for the tag of `c` is its own. */
  predicate Held(q: Pending, c: nat)
    requires c < |q.callers|
  {
    q.callers[c].tag in q.waiters && q.waiters[q.callers[c].tag] == Live(c)
  }

  /** A sender that is no longer in the table wakes its waiter. */
  function DropSender(callers: seq<Caller>, h: Option<Holder>): seq<Caller> {
    if h.Some? && h.value.Live? && h.value.caller < |callers| && callers[h.value.caller].slot.Empty?
    then callers[h.value.caller := callers[h.value.caller].(slot := Dropped)]
    else callers
  }

  function EntryFor(w: Table, tag: Tag): Option<Holder> {
    if tag in w then Some(w[tag]) else None
  }

  /** An entry that belongs to some query other than `c`. */
  predicate Others(h: Option<Holder>, c: nat) {
    h.Some? && h.value.Live? && h.value.caller != c
  }

  /**
   `register`: inserts before it looks, so a refused registration has replaced the
   entry; its own receiving end is still there when it gives the table free.
   */
  function RegisterTag(q: Pending, c: nat): Pending
    requires c < |q.callers|
  {
    var tag := q.callers[c].tag;
    var prior := EntryFor(q.waiters, tag);
    if prior.Some? then
      Pending(DropSender(q.callers, prior)[c := q.callers[c].(pc := Leaving(DuplicateTag))],
              q.waiters[tag := Live(c)], q.disturbed || Others(prior, c))
    else
      Pending(q.callers[c := q.callers[c].(pc := Checking)], q.waiters[tag := Live(c)], q.disturbed)
  }

  /** The receiving end of a refused registration goes; there is no waiter, so its sender stays in the table. */
  function Forget(q: Pending, c: nat): Pending
    requires c < |q.callers|
  {
    WithPc(q.(waiters := if Held(q, c) then q.waiters[q.callers[c].tag := Dead] else q.waiters), c, Done(DuplicateTag))
  }

  /** `remove_waiter`, then the query is over: whatever entry the tag has goes. */
  function RemoveWaiter(q: Pending, c: nat, answer: Answer): Pending
    requires c < |q.callers|
  {
    var tag := q.callers[c].tag;
    var prior := EntryFor(q.waiters, tag);
    var q2 := Pending(if Others(prior, c) then DropSender(q.callers, prior) else q.callers, q.waiters - {tag},
                      q.disturbed || Others(prior, c));
    WithPc(q2, c, Done(answer))
  }

  /** The end of a query that gives up. */
  function Leave(q: Pending, c: nat, answer: Answer): Pending
    requires c < |q.callers|
  {
    if answer.DuplicateTag? then Forget(q, c) else RemoveWaiter(q, c, answer)
  }

  /** `resolve`: the entry goes, and if its waiter is still there it gets the frame. */
  function Resolve(q: Pending, tag: Tag, frame: nat): Pending {
    var h := EntryFor(q.waiters, tag);
    var q2 := q.(waiters := q.waiters - {tag});
    if h.Some? && h.value.Live? && h.value.caller < |q.callers| then
      q2.(callers := q.callers[h.value.caller := q.callers[h.value.caller].(slot := Value(frame))])
    else q2
  }

  /** The query that `resolve` would answer. */
  function Matched(q: Pending, tag: Tag): Option<nat> {
    var h := EntryFor(q.waiters, tag);
    if h.Some? && h.value.Live? && h.value.caller < |q.callers| then Some(h.value.caller) else None
  }

  /** `close_pending`: every sender in the table goes. */
  function DrainAll(q: Pending): Pending {
    q.(callers := seq(|q.callers|, c requires 0 <= c < |q.callers| =>
                        if Held(q, c) then q.callers[c].(slot := Dropped) else q.callers[c]),
       waiters := map[])
  }

  // ----- What holds of every table --------------------------------------------

  /** A query between registering and finishing. */
  predicate Active(pc: Pc) {
    pc.Checking? || pc.Sending? || pc.Waiting? || pc.Leaving?
  }

  /**
   Live entries are for queries of that tag, and a query's own entry is there
   exactly as long as it is active and nothing has come through to it.
   */
  ghost predicate TableInv(q: Pending) {
    && (forall t :: t in q.waiters && q.waiters[t].Live? ==>
          q.waiters[t].caller < |q.callers| && q.callers[q.waiters[t].caller].tag == t)
    && (forall c :: 0 <= c < |q.callers| && q.callers[c].pc.Registering? ==> q.callers[c].slot.Empty?)
    && (forall c :: 0 <= c < |q.callers| ==> (Held(q, c) <==> q.callers[c].slot.Empty? && Active(q.callers[c].pc)))
  }

  /** After the table has been drained, only queries that have not passed the closed flag are in it. */
  ghost predicate DrainInv(q: Pending, drained: bool) {
    drained ==> forall c :: 0 <= c < |q.callers| && Held(q, c) ==> q.callers[c].pc.Checking? || q.callers[c].pc.Leaving?
  }

  /** The query's registration has been refused. */
  predicate TurnedDown(c: Caller) {
    (c.pc.Leaving? || c.pc.Done?) && c.pc.answer.DuplicateTag?
  }

  predicate SaysClosed(c: Caller) {
    (c.slot.Dropped? && !TurnedDown(c)) || ((c.pc.Leaving? || c.pc.Done?) && c.pc.answer.ConnectionClosed?)
  }

  predicate SameTagTwice(q: Pending) {
    exists i, j :: 0 <= i < j < |q.callers| && q.callers[i].tag == q.callers[j].tag
  }

  /** A query is told that the connection is closed only if it is, or if tags were shared. */
  ghost predicate HonestInv(q: Pending, closed: bool) {
    && (forall c :: 0 <= c < |q.callers| && SaysClosed(q.callers[c]) ==> closed || q.disturbed)
    && (q.disturbed ==> SameTagTwice(q))
  }

  /** An answer with a payload is the one in the slot. */
  ghost predicate PayloadInv(q: Pending) {
    forall c :: 0 <= c < |q.callers| ==>
      && (q.callers[c].pc.Leaving? ==> !q.callers[c].pc.answer.Payload?)
      && (q.callers[c].pc.Done? && q.callers[c].pc.answer.Payload? ==> q.callers[c].slot == Value(q.callers[c].pc.answer.frame))
  }

  ghost predicate QueriesInv(q: Pending, closed: bool, drained: bool) {
    && (drained ==> closed)
    && TableInv(q) && DrainInv(q, drained) && HonestInv(q, closed) && PayloadInv(q)
  }

  lemma NoQueries(q: Pending)
    requires q.callers == [] && q.waiters == map[] && !q.disturbed
    ensures QueriesInv(q, false, false)
  {
  }

  // ----- The operations keep it -----------------------------------------------

  /** Queries are only added, never renamed, so a shared tag stays shared. */
  lemma SharedStays(q: Pending, r: Pending)
    requires |q.callers| <= |r.callers| && forall c :: 0 <= c < |q.callers| ==> r.callers[c].tag == q.callers[c].tag
    ensures SameTagTwice(q) ==> SameTagTwice(r)
  {
    if SameTagTwice(q) {
      var i, j :| 0 <= i < j < |q.callers| && q.callers[i].tag == q.callers[j].tag;
      assert r.callers[i].tag == r.callers[j].tag;
    }
  }

  lemma TwoShare(q: Pending, i: nat, j: nat)
    requires i < |q.callers| && j < |q.callers| && i != j && q.callers[i].tag == q.callers[j].tag
    ensures SameTagTwice(q)
  {
    var lo, hi := if i < j then i else j, if i < j then j else i;
    assert q.callers[lo].tag == q.callers[hi].tag;
  }

  lemma NewCallerKeeps(q: Pending, tag: Tag, frame: Bytes, closed: bool, drained: bool)
    requires QueriesInv(q, closed, drained)
    ensures QueriesInv(q.(callers := q.callers + [Caller(tag, frame, Registering, Empty)]), closed, drained)
  {
    var r := q.(callers := q.callers + [Caller(tag, frame, Registering, Empty)]);
    SharedStays(q, r);
    assert forall c :: 0 <= c < |q.callers| ==> (Held(r, c) <==> Held(q, c));
  }

  lemma RegisterFreshKeeps(q: Pending, c: nat, closed: bool, drained: bool)
    requires QueriesInv(q, closed, drained) && c < |q.callers| && q.callers[c].pc.Registering?
    requires q.callers[c].tag !in q.waiters
    ensures QueriesInv(RegisterTag(q, c), closed, drained)
  {
    var r := RegisterTag(q, c);
    SharedStays(q, r);
    forall d | 0 <= d < |q.callers| && d != c ensures Held(r, d) <==> Held(q, d) {
    }
  }

  /** Dropping a sender touches one slot, and only if it was empty. */
  lemma DropOne(callers: seq<Caller>, h: Option<Holder>)
    ensures var r := DropSender(callers, h);
            && |r| == |callers|
            && (forall d :: 0 <= d < |callers| ==> r[d] == callers[d] || r[d] == callers[d].(slot := Dropped))
            && (forall d :: 0 <= d < |callers| ==>
                  (r[d] != callers[d] <==> h == Some(Live(d)) && callers[d].slot.Empty?))
  {
  }

  /** A sender that leaves the table, and the query that made it leave: a refused one, or one that gives up. */
  ghost predicate Displaced(q: Pending, r: Pending, c: nat, pc: Pc) {
    && |r.callers| == |q.callers| && c < |q.callers|
    && r.callers[c] == q.callers[c].(pc := pc)
    && (pc == Leaving(DuplicateTag) || pc.Done?)
    && (forall d :: 0 <= d < |q.callers| && d != c ==>
          r.callers[d] == (if Held(q, d) && q.callers[d].tag == q.callers[c].tag
                           then q.callers[d].(slot := Dropped) else q.callers[d]))
    && (forall t :: t != q.callers[c].tag ==> (t in r.waiters <==> t in q.waiters) && (t in q.waiters ==> r.waiters[t] == q.waiters[t]))
    && EntryFor(r.waiters, q.callers[c].tag) == (if pc.Leaving? then Some(Live(c)) else None)
    && r.disturbed == (q.disturbed || Others(EntryFor(q.waiters, q.callers[c].tag), c))
  }

  lemma RegisterDisplaces(q: Pending, c: nat)
    requires TableInv(q) && c < |q.callers| && q.callers[c].pc.Registering? && q.callers[c].tag in q.waiters
    ensures Displaced(q, RegisterTag(q, c), c, Leaving(DuplicateTag))
  {
    DropOne(q.callers, EntryFor(q.waiters, q.callers[c].tag));
  }

  lemma LeaveDisplaces(q: Pending, c: nat, answer: Answer)
    requires TableInv(q) && c < |q.callers| && q.callers[c].pc == Leaving(answer) && !answer.DuplicateTag?
    ensures Displaced(q, Leave(q, c, answer), c, Done(answer))
  {
    DropOne(q.callers, EntryFor(q.waiters, q.callers[c].tag));
  }

  lemma DisplacedTable(q: Pending, r: Pending, c: nat, pc: Pc)
    requires TableInv(q) && Displaced(q, r, c, pc) && (pc.Leaving? ==> q.callers[c].slot.Empty?)
    ensures TableInv(r)
    ensures forall d :: 0 <= d < |q.callers| && d != c ==> (Held(r, d) <==> Held(q, d) && q.callers[d].tag != q.callers[c].tag)
    ensures Held(r, c) <==> pc.Leaving?
  {
  }

  lemma DisplacedHonest(q: Pending, r: Pending, c: nat, pc: Pc, closed: bool)
    requires TableInv(q) && Displaced(q, r, c, pc) && HonestInv(q, closed)
    requires pc.Leaving? ==> q.callers[c].slot.Empty?
    requires pc.Done? ==> q.callers[c].pc == Leaving(pc.answer)
    ensures HonestInv(r, closed)
  {
    SharedStays(q, r);
    var prior := EntryFor(q.waiters, q.callers[c].tag);
    if Others(prior, c) {
      TwoShare(q, c, prior.value.caller);
    }
  }

  lemma DisplacedKeeps(q: Pending, r: Pending, c: nat, pc: Pc, closed: bool, drained: bool)
    requires QueriesInv(q, closed, drained) && Displaced(q, r, c, pc)
    requires pc.Leaving? ==> q.callers[c].slot.Empty?
    requires pc.Done? ==> q.callers[c].pc == Leaving(pc.answer)
    ensures QueriesInv(r, closed, drained)
  {
    DisplacedTable(q, r, c, pc);
    DisplacedHonest(q, r, c, pc, closed);
  }

  lemma RegisterKeeps(q: Pending, c: nat, closed: bool, drained: bool)
    requires QueriesInv(q, closed, drained) && c < |q.callers| && q.callers[c].pc.Registering?
    ensures QueriesInv(RegisterTag(q, c), closed, drained)
  {
    if q.callers[c].tag in q.waiters {
      RegisterDisplaces(q, c);
      DisplacedKeeps(q, RegisterTag(q, c), c, Leaving(DuplicateTag), closed, drained);
    } else {
      RegisterFreshKeeps(q, c, closed, drained);
    }
  }

  /** A refused registration takes its own receiving end away, and nothing else. */
  lemma ForgetTable(q: Pending, c: nat)
    requires TableInv(q) && c < |q.callers| && q.callers[c].pc == Leaving(DuplicateTag)
    ensures TableInv(Forget(q, c)) && !Held(Forget(q, c), c)
    ensures forall d :: 0 <= d < |q.callers| && d != c ==> (Held(Forget(q, c), d) <==> Held(q, d))
  {
  }

  lemma ForgetKeeps(q: Pending, c: nat, closed: bool, drained: bool)
    requires QueriesInv(q, closed, drained) && c < |q.callers| && q.callers[c].pc == Leaving(DuplicateTag)
    ensures QueriesInv(Forget(q, c), closed, drained)
  {
    ForgetTable(q, c);
    SharedStays(q, Forget(q, c));
  }

  lemma LeaveKeeps(q: Pending, c: nat, answer: Answer, closed: bool, drained: bool)
    requires QueriesInv(q, closed, drained) && c < |q.callers| && q.callers[c].pc == Leaving(answer)
    ensures QueriesInv(Leave(q, c, answer), closed, drained)
  {
    if answer.DuplicateTag? {
      ForgetKeeps(q, c, closed, drained);
    } else {
      LeaveDisplaces(q, c, answer);
      DisplacedKeeps(q, Leave(q, c, answer), c, Done(answer), closed, drained);
    }
  }

  /** How a query may move without touching the table. */
  ghost predicate Moves(q: Pending, c: nat, pc: Pc, closed: bool, drained: bool)
    requires c < |q.callers|
  {
    && Active(q.callers[c].pc) && !q.callers[c].pc.Leaving?
    && (Active(pc) || (pc.Done? && !q.callers[c].slot.Empty?))
    && (drained ==> pc.Leaving? || !q.callers[c].slot.Empty?)
    && ((pc.Leaving? || pc.Done?) && pc.answer.ConnectionClosed? ==> closed || q.disturbed)
    && (pc.Leaving? ==> !pc.answer.Payload?)
    && (pc.Done? && pc.answer.Payload? ==> q.callers[c].slot == Value(pc.answer.frame))
  }

  lemma MoveKeeps(q: Pending, c: nat, pc: Pc, closed: bool, drained: bool)
    requires QueriesInv(q, closed, drained) && c < |q.callers| && Moves(q, c, pc, closed, drained)
    ensures QueriesInv(WithPc(q, c, pc), closed, drained)
  {
    var r := WithPc(q, c, pc);
    SharedStays(q, r);
    assert forall d :: 0 <= d < |q.callers| ==> (Held(r, d) <==> Held(q, d));
  }

  /** What resolving a tag comes to: at most one query gets the frame, and the entry is gone. */
  ghost predicate Resolved(q: Pending, r: Pending, tag: Tag, frame: nat) {
    && r.disturbed == q.disturbed
    && r.waiters == q.waiters - {tag}
    && |r.callers| == |q.callers|
    && forall d :: 0 <= d < |q.callers| ==>
         r.callers[d] == (if Held(q, d) && q.callers[d].tag == tag then q.callers[d].(slot := Value(frame)) else q.callers[d])
  }

  lemma ResolveResolves(q: Pending, tag: Tag, frame: nat)
    requires TableInv(q)
    ensures Resolved(q, Resolve(q, tag, frame), tag, frame)
  {
  }

  lemma ResolvedTable(q: Pending, r: Pending, tag: Tag, frame: nat)
    requires TableInv(q) && Resolved(q, r, tag, frame)
    ensures TableInv(r)
    ensures forall d :: 0 <= d < |q.callers| ==> (Held(r, d) <==> Held(q, d) && q.callers[d].tag != tag)
  {
  }

  lemma ResolveKeeps(q: Pending, tag: Tag, frame: nat, closed: bool, drained: bool)
    requires QueriesInv(q, closed, drained)
    ensures QueriesInv(Resolve(q, tag, frame), closed, drained)
  {
    var r := Resolve(q, tag, frame);
    ResolveResolves(q, tag, frame);
    ResolvedTable(q, r, tag, frame);
    SharedStays(q, r);
  }

  lemma DrainKeeps(q: Pending, drained: bool)
    requires QueriesInv(q, true, drained)
    ensures QueriesInv(DrainAll(q), true, true)
  {
    SharedStays(q, DrainAll(q));
  }

  /** Closing while nothing is drained yet changes no query. */
  lemma CloseKeeps(q: Pending, closed: bool, drained: bool)
    requires QueriesInv(q, closed, drained)
    ensures QueriesInv(q, true, drained)
  {
  }

  // ----- Answers that have come through stay ------------------------------------

  /** Tags stay, and so does every frame in a slot; none appears. */
  ghost predicate SameValues(a: seq<Caller>, b: seq<Caller>) {
    && |a| <= |b|
    && (forall c :: 0 <= c < |a| ==> b[c].tag == a[c].tag && (a[c].slot.Value? || b[c].slot.Value? ==> a[c].slot == b[c].slot))
    && (forall c :: |a| <= c < |b| ==> !b[c].slot.Value?)
  }

  lemma DisplacedValues(q: Pending, r: Pending, c: nat, pc: Pc)
    requires TableInv(q) && Displaced(q, r, c, pc)
    ensures SameValues(q.callers, r.callers)
  {
  }

  lemma RegisterValues(q: Pending, c: nat)
    requires TableInv(q) && c < |q.callers| && q.callers[c].pc.Registering?
    ensures SameValues(q.callers, RegisterTag(q, c).callers)
  {
    if q.callers[c].tag in q.waiters {
      RegisterDisplaces(q, c);
      DisplacedValues(q, RegisterTag(q, c), c, Leaving(DuplicateTag));
    }
  }

  lemma LeaveValues(q: Pending, c: nat, answer: Answer)
    requires TableInv(q) && c < |q.callers| && q.callers[c].pc == Leaving(answer)
    ensures SameValues(q.callers, Leave(q, c, answer).callers)
  {
    if !answer.DuplicateTag? {
      LeaveDisplaces(q, c, answer);
      DisplacedValues(q, Leave(q, c, answer), c, Done(answer));
    }
  }

  lemma DrainValues(q: Pending)
    requires TableInv(q)
    ensures SameValues(q.callers, DrainAll(q).callers)
  {
  }

  // ----- One query's steps are its own -------------------------------------------

  predicate PcKept(a: seq<Caller>, b: seq<Caller>, c: nat) {
    c < |a| <= |b| && b[c].pc == a[c].pc && b[c].frame == a[c].frame
  }

  lemma RegisterOthers(q: Pending, d: nat, c: nat)
    requires d < |q.callers| && c < |q.callers| && c != d
    ensures PcKept(q.callers, RegisterTag(q, d).callers, c)
  {
    DropOne(q.callers, EntryFor(q.waiters, q.callers[d].tag));
  }

  lemma LeaveOthers(q: Pending, d: nat, answer: Answer, c: nat)
    requires d < |q.callers| && c < |q.callers| && c != d
    ensures PcKept(q.callers, Leave(q, d, answer).callers, c)
  {
    DropOne(q.callers, EntryFor(q.waiters, q.callers[d].tag));
  }

  lemma ResolveOthers(q: Pending, tag: Tag, frame: nat, c: nat)
    requires c < |q.callers|
    ensures PcKept(q.callers, Resolve(q, tag, frame).callers, c)
  {
  }

  lemma DrainOthers(q: Pending, c: nat)
    requires c < |q.callers|
    ensures PcKept(q.callers, DrainAll(q).callers, c)
  {
  }

  // ----- What it means ---------------------------------------------------------

  /** No query is stranded: once the table has been drained, a waiting query has something to wake it. */
  lemma NoneStranded(q: Pending, closed: bool, c: nat)
    requires QueriesInv(q, closed, true) && c < |q.callers| && q.callers[c].pc.Waiting?
    ensures !q.callers[c].slot.Empty?
  {
  }
}
