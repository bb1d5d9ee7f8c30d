/**
 What the bytes of an inbound frame mean to the inbound loop
 (crates/wa-core/src/router.rs), and so which bytes make it end.
 */
module ConnectionFrames {
  import opened Prelude
  import opened Text
  import opened SortedMap
  import opened Tokens
  import opened NodeFormat
  import opened NodeDispatch
  import opened Queries
  import opened Connection
  import opened ConnectionAnswers
  import opened ConnectionLoop

  /** A frame with its own tag and its payload, as the loop sees it. */
  function Describe(T: Tokens.Table, inflate: Bytes -> Option<Bytes>, tag: Option<Tag>, payload: Bytes): Inbound
    requires Shape(T)
  {
    match DecodeFrame(T, inflate, payload)
    case Err(_) => Inbound(tag, None, true)
    case Ok(n) => Inbound(tag, Some(Get(n.attrs, ID)), EncodeFrame(T, n).Ok?)
  }

  /** The payload is a node with an id and with a piece that no length header is written for. */
  predicate Unwritable(T: Tokens.Table, inflate: Bytes -> Option<Bytes>, payload: Bytes)
    requires Shape(T)
  {
    && DecodeFrame(T, inflate, payload).Ok?
    && Get(DecodeFrame(T, inflate, payload).value.attrs, ID).Some?
    && !PiecesFit(T, DecodeFrame(T, inflate, payload).value)
  }

  /** The loop is stuck with a frame exactly when its payload is unwritable, which no payload of moderate size is. */
  lemma StuckIff(T: Tokens.Table, inflate: Bytes -> Option<Bytes>, tag: Option<Tag>, payload: Bytes)
    requires Shape(T)
    ensures Stuck(Describe(T, inflate, tag, payload)) <==> Unwritable(T, inflate, payload)
    ensures Unwritable(T, inflate, payload) ==>
              BodyOf(inflate, payload).Some? && !Moderate(T, BodyOf(inflate, payload).value)
  {
    if DecodeFrame(T, inflate, payload).Ok? {
      DispatchArrives(T, inflate, payload, DecodeFrame(T, inflate, payload).value);
    }
  }

  /** The last frame received came with this payload. */
  predicate LastCameWith(T: Tokens.Table, inflate: Bytes -> Option<Bytes>, s: State, payload: Bytes)
    requires Shape(T) && s.received != []
  {
    var f := s.received[|s.received| - 1];
    f == Describe(T, inflate, f.tag, payload)
  }

  /**
   While the connection is open, the inbound loop has ended if and only if it is
   through with the last frame, no query got that frame by its own tag, and its
   payload is a node with an id that does not fit into the headers of the writer.
   */
  lemma DeadLoopBytes(T: Tokens.Table, inflate: Bytes -> Option<Bytes>, s: State, payload: Bytes)
    requires Shape(T) && Reachable(s) && !s.closed && s.received != [] && LastCameWith(T, inflate, s, payload)
    ensures s.inbound.InDone?
       <==> |s.fates| == |s.received| && !s.fates[|s.fates| - 1].ToQuery? && Unwritable(T, inflate, payload)
  {
    StuckIff(T, inflate, s.received[|s.received| - 1].tag, payload);
    DeadLoopIff(s);
  }

  /**
   A run in which the loop ends on a frame of bytes while the connection is open and
   a query waits: the node that it waits for has come, and nothing will wake it.
   */
  lemma DeafWhileOpen(T: Tokens.Table, inflate: Bytes -> Option<Bytes>, payload: Bytes, tag: Bytes, id: Bytes, b: Bytes, frame: Bytes)
    returns (s: State)
    requires Shape(T) && tag != [] && Utf8(tag) && Utf8(id) && |tag| < U32_MAX && |id| < U32_MAX && |b| == U32_MAX
    requires BodyOf(inflate, payload) == Some(LongBody(tag, id, b))
    ensures Reachable(s) && !s.closed && Deaf(s, 0)
    ensures |s.received| == 1 && LastCameWith(T, inflate, s, payload) && s.fates == [Lost]
    ensures |s.q.callers| == 1 && s.q.callers[0] == Caller(id, frame, Waiting, Empty)
  {
    UnwritableArrives(T, inflate, payload, tag, id, b);
    var f := Describe(T, inflate, None, payload);
    assert f == Inbound(None, Some(Some(id)), false);
    s := LoopDies(f, id, frame);
  }
}
