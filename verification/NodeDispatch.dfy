/**
 Writing a decoded node again, as the router does for a waiting query
 (crates/wa-core/src/router.rs): exactly which nodes can be written, and that one
 read from a frame of moderate size always can.
 */
module NodeDispatch {
  import opened Prelude
  import opened Text
  import opened SortedMap
  import opened Tokens
  import opened Jid
  import opened NodeFormat
  import opened NodeRoundTrip
  import opened NodeTheorems
  import opened NodeDecoding

  const TOKEN_MAX: nat := 48

  /** No shipped token is longer. */
  predicate ShortTokens(T: Table)
    requires Shape(T)
  {
    && (forall i :: 0 <= i < |T.single| ==> |T.single[i]| <= TOKEN_MAX)
    && (forall d, i :: 0 <= d < |T.double| && 0 <= i < |T.double[d]| ==> |T.double[d][i]| <= TOKEN_MAX)
  }

  // ----- What can be written ---------------------------------------------------

  /** A token stands for the whole string; otherwise it must be short enough for a length header. */
  predicate PieceFits(T: Table, v: Bytes)
    requires Shape(T)
  {
    TokenFor(T, v).Some? || |v| < U32_MAX
  }

  /** Every piece that the string is written in fits. */
  predicate StringFits(T: Table, v: Bytes)
    requires Shape(T)
  {
    match FormOf(T, v)
    case Raw => |v| < U32_MAX
    case AdJid(_, _, user) => PieceFits(T, user)
    case JidPair(user, server) => PieceFits(T, user) && |server| < U32_MAX
    case _ => true
  }

  predicate AttrsFit(T: Table, a: Attrs)
    requires Shape(T)
  {
    forall i :: 0 <= i < |a| ==> StringFits(T, a[i].key) && StringFits(T, a[i].val)
  }

  predicate ContentFits(T: Table, c: Content)
    requires Shape(T)
    decreases c, 0
  {
    match c
    case Nodes(ns) => NodesFit(T, ns)
    case TextContent(t) => StringFits(T, t)
    case BytesContent(b) => |b| < U32_MAX
  }

  predicate NodesFit(T: Table, ns: seq<Node>)
    requires Shape(T)
    decreases ns, 0
  {
    ns == [] || (PiecesFit(T, ns[0]) && NodesFit(T, ns[1..]))
  }

  /** Every string and every byte content of the tree fits. */
  predicate PiecesFit(T: Table, n: Node)
    requires Shape(T)
    decreases n, 1
  {
    StringFits(T, n.tag) && AttrsFit(T, n.attrs) && (n.content.Some? ==> ContentFits(T, n.content.value))
  }

  predicate AllListsFit(ns: seq<Node>)
    decreases ns, 0
  {
    ns == [] || (ListsFit(ns[0]) && AllListsFit(ns[1..]))
  }

  /** Every node of the tree has a tag, and every list a size that a header can hold. */
  predicate ListsFit(n: Node)
    decreases n, 1
  {
    && n.tag != [] && ListSize(n) < 0x1_0000
    && (n.content.Some? && n.content.value.Nodes? ==> |n.content.value.nodes| < 0x1_0000 && AllListsFit(n.content.value.nodes))
  }

  lemma RawEncodesIff(v: Bytes)
    ensures RawString(v).Ok? <==> |v| < U32_MAX
  {
  }

  lemma PackedEncodes(T: Table, v: Bytes)
    requires Shape(T) && FormOf(T, v).Packed?
    ensures EncodeString(T, v).Ok? && |v| < U32_MAX
  {
    var kind := FormOf(T, v).kind;
    FormOfPacked(T, v);
    PackedRead(kind, v, []);
  }

  /** A string without `@` is a token, or packed, or raw. */
  lemma PlainEncodesIff(T: Table, v: Bytes)
    requires Shape(T) && AT !in v
    ensures EncodeString(T, v).Ok? <==> PieceFits(T, v)
  {
    if FormOf(T, v).Packed? {
      PackedEncodes(T, v);
    }
    RawEncodesIff(v);
  }

  lemma AdEncodesIff(T: Table, v: Bytes, domain: Domain, device: nat, user: Bytes)
    requires Shape(T) && FormOf(T, v) == AdJid(domain, device, user)
    ensures EncodeString(T, v).Ok? <==> EncodeString(T, user).Ok?
  {
    assert EncodeString(T, v) == EncodeAs(T, AdJid(domain, device, user), v);
  }

  lemma PairEncodesIff(T: Table, v: Bytes, user: Bytes, server: Bytes)
    requires Shape(T) && FormOf(T, v) == JidPair(user, server)
    ensures EncodeString(T, v).Ok? <==> (user == [] || EncodeString(T, user).Ok?) && RawString(server).Ok?
  {
    assert EncodeString(T, v) == EncodeAs(T, JidPair(user, server), v);
  }

  lemma StringFitsIff(T: Table, v: Bytes)
    requires Shape(T)
    ensures EncodeString(T, v).Ok? <==> StringFits(T, v)
  {
    ParsedUserPlain(v);
    match FormOf(T, v) {
      case Raw => RawEncodesIff(v);
      case Packed(_) => PackedEncodes(T, v);
      case AdJid(domain, device, user) =>
        AdEncodesIff(T, v, domain, device, user);
        PlainEncodesIff(T, user);
      case JidPair(user, server) =>
        PairEncodesIff(T, v, user, server);
        PlainEncodesIff(T, user);
        RawEncodesIff(server);
      case _ =>
    }
  }

  lemma {:induction false} AttrsFitIff(T: Table, a: Attrs)
    requires Shape(T)
    ensures EncodeAttrs(T, a).Ok? <==> AttrsFit(T, a)
    decreases |a|
  {
    if a != [] {
      StringFitsIff(T, a[0].key);
      StringFitsIff(T, a[0].val);
      AttrsFitIff(T, a[1..]);
      AttrsFitRest(T, a);
    }
  }

  lemma AttrsFitRest(T: Table, a: Attrs)
    requires Shape(T) && a != []
    ensures AttrsFit(T, a) <==> StringFits(T, a[0].key) && StringFits(T, a[0].val) && AttrsFit(T, a[1..])
  {
    if AttrsFit(T, a[1..]) {
      forall i | 1 <= i < |a| ensures StringFits(T, a[i].key) && StringFits(T, a[i].val) {
        assert a[i] == a[1..][i - 1];
      }
    }
  }

  lemma {:induction false} NodesFitIff(T: Table, ns: seq<Node>)
    requires Shape(T)
    ensures EncodeNodes(T, ns).Ok? <==> AllListsFit(ns) && NodesFit(T, ns)
    decreases ns, 0
  {
    if ns != [] {
      NodeFitsIff(T, ns[0]);
      NodesFitIff(T, ns[1..]);
    }
  }

  lemma ListHeaderIff(len: nat)
    ensures ListHeader(len).Ok? <==> len < 0x1_0000
  {
  }

  lemma {:induction false} ContentFitsIff(T: Table, c: Content)
    requires Shape(T)
    ensures EncodeContent(T, c).Ok?
       <==> ContentFits(T, c) && (c.Nodes? ==> |c.nodes| < 0x1_0000 && AllListsFit(c.nodes))
    decreases c, 0
  {
    match c {
      case Nodes(ns) =>
        ListHeaderIff(|ns|);
        NodesFitIff(T, ns);
      case TextContent(t) => StringFitsIff(T, t);
      case BytesContent(b) => RawEncodesIff(b);
    }
  }

  lemma EncodesIffParts(T: Table, n: Node)
    requires Shape(T)
    ensures EncodeNode(T, n).Ok?
       <==> n.tag != [] && ListHeader(ListSize(n)).Ok? && EncodeString(T, n.tag).Ok? && EncodeAttrs(T, n.attrs).Ok?
            && (n.content.Some? ==> EncodeContent(T, n.content.value).Ok?)
  {
  }

  /**
   A tree can be written if and only if every node has a tag, every list a size
   below 2^16, and every piece written raw fewer than 2^32 - 1 bytes.
   */
  lemma {:induction false} NodeFitsIff(T: Table, n: Node)
    requires Shape(T)
    ensures EncodeNode(T, n).Ok? <==> ListsFit(n) && PiecesFit(T, n)
    decreases n, 1
  {
    EncodesIffParts(T, n);
    ListHeaderIff(ListSize(n));
    StringFitsIff(T, n.tag);
    AttrsFitIff(T, n.attrs);
    if n.content.Some? {
      ContentFitsIff(T, n.content.value);
    }
  }

  // ----- How long what is read can be -------------------------------------------

  /** A value read from at most `budget` bytes is at most this long. */
  function Longest(budget: nat): nat {
    TOKEN_MAX * budget
  }

  /** The string `v` was read and `rest` is left of `s`. */
  predicate Paid(s: Bytes, v: Bytes, rest: Bytes) {
    |rest| < |s| && |v| <= Longest(|s| - |rest|)
  }

  lemma ServersShort(d: Domain, device: nat)
    requires device < 256
    ensures |ServerName(DomainServer(d, SWhatsAppNet))| <= 14 && |Decimal(device)| <= 3
  {
    assert device / 10 / 10 < 10 && |Decimal(device / 10 / 10)| == 1;
    assert |Decimal(device / 10)| <= 2;
  }

  lemma BinaryPaid(tag: Byte, s: Bytes)
    requires ReadBinary(tag, s).Ok?
    ensures |ReadBinary(tag, s).value.value| + |ReadBinary(tag, s).value.rest| <= |s|
  {
  }

  lemma {:induction false} UnpackPaid(tag: Byte, count: nat, s: Bytes)
    requires UnpackAll(tag, count, s).Ok?
    ensures |UnpackAll(tag, count, s).value.rest| == |s| - count
    decreases count
  {
    if count > 0 {
      UnpackPaid(tag, count - 1, s[1..]);
    }
  }

  lemma PackedPaid(tag: Byte, s: Bytes)
    requires ReadPacked(tag, s).Ok?
    ensures |ReadPacked(tag, s).value.value| <= 2 * (|s| - |ReadPacked(tag, s).value.rest|)
  {
    UnpackPaid(tag, s[0] as nat % 128, s[1..]);
  }

  lemma {:induction false} PairPaid(T: Table, s: Bytes)
    requires Shape(T) && ShortTokens(T) && DecodeString(T, JID_PAIR, s).Ok?
    ensures |DecodeString(T, JID_PAIR, s).value.value| <= Longest(1 + |s| - |DecodeString(T, JID_PAIR, s).value.rest|)
    decreases |s|, 1
  {
    StringPaid(T, s);
    StringPaid(T, ReadString(T, s).value.rest);
  }

  lemma {:induction false} AdPaid(T: Table, s: Bytes)
    requires Shape(T) && ShortTokens(T) && DecodeString(T, AD_JID, s).Ok?
    ensures |DecodeString(T, AD_JID, s).value.value| <= Longest(1 + |s| - |DecodeString(T, AD_JID, s).value.rest|)
    decreases |s|, 1
  {
    StringPaid(T, s[1..][1..]);
    ServersShort(DomainFromCode(s[0]), s[1] as nat);
  }

  lemma {:induction false} DecodePaid(T: Table, tag: Byte, s: Bytes)
    requires Shape(T) && ShortTokens(T) && DecodeString(T, tag, s).Ok?
    ensures |DecodeString(T, tag, s).value.value| <= Longest(1 + |s| - |DecodeString(T, tag, s).value.rest|)
    decreases |s|, 2
  {
    if 1 <= tag as nat < SINGLE_COUNT {
      assert |T.single[tag as nat]| <= TOKEN_MAX;
    } else if DICTIONARY_0 <= tag <= DICTIONARY_3 {
      assert |T.double[(tag - DICTIONARY_0) as nat][s[0] as nat]| <= TOKEN_MAX;
    } else if IsBinaryTag(tag) {
      BinaryPaid(tag, s);
    } else if tag == JID_PAIR {
      PairPaid(T, s);
    } else if tag == AD_JID {
      AdPaid(T, s);
    } else if tag == HEX_8 || tag == NIBBLE_8 {
      PackedPaid(tag, s);
    }
  }

  /** A string is at most 48 times as long as the bytes it was read from. */
  lemma {:induction false} StringPaid(T: Table, s: Bytes)
    requires Shape(T) && ShortTokens(T) && ReadString(T, s).Ok?
    ensures Paid(s, ReadString(T, s).value.value, ReadString(T, s).value.rest)
    decreases |s|, 0
  {
    DecodePaid(T, s[0], s[1..]);
  }

  // ----- What is read can be written -------------------------------------------

  /** A frame body short enough that nothing read from it exceeds a length header. */
  predicate Moderate(T: Table, s: Bytes)
    requires Shape(T)
  {
    ShortTokens(T) && Longest(|s|) < U32_MAX
  }

  lemma ServerShorter(v: Bytes, user: Bytes, server: Bytes)
    requires JidForm(Parse(v)) == JidPair(user, server)
    ensures |server| <= |v|
  {
  }

  lemma ShortFits(T: Table, v: Bytes)
    requires Shape(T) && |v| < U32_MAX
    ensures StringFits(T, v)
  {
    var f := FormOf(T, v);
    if f.JidPair? {
      ServerShorter(v, f.pairUser, f.pairServer);
    }
  }

  /** A string read from a part of a moderate body fits. */
  lemma ReadFits(T: Table, s: Bytes)
    requires Shape(T) && Moderate(T, s) && ReadString(T, s).Ok?
    ensures StringFits(T, ReadString(T, s).value.value)
  {
    StringPaid(T, s);
    ShortFits(T, ReadString(T, s).value.value);
  }

  lemma {:induction false} InsertFits(T: Table, m: Attrs, k: Bytes, v: Bytes)
    requires Shape(T) && AttrsFit(T, m) && StringFits(T, k) && StringFits(T, v)
    ensures AttrsFit(T, Insert(m, k, v))
    decreases |m|
  {
    if m != [] && !Less(k, m[0].key) && k != m[0].key {
      AttrsFitRest(T, m);
      InsertFits(T, m[1..], k, v);
      assert ([m[0]] + Insert(m[1..], k, v))[1..] == Insert(m[1..], k, v);
      AttrsFitRest(T, Insert(m, k, v));
    }
  }

  lemma {:induction false} InsertGrows(m: Attrs, k: Bytes, v: Bytes)
    ensures |Insert(m, k, v)| <= |m| + 1
    decreases |m|
  {
    if m != [] && !Less(k, m[0].key) && k != m[0].key {
      InsertGrows(m[1..], k, v);
    }
  }

  lemma {:induction false} AttrsCounted(T: Table, count: nat, s: Bytes, acc: Attrs)
    requires Shape(T) && ReadAttrs(T, count, s, acc).Ok?
    ensures |ReadAttrs(T, count, s, acc).value.value| <= |acc| + count
    decreases count
  {
    if count > 0 {
      var k := ReadString(T, s).value;
      var v := ReadString(T, k.rest).value;
      InsertGrows(acc, k.value, v.value);
      AttrsCounted(T, count - 1, v.rest, Insert(acc, k.value, v.value));
    }
  }

  lemma {:induction false} AttrsReadFit(T: Table, count: nat, s: Bytes, acc: Attrs)
    requires Shape(T) && Moderate(T, s) && AttrsFit(T, acc) && ReadAttrs(T, count, s, acc).Ok?
    ensures AttrsFit(T, ReadAttrs(T, count, s, acc).value.value)
    decreases count
  {
    if count > 0 {
      var k := ReadString(T, s).value;
      var v := ReadString(T, k.rest).value;
      ReadFits(T, s);
      ReadFits(T, k.rest);
      InsertFits(T, acc, k.value, v.value);
      AttrsReadFit(T, count - 1, v.rest, Insert(acc, k.value, v.value));
    }
  }

  lemma SizeBelow(tag: Byte, s: Bytes)
    requires ReadListSize(tag, s).Ok?
    ensures ReadListSize(tag, s).value.value < 0x1_0000
  {
  }

  /** The parts that a node was read from, and where each begins. */
  lemma NodePieces(T: Table, s: Bytes) returns (size: nat, s1: Bytes, s2: Bytes, s3: Bytes)
    requires Shape(T) && DecodeNode(T, s).Ok?
    ensures |s1| < |s| && |s2| < |s| && |s3| < |s| && 0 < size < 0x1_0000
    ensures var n := DecodeNode(T, s).value.value;
            && n.tag != [] && ReadString(T, s1) == Ok(Parsed(n.tag, s2))
            && ReadAttrs(T, (size - 1) / 2, s2, []) == Ok(Parsed(n.attrs, s3))
            && (n.content.Some? ==>
                  size % 2 == 0 && ReadContent(T, s3).Ok? && ReadContent(T, s3).value.value == n.content.value)
  {
    SizeBelow(s[0], s[1..]);
    var sized := ReadListSize(s[0], s[1..]).value;
    var tag := ReadString(T, sized.rest).value;
    var attrs := ReadAttrs(T, (sized.value - 1) / 2, tag.rest, []).value;
    size, s1, s2, s3 := sized.value, sized.rest, tag.rest, attrs.rest;
  }

  predicate ContentListsFit(c: Content) {
    c.Nodes? ==> |c.nodes| < 0x1_0000 && AllListsFit(c.nodes)
  }

  lemma {:induction false} NodesListsFit(T: Table, count: nat, s: Bytes)
    requires Shape(T) && ReadNodes(T, count, s).Ok?
    ensures AllListsFit(ReadNodes(T, count, s).value.value) && |ReadNodes(T, count, s).value.value| == count
    decreases |s|, 2, count
  {
    if count > 0 {
      var first := DecodeNode(T, s).value;
      DecodedListsFit(T, s);
      NodesListsFit(T, count - 1, first.rest);
      var more := ReadNodes(T, count - 1, first.rest).value;
      assert ([first.value] + more.value)[1..] == more.value;
    }
  }

  lemma {:induction false} ReadListsFit(T: Table, s: Bytes)
    requires Shape(T) && ReadContent(T, s).Ok?
    ensures ContentListsFit(ReadContent(T, s).value.value)
    decreases |s|, 0
  {
    if IsListTag(s[0]) {
      var count := ReadListSize(s[0], s[1..]).value;
      SizeBelow(s[0], s[1..]);
      NodesListsFit(T, count.value, count.rest);
    }
  }

  lemma ListPartsFit(n: Node, size: nat)
    requires n.tag != [] && 0 < size < 0x1_0000 && |n.attrs| <= (size - 1) / 2
    requires n.content.Some? ==> size % 2 == 0 && ContentListsFit(n.content.value)
    ensures ListsFit(n)
  {
  }

  /** Whatever is read has tags, and lists of sizes that a header can hold. */
  lemma {:induction false} DecodedListsFit(T: Table, s: Bytes)
    requires Shape(T) && DecodeNode(T, s).Ok?
    ensures ListsFit(DecodeNode(T, s).value.value)
    decreases |s|, 1
  {
    var n := DecodeNode(T, s).value.value;
    var size, s1, s2, s3 := NodePieces(T, s);
    AttrsCounted(T, (size - 1) / 2, s2, []);
    if n.content.Some? {
      ReadListsFit(T, s3);
    }
    ListPartsFit(n, size);
  }

  lemma {:induction false} NodesReadFit(T: Table, count: nat, s: Bytes)
    requires Shape(T) && Moderate(T, s) && ReadNodes(T, count, s).Ok?
    ensures NodesFit(T, ReadNodes(T, count, s).value.value)
    decreases |s|, 2, count
  {
    if count > 0 {
      var first := DecodeNode(T, s).value;
      ModerateFits(T, s);
      NodesReadFit(T, count - 1, first.rest);
      var more := ReadNodes(T, count - 1, first.rest).value;
      assert ([first.value] + more.value)[1..] == more.value;
    }
  }

  lemma {:induction false} ContentReadFits(T: Table, s: Bytes)
    requires Shape(T) && Moderate(T, s) && ReadContent(T, s).Ok?
    ensures ContentFits(T, ReadContent(T, s).value.value)
    decreases |s|, 0
  {
    if IsListTag(s[0]) {
      var count := ReadListSize(s[0], s[1..]).value;
      NodesReadFit(T, count.value, count.rest);
    } else if IsBinaryTag(s[0]) {
      BinaryPaid(s[0], s[1..]);
    } else {
      DecodePaid(T, s[0], s[1..]);
      ShortFits(T, DecodeString(T, s[0], s[1..]).value.value);
    }
  }

  /** Whatever is read from a moderate body fits. */
  lemma {:induction false} ModerateFits(T: Table, s: Bytes)
    requires Shape(T) && Moderate(T, s) && DecodeNode(T, s).Ok?
    ensures PiecesFit(T, DecodeNode(T, s).value.value)
    decreases |s|, 1
  {
    var n := DecodeNode(T, s).value.value;
    var size, s1, s2, s3 := NodePieces(T, s);
    ReadFits(T, s1);
    AttrsReadFit(T, (size - 1) / 2, s2, []);
    if n.content.Some? {
      ContentReadFits(T, s3);
    }
  }

  /** The bytes of a frame that a node is read from. */
  function BodyOf(inflate: Bytes -> Option<Bytes>, frame: Bytes): Option<Bytes> {
    if frame == [] then None else if frame[0] / 2 % 2 == 1 then inflate(frame[1..]) else Some(frame[1..])
  }

  lemma BodyDecodes(T: Table, inflate: Bytes -> Option<Bytes>, frame: Bytes, n: Node)
    requires Shape(T)
    ensures DecodeFrame(T, inflate, frame) == Ok(n)
       <==> BodyOf(inflate, frame).Some? && DecodeNode(T, BodyOf(inflate, frame).value).Ok?
            && DecodeNode(T, BodyOf(inflate, frame).value).value.value == n
  {
  }

  /**
   A decoded node can be written again if and only if every piece of it fits, as
   every piece read from a body of fewer than 2^32 / 48 bytes does. Whoever waits
   for it then reads its norm, or an error exactly when one of its strings is a JID
   without a server.
   */
  lemma DispatchArrives(T: Table, inflate: Bytes -> Option<Bytes>, frame: Bytes, n: Node)
    requires Shape(T) && DecodeFrame(T, inflate, frame) == Ok(n)
    ensures EncodeFrame(T, n).Ok? <==> PiecesFit(T, n)
    ensures BodyOf(inflate, frame).Some? && (Moderate(T, BodyOf(inflate, frame).value) ==> PiecesFit(T, n))
    ensures EncodeFrame(T, n).Ok? ==>
              DecodeFrame(T, inflate, EncodeFrame(T, n).value)
              == if Readable(T, n) then Ok(Norm(T, n)) else Err(InvalidJidPair)
  {
    BodyDecodes(T, inflate, frame, n);
    var body := BodyOf(inflate, frame).value;
    DecodedListsFit(T, body);
    NodeFitsIff(T, n);
    if Moderate(T, body) {
      ModerateFits(T, body);
    }
    if EncodeFrame(T, n).Ok? {
      DispatchedNode(T, inflate, frame, n);
    }
  }

  // ----- A node that arrives and cannot be written -----------------------------

  const ID: Bytes := [0x69, 0x64]

  /** A length that BINARY_32 can announce and that no header is written for. */
  const LONGEST_HEADER: Bytes := [BINARY_32, 255, 255, 255, 255]

  function RawBytes(v: Bytes): Bytes
    requires |v| < U32_MAX
  {
    RawString(v).value
  }

  /** A body with one attribute, the id, and `b` as content. */
  function LongBody(tag: Bytes, id: Bytes, b: Bytes): Bytes
    requires |tag| < U32_MAX && |id| < U32_MAX
  {
    [LIST_8, 4] + (RawBytes(tag) + (RawBytes(ID) + (RawBytes(id) + (LONGEST_HEADER + b))))
  }

  function LongNode(tag: Bytes, id: Bytes, b: Bytes): Node {
    Node(tag, [Entry(ID, id)], Some(BytesContent(b)))
  }

  lemma RawIsRead(T: Table, v: Bytes, rest: Bytes)
    requires Shape(T) && Utf8(v) && |v| < U32_MAX
    ensures ReadString(T, RawBytes(v) + rest) == Ok(Parsed(v, rest))
  {
    RawStringRead(T, v, rest);
    ReadStringOf(T, RawBytes(v), rest);
  }

  lemma LongIsRead(T: Table, b: Bytes)
    requires Shape(T) && |b| == U32_MAX
    ensures ReadContent(T, LONGEST_HEADER + b) == Ok(Parsed(BytesContent(b), []))
  {
    ReadInt4(255, 255, 255, 255, b);
    assert (LONGEST_HEADER + b)[1..] == [255, 255, 255, 255] + b;
    assert b[..|b|] == b && b[|b|..] == [];
  }

  lemma IdIsRead(T: Table, id: Bytes, rest: Bytes)
    requires Shape(T) && Utf8(id) && |id| < U32_MAX
    ensures ReadAttrs(T, 1, RawBytes(ID) + (RawBytes(id) + rest), []) == Ok(Parsed([Entry(ID, id)], rest))
  {
    AsciiIsUtf8(ID);
    RawIsRead(T, ID, RawBytes(id) + rest);
    RawIsRead(T, id, rest);
    ReadAttrsStep(T, 0, RawBytes(ID), RawBytes(id), rest, ID, id, []);
  }

  /** A node of four parts that are read one after the other. */
  lemma FourParts(T: Table, s: Bytes, tag: Bytes, s2: Bytes, attrs: Attrs, s3: Bytes, c: Content)
    requires Shape(T) && tag != [] && ReadString(T, s) == Ok(Parsed(tag, s2))
    requires ReadAttrs(T, 1, s2, []) == Ok(Parsed(attrs, s3)) && ReadContent(T, s3) == Ok(Parsed(c, []))
    ensures DecodeNode(T, [LIST_8, 4] + s) == Ok(Parsed(Node(tag, attrs, Some(c)), []))
  {
    assert ([LIST_8, 4] + s)[1..] == [4] + s && ([4] + s)[1..] == s;
  }

  lemma LongBodyRead(T: Table, tag: Bytes, id: Bytes, b: Bytes)
    requires Shape(T) && tag != [] && Utf8(tag) && Utf8(id) && |tag| < U32_MAX && |id| < U32_MAX && |b| == U32_MAX
    ensures DecodeNode(T, LongBody(tag, id, b)) == Ok(Parsed(LongNode(tag, id, b), []))
  {
    var tail := LONGEST_HEADER + b;
    var attrs := RawBytes(ID) + (RawBytes(id) + tail);
    RawIsRead(T, tag, attrs);
    IdIsRead(T, id, tail);
    LongIsRead(T, b);
    FourParts(T, RawBytes(tag) + attrs, tag, attrs, [Entry(ID, id)], tail, BytesContent(b));
  }

  /**
   A node that arrives and cannot be written again: its content has 2^32 - 1 bytes,
   which the reader accepts and the writer refuses.
   */
  lemma UnwritableArrives(T: Table, inflate: Bytes -> Option<Bytes>, frame: Bytes, tag: Bytes, id: Bytes, b: Bytes)
    requires Shape(T) && tag != [] && Utf8(tag) && Utf8(id) && |tag| < U32_MAX && |id| < U32_MAX && |b| == U32_MAX
    requires BodyOf(inflate, frame) == Some(LongBody(tag, id, b))
    ensures DecodeFrame(T, inflate, frame) == Ok(LongNode(tag, id, b))
    ensures EncodeFrame(T, LongNode(tag, id, b)).Err?
  {
    LongBodyRead(T, tag, id, b);
    BodyDecodes(T, inflate, frame, LongNode(tag, id, b));
    NodeFitsIff(T, LongNode(tag, id, b));
  }
}
