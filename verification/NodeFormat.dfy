/**
 The wire format of binary nodes (crates/wa-binary/src/codec.rs) as functions:
 what the writer appends for a value, and what the reader makes of a byte
 sequence. The buffer and cursor that work in place are in NodeCodec.
 */
module NodeFormat {
  import opened Prelude
  import opened Text
  import opened SortedMap
  import opened Tokens
  import opened Jid

  const LIST_EMPTY: Byte := 0
  const DICTIONARY_0: Byte := 236
  const DICTIONARY_3: Byte := 239
  const AD_JID: Byte := 247
  const LIST_8: Byte := 248
  const LIST_16: Byte := 249
  const JID_PAIR: Byte := 250
  const HEX_8: Byte := 251
  const BINARY_8: Byte := 252
  const BINARY_20: Byte := 253
  const BINARY_32: Byte := 254
  const NIBBLE_8: Byte := 255
  const PACKED_MAX: nat := 127
  const U32_MAX: nat := 0xFFFF_FFFF

  type Attrs = seq<Entry<Bytes>>

  datatype Node = Node(tag: Bytes, attrs: Attrs, content: Option<Content>)

  datatype Content = Nodes(nodes: seq<Node>) | TextContent(text: Bytes) | BytesContent(bytes: Bytes)

  datatype EncodeError =
    | EmptyTag
    | StringTooLarge(size: nat)
    | ListTooLarge(size: nat)
    | InvalidNibble(ch: Byte)
    | InvalidHex(ch: Byte)

  datatype DecodeError =
    | EndOfStream
    | InvalidListTag(tag: Byte)
    | InvalidNode
    | InvalidStringTag(tag: Byte)
    | InvalidPackedByte
    | InvalidJidPair
    | InvalidUtf8
    | Decompression

  /** What every Rust `BinaryNode` is: UTF-8 strings, attributes in key order. */
  predicate WellFormed(n: Node)
    decreases n
  {
    && Utf8(n.tag)
    && WellFormedAttrs(n.attrs)
    && (n.content.Some? ==>
          match n.content.value
          case Nodes(ns) => forall i :: 0 <= i < |ns| ==> WellFormed(ns[i])
          case TextContent(t) => Utf8(t)
          case BytesContent(_) => true)
  }

  predicate WellFormedAttrs(a: Attrs) {
    && Sorted(a)
    && forall i :: 0 <= i < |a| ==> Utf8(a[i].key) && Utf8(a[i].val)
  }

  // ----- Writing -------------------------------------------------------------

  type Encoded = Result<Bytes, EncodeError>

  /** `write_list_start` */
  function ListHeader(len: nat): Encoded {
    if len == 0 then Ok([LIST_EMPTY])
    else if len < 256 then Ok([LIST_8, len as Byte])
    else if len < 0x1_0000 then Ok([LIST_16, (len / 256) as Byte, (len % 256) as Byte])
    else Err(ListTooLarge(len))
  }

  /** `write_byte_length` */
  function LengthHeader(len: nat): Encoded {
    if len >= U32_MAX then Err(StringTooLarge(len))
    else if len >= 0x10_0000 then
      Ok([BINARY_32, (len / 0x100_0000) as Byte, (len / 0x1_0000 % 256) as Byte,
          (len / 256 % 256) as Byte, (len % 256) as Byte])
    else if len >= 256 then
      Ok([BINARY_20, (len / 0x1_0000 % 16) as Byte, (len / 256 % 256) as Byte, (len % 256) as Byte])
    else Ok([BINARY_8, len as Byte])
  }

  /** `write_raw_string` */
  function RawString(v: Bytes): Encoded {
    var header :- LengthHeader(|v|);
    Ok(header + v)
  }

  datatype PackedKind = Nibble | Hex

  predicate NibbleChar(c: Byte) {
    IsDigit(c) || c == DASH || c == DOT
  }

  predicate HexChar(c: Byte) {
    IsDigit(c) || 0x41 <= c <= 0x46
  }

  predicate PackedChar(kind: PackedKind, c: Byte) {
    if kind.Nibble? then NibbleChar(c) else HexChar(c)
  }

  /** `is_nibble` and `is_hex` */
  predicate Packable(kind: PackedKind, v: Bytes) {
    |v| <= PACKED_MAX && forall i :: 0 <= i < |v| ==> PackedChar(kind, v[i])
  }

  /** `pack_nibble` and `pack_hex`; 0 stands for the padding character. */
  function Pack(kind: PackedKind, c: Byte): (r: Result<Byte, EncodeError>)
    ensures r.Ok? ==> r.value < 16
  {
    match kind
    case Nibble =>
      if c == DASH then Ok(10)
      else if c == DOT then Ok(11)
      else if c == 0 then Ok(15)
      else if IsDigit(c) then Ok(c - 0x30)
      else Err(InvalidNibble(c))
    case Hex =>
      if IsDigit(c) then Ok(c - 0x30)
      else if 0x41 <= c <= 0x46 then Ok(c - 0x41 + 10)
      else if 0x61 <= c <= 0x66 then Ok(c - 0x61 + 10)
      else if c == 0 then Ok(15)
      else Err(InvalidHex(c))
  }

  function PackTwo(kind: PackedKind, first: Byte, second: Byte): Result<Byte, EncodeError> {
    var hi :- Pack(kind, first);
    var lo :- Pack(kind, second);
    Ok(hi * 16 + lo)
  }

  /** The packed characters of `v`, two to a byte, an odd last one padded. */
  function PackAll(kind: PackedKind, v: Bytes): Encoded
    decreases |v|
  {
    if v == [] then Ok([])
    else
      var b :- PackTwo(kind, v[0], if |v| > 1 then v[1] else 0);
      var rest :- PackAll(kind, if |v| > 1 then v[2..] else []);
      Ok([b] + rest)
  }

  function PackedTag(kind: PackedKind): Byte {
    if kind.Nibble? then NIBBLE_8 else HEX_8
  }

  /** Byte count of a packed string, with the top bit set for an odd length. */
  function PackedSize(len: nat): Byte
    requires len <= PACKED_MAX
  {
    ((len + 1) / 2 + (if len % 2 == 1 then 128 else 0)) as Byte
  }

  /** `write_packed` */
  function PackedString(kind: PackedKind, v: Bytes): Encoded {
    if |v| > PACKED_MAX then RawString(v)
    else
      var packed :- PackAll(kind, v);
      Ok([PackedTag(kind), PackedSize(|v|)] + packed)
  }

  /** The forms a string can take on the wire. */
  datatype Form =
    | Raw
    | SingleToken(index: nat)
    | DoubleToken(dict: nat, index: nat)
    | Packed(kind: PackedKind)
    | AdJid(domain: Domain, device: nat, adUser: Bytes)
    | JidPair(pairUser: Bytes, pairServer: Bytes)

  /** Tokens stand for the string, and a JID's user part is shorter than the JID. */
  predicate FormFits(T: Table, f: Form, v: Bytes)
    requires Shape(T)
  {
    match f
    case SingleToken(i) => 1 <= i < SINGLE_COUNT && T.single[i] == v
    case DoubleToken(d, i) => d < DICTIONARY_COUNT && i < DICTIONARY_SIZE && T.double[d][i] == v
    case AdJid(_, _, user) => |user| < |v|
    case JidPair(user, _) => |user| < |v|
    case _ => true
  }

  function JidForm(jid: Option<FullJid>): Form {
    match jid
    case None => Raw
    case Some(j) =>
      if j.device.Some? then AdJid(j.domain, j.device.value, j.user) else JidPair(j.user, j.serverRaw)
  }

  /** The priority chain of `write_string`. */
  function FormOf(T: Table, v: Bytes): (f: Form)
    requires Shape(T)
    ensures FormFits(T, f, v)
    ensures f.AdJid? || f.JidPair? ==> AT in v && f == JidForm(Parse(v))
  {
    if v == [] then Raw
    else
      match TokenFor(T, v)
      case Some(t) => if t.dict.Some? then DoubleToken(t.dict.value, t.index) else SingleToken(t.index)
      case None =>
        if Packable(Nibble, v) then Packed(Nibble)
        else if Packable(Hex, v) then Packed(Hex)
        else JidForm(Parse(v))
  }

  /** `write_string` */
  function EncodeString(T: Table, v: Bytes): Encoded
    requires Shape(T)
    decreases |v|, 1
  {
    EncodeAs(T, FormOf(T, v), v)
  }

  function EncodeAs(T: Table, f: Form, v: Bytes): Encoded
    requires Shape(T) && FormFits(T, f, v)
    decreases |v|, 0
  {
    match f
    case Raw => RawString(v)
    case SingleToken(i) => Ok([i as Byte])
    case DoubleToken(d, i) => Ok([DICTIONARY_0 + d as Byte, i as Byte])
    case Packed(kind) => PackedString(kind, v)
    case AdJid(domain, device, user) =>
      var u :- EncodeString(T, user);
      Ok([AD_JID, DomainCode(domain), (device % 256) as Byte] + u)
    case JidPair(user, server) =>
      var u :- (if user == [] then Ok([LIST_EMPTY]) else EncodeString(T, user));
      var s :- RawString(server);
      Ok([JID_PAIR] + u + s)
  }

  function EncodeAttrs(T: Table, a: Attrs): Encoded
    requires Shape(T)
    decreases |a|
  {
    if a == [] then Ok([])
    else
      var k :- EncodeString(T, a[0].key);
      var v :- EncodeString(T, a[0].val);
      var rest :- EncodeAttrs(T, a[1..]);
      Ok(k + v + rest)
  }

  function EncodeContent(T: Table, c: Content): Encoded
    requires Shape(T)
    decreases c, 0
  {
    match c
    case Nodes(ns) =>
      var header :- ListHeader(|ns|);
      var body :- EncodeNodes(T, ns);
      Ok(header + body)
    case TextContent(t) => EncodeString(T, t)
    case BytesContent(b) => RawString(b)
  }

  function EncodeNodes(T: Table, ns: seq<Node>): Encoded
    requires Shape(T)
    decreases ns, 0
  {
    if ns == [] then Ok([])
    else
      var first :- EncodeNode(T, ns[0]);
      var rest :- EncodeNodes(T, ns[1..]);
      Ok(first + rest)
  }

  function ListSize(n: Node): nat {
    1 + |n.attrs| * 2 + (if n.content.Some? then 1 else 0)
  }

  /** `encode_node_inner` */
  function EncodeNode(T: Table, n: Node): Encoded
    requires Shape(T)
    decreases n, 1
  {
    if n.tag == [] then Err(EmptyTag)
    else
      var header :- ListHeader(ListSize(n));
      var tag :- EncodeString(T, n.tag);
      var attrs :- EncodeAttrs(T, n.attrs);
      var content :- (if n.content.Some? then EncodeContent(T, n.content.value) else Ok([]));
      Ok(header + tag + attrs + content)
  }

  /** `encode_binary_node` */
  function EncodeFrame(T: Table, n: Node): Encoded
    requires Shape(T)
  {
    var body :- EncodeNode(T, n);
    Ok([0] + body)
  }

  // ----- Reading -------------------------------------------------------------

  /** A value and the bytes that follow it. */
  datatype Parsed<+V> = Parsed(value: V, rest: Bytes)

  type Decoded<+V> = Result<Parsed<V>, DecodeError>

  /** `Cursor::read_u8` */
  function ReadU8(s: Bytes): Decoded<Byte> {
    if s == [] then Err(EndOfStream) else Ok(Parsed(s[0], s[1..]))
  }

  /** `Cursor::read_bytes` */
  function ReadBytes(s: Bytes, len: nat): Decoded<Bytes> {
    if len > |s| then Err(EndOfStream) else Ok(Parsed(s[..len], s[len..]))
  }

  /** `Cursor::read_int`: `len` more big-endian bytes after the value so far. */
  function ReadInt(s: Bytes, len: nat, acc: nat): (r: Decoded<nat>)
    ensures r.Ok? ==> |r.value.rest| == |s| - len
    decreases len
  {
    if len == 0 then Ok(Parsed(acc, s))
    else
      var b :- ReadU8(s);
      ReadInt(b.rest, len - 1, acc * 256 + b.value as nat)
  }

  /** `Cursor::read_int20` */
  function ReadInt20(s: Bytes): (r: Decoded<nat>)
    ensures r.Ok? ==> |r.value.rest| < |s|
  {
    var b1 :- ReadU8(s);
    var b2 :- ReadU8(b1.rest);
    var b3 :- ReadU8(b2.rest);
    Ok(Parsed(b1.value as nat % 16 * 0x1_0000 + b2.value as nat * 256 + b3.value as nat, b3.rest))
  }

  predicate IsListTag(tag: Byte) {
    tag == LIST_EMPTY || tag == LIST_8 || tag == LIST_16
  }

  predicate IsBinaryTag(tag: Byte) {
    tag == BINARY_8 || tag == BINARY_20 || tag == BINARY_32
  }

  /** `Cursor::read_list_size` */
  function ReadListSize(tag: Byte, s: Bytes): (r: Decoded<nat>)
    ensures r.Ok? ==> |r.value.rest| <= |s|
    ensures r.Ok? && r.value.value > 0 ==> |r.value.rest| < |s|
  {
    if tag == LIST_EMPTY then Ok(Parsed(0, s))
    else if tag == LIST_8 then var b :- ReadU8(s); Ok(Parsed(b.value as nat, b.rest))
    else if tag == LIST_16 then ReadInt(s, 2, 0)
    else Err(InvalidListTag(tag))
  }

  function ReadLength(tag: Byte, s: Bytes): (r: Decoded<nat>)
    ensures r.Ok? ==> |r.value.rest| < |s|
  {
    if tag == BINARY_8 then var b :- ReadU8(s); Ok(Parsed(b.value as nat, b.rest))
    else if tag == BINARY_20 then ReadInt20(s)
    else if tag == BINARY_32 then ReadInt(s, 4, 0)
    else Err(InvalidStringTag(tag))
  }

  /** `Cursor::read_binary_for_tag` */
  function ReadBinary(tag: Byte, s: Bytes): (r: Decoded<Bytes>)
    ensures r.Ok? ==> |r.value.rest| < |s|
  {
    var n :- ReadLength(tag, s);
    ReadBytes(n.rest, n.value)
  }

  /** `unpack_byte` */
  function Unpack(tag: Byte, v: Byte): Result<Byte, DecodeError> {
    if tag == NIBBLE_8 then
      if v <= 9 then Ok(0x30 + v)
      else if v == 10 then Ok(DASH)
      else if v == 11 then Ok(DOT)
      else if v == 15 then Ok(0)
      else Err(InvalidPackedByte)
    else if tag == HEX_8 then
      if v <= 9 then Ok(0x30 + v)
      else if v <= 15 then Ok(0x41 + v - 10)
      else Err(InvalidPackedByte)
    else Err(InvalidPackedByte)
  }

  function UnpackAll(tag: Byte, count: nat, s: Bytes): (r: Decoded<Bytes>)
    ensures r.Ok? ==> |r.value.rest| <= |s| && |r.value.value| == 2 * count
    decreases count
  {
    if count == 0 then Ok(Parsed([], s))
    else
      var b :- ReadU8(s);
      var hi :- Unpack(tag, b.value / 16);
      var lo :- Unpack(tag, b.value % 16);
      var more :- UnpackAll(tag, count - 1, b.rest);
      Ok(Parsed([hi, lo] + more.value, more.rest))
  }

  /** `String::pop` when `trim` is set */
  function TrimLast(s: Bytes, trim: bool): Bytes {
    if trim && s != [] then s[..|s| - 1] else s
  }

  /** `Cursor::read_packed` */
  function ReadPacked(tag: Byte, s: Bytes): (r: Decoded<Bytes>)
    ensures r.Ok? ==> |r.value.rest| < |s|
  {
    var start :- ReadU8(s);
    var chars :- UnpackAll(tag, start.value as nat % 128, start.rest);
    Ok(Parsed(TrimLast(chars.value, start.value >= 128), chars.rest))
  }

  function DomainFromCode(code: Byte): Domain {
    if code == 1 then LidDomain
    else if code == 128 then HostedDomain
    else if code == 129 then HostedLidDomain
    else WhatsApp
  }

  /** `Cursor::read_string` after its tag byte */
  function DecodeString(T: Table, tag: Byte, s: Bytes): (r: Decoded<Bytes>)
    requires Shape(T)
    ensures r.Ok? ==> |r.value.rest| <= |s|
    decreases |s|
  {
    if 1 <= tag as nat < |T.single| then Ok(Parsed(T.single[tag as nat], s))
    else if DICTIONARY_0 <= tag <= DICTIONARY_3 then
      var index :- ReadU8(s);
      Ok(Parsed(T.double[(tag - DICTIONARY_0) as nat][index.value as nat], index.rest))
    else if tag == LIST_EMPTY then Ok(Parsed([], s))
    else if IsBinaryTag(tag) then
      var bytes :- ReadBinary(tag, s);
      if Utf8(bytes.value) then Ok(bytes) else Err(InvalidUtf8)
    else if tag == JID_PAIR then
      var user :- ReadString(T, s);
      var server :- ReadString(T, user.rest);
      if server.value == [] then Err(InvalidJidPair)
      else Ok(Parsed(user.value + [AT] + server.value, server.rest))
    else if tag == AD_JID then
      var domain :- ReadU8(s);
      var device :- ReadU8(domain.rest);
      var user :- ReadString(T, device.rest);
      var server := DomainServer(DomainFromCode(domain.value), SWhatsAppNet);
      Ok(Parsed(Print(user.value, server, Some(device.value as nat), None), user.rest))
    else if tag == HEX_8 || tag == NIBBLE_8 then ReadPacked(tag, s)
    else Err(InvalidStringTag(tag))
  }

  /** A tag byte and the string it announces */
  function ReadString(T: Table, s: Bytes): (r: Decoded<Bytes>)
    requires Shape(T)
    ensures r.Ok? ==> |r.value.rest| < |s|
    decreases |s|, 0
  {
    var tag :- ReadU8(s);
    DecodeString(T, tag.value, tag.rest)
  }

  function ReadAttrs(T: Table, count: nat, s: Bytes, acc: Attrs): (r: Decoded<Attrs>)
    requires Shape(T)
    ensures r.Ok? ==> |r.value.rest| <= |s|
    decreases count
  {
    if count == 0 then Ok(Parsed(acc, s))
    else
      var k :- ReadString(T, s);
      var v :- ReadString(T, k.rest);
      ReadAttrs(T, count - 1, v.rest, Insert(acc, k.value, v.value))
  }

  function ReadContent(T: Table, s: Bytes): (r: Decoded<Content>)
    requires Shape(T)
    ensures r.Ok? ==> |r.value.rest| < |s|
    decreases |s|, 0
  {
    var tag :- ReadU8(s);
    if IsListTag(tag.value) then
      var count :- ReadListSize(tag.value, tag.rest);
      var children :- ReadNodes(T, count.value, count.rest);
      Ok(Parsed(Nodes(children.value), children.rest))
    else if IsBinaryTag(tag.value) then
      var bytes :- ReadBinary(tag.value, tag.rest);
      Ok(Parsed(BytesContent(bytes.value), bytes.rest))
    else
      var text :- DecodeString(T, tag.value, tag.rest);
      Ok(Parsed(TextContent(text.value), text.rest))
  }

  function ReadNodes(T: Table, count: nat, s: Bytes): (r: Decoded<seq<Node>>)
    requires Shape(T)
    ensures r.Ok? ==> |r.value.rest| <= |s|
    decreases |s|, 2, count
  {
    if count == 0 then Ok(Parsed([], s))
    else
      var first :- DecodeNode(T, s);
      var more :- ReadNodes(T, count - 1, first.rest);
      Ok(Parsed([first.value] + more.value, more.rest))
  }

  /** `decode_node_inner` */
  function DecodeNode(T: Table, s: Bytes): (r: Decoded<Node>)
    requires Shape(T)
    ensures r.Ok? ==> |r.value.rest| < |s|
    decreases |s|, 1
  {
    var listTag :- ReadU8(s);
    var size :- ReadListSize(listTag.value, listTag.rest);
    var tag :- ReadString(T, size.rest);
    if size.value == 0 || tag.value == [] then Err(InvalidNode)
    else
      var attrs :- ReadAttrs(T, (size.value - 1) / 2, tag.rest, []);
      if size.value % 2 == 0 then
        var content :- ReadContent(T, attrs.rest);
        Ok(Parsed(Node(tag.value, attrs.value, Some(content.value)), content.rest))
      else Ok(Parsed(Node(tag.value, attrs.value, None), attrs.rest))
  }

  /** A decoded value; bytes after it are ignored. */
  function WithoutRest<V>(d: Decoded<V>): Result<V, DecodeError> {
    if d.Ok? then Ok(d.value.value) else Err(d.error)
  }

  /** `decode_binary_node`; `inflate` stands for the zlib branch. */
  function DecodeFrame(T: Table, inflate: Bytes -> Option<Bytes>, frame: Bytes): Result<Node, DecodeError>
    requires Shape(T)
  {
    if frame == [] then Err(EndOfStream)
    else if frame[0] / 2 % 2 == 1 then
      match inflate(frame[1..])
      case None => Err(Decompression)
      case Some(body) => WithoutRest(DecodeNode(T, body))
    else WithoutRest(DecodeNode(T, frame[1..]))
  }
}
