/**
 The codec as it works in place: a buffer that is appended to and a cursor that
 moves over bytes, each method tied to the wire format of NodeFormat.
 */
module NodeCodec {
  import opened Prelude
  import opened Text
  import opened SortedMap
  import opened Tokens
  import opened Jid
  import opened NodeFormat

  /** `now` is `was` with the specified bytes appended, or the specified error was reported. */
  predicate Appended(was: Bytes, now: Bytes, spec: Encoded, r: Outcome<EncodeError>) {
    if spec.Ok? then r == Pass && now == was + spec.value else r == Fail(spec.error)
  }

  /** One encoding after another; the first error wins. */
  function Both(a: Encoded, b: Encoded): Encoded {
    if a.Err? then a else if b.Err? then b else Ok(a.value + b.value)
  }

  lemma AppendTwo(was: Bytes, mid: Bytes, now: Bytes, a: Encoded, b: Encoded, r: Outcome<EncodeError>)
    requires Appended(was, mid, a, Pass) && Appended(mid, now, b, r)
    ensures Appended(was, now, Both(a, b), r)
  {
  }

  /** A loop that has produced `done` of `whole` and has `rest` to go. */
  predicate Remaining(whole: Encoded, done: Bytes, rest: Encoded) {
    whole == Both(Ok(done), rest)
  }

  lemma RemainingStep(whole: Encoded, done: Bytes, first: Encoded, more: Encoded)
    requires Remaining(whole, done, Both(first, more))
    ensures first.Err? ==> whole == first
    ensures first.Ok? ==> Remaining(whole, done + first.value, more)
  {
    if first.Ok? && more.Ok? {
      Assoc(done, first.value, more.value);
    }
  }

  lemma RemainingStart(whole: Encoded)
    ensures Remaining(whole, [], whole)
  {
    if whole.Ok? {
      assert [] + whole.value == whole.value;
    }
  }

  lemma RemainingEnd(whole: Encoded, done: Bytes)
    requires Remaining(whole, done, Ok([]))
    ensures whole == Ok(done)
  {
    assert done + [] == done;
  }

  function EncodeEntry(T: Table, e: Entry<Bytes>): Encoded
    requires Shape(T)
  {
    Both(EncodeString(T, e.key), EncodeString(T, e.val))
  }

  lemma TokenBytes(T: Table, v: Bytes, was: Bytes, now: Bytes, token: Token)
    requires Shape(T) && v != [] && TokenFor(T, v) == Some(token)
    requires now == (if token.dict.Some? then was + [DICTIONARY_0 + token.dict.value as Byte] else was)
                    + [token.index as Byte]
    ensures Appended(was, now, EncodeString(T, v), Pass)
  {
    if token.dict.Some? {
      var d, i := DICTIONARY_0 + token.dict.value as Byte, token.index as Byte;
      assert EncodeString(T, v) == Ok([d, i]);
      assert was + [d] + [i] == was + [d, i];
    }
  }

  lemma PackedForm(T: Table, v: Bytes, kind: PackedKind)
    requires Shape(T) && v != [] && TokenFor(T, v).None? && Packable(kind, v)
    requires kind.Hex? ==> !Packable(Nibble, v)
    ensures EncodeString(T, v) == PackedString(kind, v)
  {
    assert FormOf(T, v) == Packed(kind);
    assert EncodeAs(T, Packed(kind), v) == PackedString(kind, v);
  }

  class Writer {
    var buf: Bytes

    constructor ()
      ensures buf == []
    {
      buf := [];
    }

    method WriteListStart(len: nat) returns (r: Outcome<EncodeError>)
      modifies this
      ensures Appended(old(buf), buf, ListHeader(len), r)
    {
      if len == 0 {
        buf := buf + [LIST_EMPTY];
      } else if len < 256 {
        buf := buf + [LIST_8];
        buf := buf + [len as Byte];
      } else if len <= 0xFFFF {
        buf := buf + [LIST_16];
        buf := buf + [(len / 256) as Byte, (len % 256) as Byte];
      } else {
        return Fail(ListTooLarge(len));
      }
      return Pass;
    }

    method WriteByteLength(len: nat) returns (r: Outcome<EncodeError>)
      modifies this
      ensures Appended(old(buf), buf, LengthHeader(len), r)
    {
      if len >= U32_MAX {
        return Fail(StringTooLarge(len));
      }
      if len >= 0x10_0000 {
        buf := buf + [BINARY_32];
        buf := buf + [(len / 0x100_0000) as Byte, (len / 0x1_0000 % 256) as Byte,
                      (len / 256 % 256) as Byte, (len % 256) as Byte];
      } else if len >= 256 {
        buf := buf + [BINARY_20];
        buf := buf + [(len / 0x1_0000 % 16) as Byte, (len / 256 % 256) as Byte, (len % 256) as Byte];
      } else {
        buf := buf + [BINARY_8];
        buf := buf + [len as Byte];
      }
      return Pass;
    }

    method WriteRawString(v: Bytes) returns (r: Outcome<EncodeError>)
      modifies this
      ensures Appended(old(buf), buf, RawString(v), r)
    {
      r := WriteByteLength(|v|);
      if r.Pass? {
        buf := buf + v;
      }
    }

    method WritePacked(kind: PackedKind, v: Bytes) returns (r: Outcome<EncodeError>)
      modifies this
      ensures Appended(old(buf), buf, PackedString(kind, v), r)
    {
      if |v| > PACKED_MAX {
        r := WriteRawString(v);
        return;
      }
      var head := [PackedTag(kind), PackedSize(|v|)];
      buf := buf + head;
      ghost var whole := PackAll(kind, v);
      ghost var packed: Bytes := [];
      var i := 0;
      RemainingStart(whole);
      assert v[0..] == v;
      while i < |v|
        invariant 0 <= i <= |v|
        invariant buf == old(buf) + head + packed
        invariant Remaining(whole, packed, PackAll(kind, v[i..]))
      {
        var second := if i + 1 < |v| then v[i + 1] else 0;
        var b := PackTwo(kind, v[i], second);
        var next := if i + 1 < |v| then i + 2 else i + 1;
        PackTail(kind, v, i);
        RemainingStep(whole, packed, OneByte(b), PackAll(kind, v[next..]));
        if b.Err? {
          return Fail(b.error);
        }
        buf := buf + [b.value];
        Assoc(old(buf) + head, packed, [b.value]);
        packed := packed + [b.value];
        i := next;
      }
      RemainingEnd(whole, packed);
      Assoc(old(buf), head, packed);
      return Pass;
    }

    /** Mirrors the priority chain of the format. */
    method WriteString(T: Table, v: Bytes) returns (r: Outcome<EncodeError>)
      requires Shape(T)
      modifies this
      ensures Appended(old(buf), buf, EncodeString(T, v), r)
      decreases |v|
    {
      if v == [] {
        r := WriteRawString(v);
        return;
      }
      var token := TokenFor(T, v);
      if token.Some? {
        if token.value.dict.Some? {
          buf := buf + [DICTIONARY_0 + token.value.dict.value as Byte];
        }
        buf := buf + [token.value.index as Byte];
        TokenBytes(T, v, old(buf), buf, token.value);
        return Pass;
      }
      if Packable(Nibble, v) {
        PackedForm(T, v, Nibble);
        r := WritePacked(Nibble, v);
        return;
      }
      if Packable(Hex, v) {
        PackedForm(T, v, Hex);
        r := WritePacked(Hex, v);
        return;
      }
      var jid := Parse(v);
      assert FormOf(T, v) == JidForm(jid);
      assert EncodeString(T, v) == EncodeAs(T, JidForm(jid), v);
      if jid.None? {
        assert EncodeAs(T, Raw, v) == RawString(v);
        r := WriteRawString(v);
        return;
      }
      r := WriteJid(T, v, jid.value);
    }

    method WriteJid(T: Table, v: Bytes, jid: FullJid) returns (r: Outcome<EncodeError>)
      requires Shape(T) && |jid.user| < |v|
      modifies this
      ensures Appended(old(buf), buf, EncodeAs(T, JidForm(Some(jid)), v), r)
      decreases |v|, 0
    {
      if jid.device.Some? {
        buf := buf + [AD_JID];
        buf := buf + [DomainCode(jid.domain)];
        buf := buf + [(jid.device.value % 256) as Byte];
        r := WriteString(T, jid.user);
        return;
      }
      buf := buf + [JID_PAIR];
      if jid.user == [] {
        buf := buf + [LIST_EMPTY];
      } else {
        :- WriteString(T, jid.user);
      }
      r := WriteRawString(jid.serverRaw);
    }

    method WriteAttr(T: Table, e: Entry<Bytes>) returns (r: Outcome<EncodeError>)
      requires Shape(T)
      modifies this
      ensures Appended(old(buf), buf, EncodeEntry(T, e), r)
    {
      r := WriteString(T, e.key);
      if r.Pass? {
        r := WriteString(T, e.val);
      }
    }

    method WriteAttrs(T: Table, attrs: Attrs) returns (r: Outcome<EncodeError>)
      requires Shape(T)
      modifies this
      ensures Appended(old(buf), buf, EncodeAttrs(T, attrs), r)
    {
      ghost var whole := EncodeAttrs(T, attrs);
      ghost var done: Bytes := [];
      RemainingStart(whole);
      assert attrs[0..] == attrs;
      for i := 0 to |attrs|
        invariant buf == old(buf) + done
        invariant Remaining(whole, done, EncodeAttrs(T, attrs[i..]))
      {
        AttrsTail(T, attrs, i);
        RemainingStep(whole, done, EncodeEntry(T, attrs[i]), EncodeAttrs(T, attrs[i + 1..]));
        :- WriteAttr(T, attrs[i]);
        Assoc(old(buf), done, EncodeEntry(T, attrs[i]).value);
        done := done + EncodeEntry(T, attrs[i]).value;
      }
      RemainingEnd(whole, done);
      return Pass;
    }

    method EncodeTree(T: Table, n: Node) returns (r: Outcome<EncodeError>)
      requires Shape(T)
      modifies this
      ensures Appended(old(buf), buf, EncodeNode(T, n), r)
      decreases n, 2
    {
      if n.tag == [] {
        return Fail(EmptyTag);
      }
      TreeParts(T, n);
      :- WriteFront(T, n);
      ghost var front := buf;
      r := Pass;
      if n.content.Some? {
        r := WriteContent(T, n.content.value);
      }
      AppendTwo(old(buf), front, buf, FrontSpec(T, n), ContentSpec(T, n), r);
    }

    /** The list header, the tag and the attributes of a node. */
    method WriteFront(T: Table, n: Node) returns (r: Outcome<EncodeError>)
      requires Shape(T)
      modifies this
      ensures Appended(old(buf), buf, FrontSpec(T, n), r)
    {
      r := WriteListStart(1 + |n.attrs| * 2 + (if n.content.Some? then 1 else 0));
      if r.Fail? {
        return;
      }
      ghost var header := buf;
      :- WriteString(T, n.tag);
      ghost var tag := buf;
      AppendTwo(old(buf), header, tag, ListHeader(ListSize(n)), EncodeString(T, n.tag), Pass);
      r := WriteAttrs(T, n.attrs);
      AppendTwo(old(buf), tag, buf, Both(ListHeader(ListSize(n)), EncodeString(T, n.tag)), EncodeAttrs(T, n.attrs), r);
    }

    method WriteContent(T: Table, c: Content) returns (r: Outcome<EncodeError>)
      requires Shape(T)
      modifies this
      ensures Appended(old(buf), buf, EncodeContent(T, c), r)
      decreases c, 1
    {
      match c {
        case Nodes(ns) =>
          :- WriteListStart(|ns|);
          r := WriteNodes(T, ns);
        case TextContent(t) =>
          r := WriteString(T, t);
        case BytesContent(b) =>
          :- WriteByteLength(|b|);
          buf := buf + b;
          r := Pass;
      }
    }

    method WriteNodes(T: Table, ns: seq<Node>) returns (r: Outcome<EncodeError>)
      requires Shape(T)
      modifies this
      ensures Appended(old(buf), buf, EncodeNodes(T, ns), r)
      decreases ns, 0
    {
      ghost var whole := EncodeNodes(T, ns);
      ghost var done: Bytes := [];
      RemainingStart(whole);
      assert ns[0..] == ns;
      for i := 0 to |ns|
        invariant buf == old(buf) + done
        invariant Remaining(whole, done, EncodeNodes(T, ns[i..]))
      {
        NodesTail(T, ns, i);
        RemainingStep(whole, done, EncodeNode(T, ns[i]), EncodeNodes(T, ns[i + 1..]));
        :- EncodeTree(T, ns[i]);
        Assoc(old(buf), done, EncodeNode(T, ns[i]).value);
        done := done + EncodeNode(T, ns[i]).value;
      }
      RemainingEnd(whole, done);
      return Pass;
    }
  }

  function OneByte(b: Result<Byte, EncodeError>): Encoded {
    if b.Ok? then Ok([b.value]) else Err(b.error)
  }

  lemma PackTail(kind: PackedKind, v: Bytes, i: nat)
    requires i < |v|
    ensures var b := PackTwo(kind, v[i], if i + 1 < |v| then v[i + 1] else 0);
            PackAll(kind, v[i..]) == Both(OneByte(b), PackAll(kind, v[if i + 1 < |v| then i + 2 else i + 1..]))
  {
    if i + 1 < |v| {
      assert v[i..][2..] == v[i + 2..];
    } else {
      assert v[i + 1..] == [];
    }
  }

  function FrontSpec(T: Table, n: Node): Encoded
    requires Shape(T)
  {
    Both(Both(ListHeader(ListSize(n)), EncodeString(T, n.tag)), EncodeAttrs(T, n.attrs))
  }

  function ContentSpec(T: Table, n: Node): Encoded
    requires Shape(T)
  {
    if n.content.Some? then EncodeContent(T, n.content.value) else Ok([])
  }

  lemma TreeParts(T: Table, n: Node)
    requires Shape(T) && n.tag != []
    ensures EncodeNode(T, n) == Both(FrontSpec(T, n), ContentSpec(T, n))
  {
  }

  lemma AttrsTail(T: Table, a: Attrs, i: nat)
    requires Shape(T) && i < |a|
    ensures EncodeAttrs(T, a[i..]) == Both(EncodeEntry(T, a[i]), EncodeAttrs(T, a[i + 1..]))
  {
    assert a[i..][1..] == a[i + 1..];
  }

  lemma NodesTail(T: Table, ns: seq<Node>, i: nat)
    requires Shape(T) && i < |ns|
    ensures EncodeNodes(T, ns[i..]) == Both(EncodeNode(T, ns[i]), EncodeNodes(T, ns[i + 1..]))
  {
    assert ns[i..][1..] == ns[i + 1..];
  }

  /** `encode_binary_node` */
  method EncodeBinaryNode(T: Table, n: Node) returns (r: Encoded)
    requires Shape(T)
    ensures r == EncodeFrame(T, n)
  {
    var out := new Writer();
    out.buf := out.buf + [0];
    assert out.buf == [0];
    var done := out.EncodeTree(T, n);
    if done.Fail? {
      return Err(done.error);
    }
    return Ok(out.buf);
  }

  // ----- Reading -------------------------------------------------------------

  /** The method result `r`, with `rest` still unread, is what the format specifies. */
  ghost predicate Follows<V>(spec: Decoded<V>, r: Result<V, DecodeError>, rest: Bytes) {
    if spec.Ok? then r == Ok(spec.value.value) && rest == spec.value.rest else r == Err(spec.error)
  }

  class Cursor {
    const bytes: Bytes
    var index: nat

    /** The cursor never leaves its bytes. */
    ghost predicate Valid()
      reads this
    {
      index <= |bytes|
    }

    ghost function Rest(): Bytes
      reads this
      requires Valid()
    {
      bytes[index..]
    }

    constructor (bytes: Bytes)
      ensures Valid() && this.bytes == bytes && Rest() == bytes
    {
      this.bytes := bytes;
      index := 0;
    }

    method ReadU8() returns (r: Result<Byte, DecodeError>)
      requires Valid()
      modifies this
      ensures Valid() && old(index) <= index
      ensures Follows(NodeFormat.ReadU8(old(Rest())), r, Rest())
    {
      if index >= |bytes| {
        return Err(EndOfStream);
      }
      r := Ok(bytes[index]);
      index := index + 1;
    }

    method ReadBytes(len: nat) returns (r: Result<Bytes, DecodeError>)
      requires Valid()
      modifies this
      ensures Valid() && old(index) <= index
      ensures Follows(NodeFormat.ReadBytes(old(Rest()), len), r, Rest())
    {
      var end := index + len;
      if end > |bytes| {
        return Err(EndOfStream);
      }
      assert Rest()[..len] == bytes[index..end] && Rest()[len..] == bytes[end..];
      r := Ok(bytes[index..end]);
      index := end;
    }

    method ReadInt(len: nat) returns (r: Result<nat, DecodeError>)
      requires Valid()
      modifies this
      ensures Valid() && old(index) <= index
      ensures Follows(NodeFormat.ReadInt(old(Rest()), len, 0), r, Rest())
    {
      var value: nat := 0;
      for k := 0 to len
        invariant Valid() && old(index) <= index
        invariant NodeFormat.ReadInt(old(Rest()), len, 0) == NodeFormat.ReadInt(Rest(), len - k, value)
      {
        var b :- ReadU8();
        value := value * 256 + b as nat;
      }
      return Ok(value);
    }

    method ReadInt20() returns (r: Result<nat, DecodeError>)
      requires Valid()
      modifies this
      ensures Valid() && old(index) <= index
      ensures Follows(NodeFormat.ReadInt20(old(Rest())), r, Rest())
    {
      var b1 :- ReadU8();
      var b2 :- ReadU8();
      var b3 :- ReadU8();
      return Ok(b1 as nat % 16 * 0x1_0000 + b2 as nat * 256 + b3 as nat);
    }

    method ReadListSize(tag: Byte) returns (r: Result<nat, DecodeError>)
      requires Valid()
      modifies this
      ensures Valid() && old(index) <= index
      ensures Follows(NodeFormat.ReadListSize(tag, old(Rest())), r, Rest())
    {
      if tag == LIST_EMPTY {
        return Ok(0);
      } else if tag == LIST_8 {
        var b :- ReadU8();
        return Ok(b as nat);
      } else if tag == LIST_16 {
        r := ReadInt(2);
      } else {
        return Err(InvalidListTag(tag));
      }
    }

    method ReadBinary(tag: Byte) returns (r: Result<Bytes, DecodeError>)
      requires Valid()
      modifies this
      ensures Valid() && old(index) <= index
      ensures Follows(NodeFormat.ReadBinary(tag, old(Rest())), r, Rest())
    {
      var len: nat;
      if tag == BINARY_8 {
        var b :- ReadU8();
        len := b as nat;
      } else if tag == BINARY_20 {
        len :- ReadInt20();
      } else if tag == BINARY_32 {
        len :- ReadInt(4);
      } else {
        return Err(InvalidStringTag(tag));
      }
      r := ReadBytes(len);
    }

    method ReadPacked(tag: Byte) returns (r: Result<Bytes, DecodeError>)
      requires Valid()
      modifies this
      ensures Valid() && old(index) <= index
      ensures Follows(NodeFormat.ReadPacked(tag, old(Rest())), r, Rest())
    {
      var start :- ReadU8();
      var chars :- ReadPairs(tag, start as nat % 128);
      if start >= 128 && chars != [] {
        chars := chars[..|chars| - 1];
      }
      return Ok(chars);
    }

    method ReadPairs(tag: Byte, count: nat) returns (r: Result<Bytes, DecodeError>)
      requires Valid()
      modifies this
      ensures Valid() && old(index) <= index
      ensures Follows(UnpackAll(tag, count, old(Rest())), r, Rest())
    {
      ghost var whole := UnpackAll(tag, count, Rest());
      var out: Bytes := [];
      PrependNothing(whole);
      for k := 0 to count
        invariant Valid() && old(index) <= index
        invariant whole == Prepend(out, UnpackAll(tag, count - k, Rest()))
      {
        ghost var before := Rest();
        var b :- ReadU8();
        var hi :- Unpack(tag, b / 16);
        var lo :- Unpack(tag, b % 16);
        PrependTwo(out, hi, lo, UnpackAll(tag, count - k - 1, Rest()));
        out := out + [hi];
        out := out + [lo];
      }
      assert out + [] == out;
      return Ok(out);
    }

    method ReadString(T: Table, tag: Byte) returns (r: Result<Bytes, DecodeError>)
      requires Valid() && Shape(T)
      modifies this
      ensures Valid() && old(index) <= index
      ensures Follows(DecodeString(T, tag, old(Rest())), r, Rest())
      decreases |bytes| - index, 1
    {
      if tag >= 1 && tag as nat < |T.single| {
        return Ok(T.single[tag as nat]);
      }
      if DICTIONARY_0 <= tag <= DICTIONARY_3 {
        var i :- ReadU8();
        return Ok(T.double[(tag - DICTIONARY_0) as nat][i as nat]);
      } else if tag == LIST_EMPTY {
        return Ok([]);
      } else if IsBinaryTag(tag) {
        var text :- ReadBinary(tag);
        if !Utf8(text) {
          return Err(InvalidUtf8);
        }
        return Ok(text);
      } else if tag == JID_PAIR {
        r := ReadJidPair(T);
      } else if tag == AD_JID {
        r := ReadAdJid(T);
      } else if tag == HEX_8 || tag == NIBBLE_8 {
        r := ReadPacked(tag);
      } else {
        return Err(InvalidStringTag(tag));
      }
    }

    /** A tag byte, then the string it announces */
    method ReadTagged(T: Table) returns (r: Result<Bytes, DecodeError>)
      requires Valid() && Shape(T)
      modifies this
      ensures Valid() && old(index) <= index && (r.Ok? ==> old(index) < index)
      ensures Follows(NodeFormat.ReadString(T, old(Rest())), r, Rest())
      decreases |bytes| - index, 0, 0
    {
      var tag :- ReadU8();
      r := ReadString(T, tag);
    }

    method ReadJidPair(T: Table) returns (r: Result<Bytes, DecodeError>)
      requires Valid() && Shape(T)
      modifies this
      ensures Valid() && old(index) <= index
      ensures Follows(DecodeString(T, JID_PAIR, old(Rest())), r, Rest())
      decreases |bytes| - index, 0, 1
    {
      var user :- ReadTagged(T);
      var server :- ReadTagged(T);
      if server == [] {
        return Err(InvalidJidPair);
      }
      return Ok(user + [AT] + server);
    }

    method ReadAdJid(T: Table) returns (r: Result<Bytes, DecodeError>)
      requires Valid() && Shape(T)
      modifies this
      ensures Valid() && old(index) <= index
      ensures Follows(DecodeString(T, AD_JID, old(Rest())), r, Rest())
      decreases |bytes| - index, 0, 1
    {
      var domain :- ReadU8();
      var device :- ReadU8();
      var user :- ReadTagged(T);
      var server := DomainServer(DomainFromCode(domain), SWhatsAppNet);
      return Ok(Print(user, server, Some(device as nat), None));
    }

    method ReadAttributes(T: Table, count: nat) returns (r: Result<Attrs, DecodeError>)
      requires Valid() && Shape(T)
      modifies this
      ensures Valid() && old(index) <= index
      ensures Follows(ReadAttrs(T, count, old(Rest()), []), r, Rest())
    {
      var attrs: Attrs := [];
      for k := 0 to count
        invariant Valid() && old(index) <= index
        invariant ReadAttrs(T, count, old(Rest()), []) == ReadAttrs(T, count - k, Rest(), attrs)
      {
        var key :- ReadTagged(T);
        var value :- ReadTagged(T);
        attrs := Insert(attrs, key, value);
      }
      return Ok(attrs);
    }

    method DecodeTree(T: Table) returns (r: Result<Node, DecodeError>)
      requires Valid() && Shape(T)
      modifies this
      ensures Valid() && old(index) <= index && (r.Ok? ==> old(index) < index)
      ensures Follows(DecodeNode(T, old(Rest())), r, Rest())
      decreases |bytes| - index, 1
    {
      var listTag :- ReadU8();
      var size :- ReadListSize(listTag);
      var tag :- ReadTagged(T);
      if size == 0 || tag == [] {
        return Err(InvalidNode);
      }
      var attrs :- ReadAttributes(T, (size - 1) / 2);
      if size % 2 == 0 {
        var content :- ReadContents(T);
        return Ok(Node(tag, attrs, Some(content)));
      }
      return Ok(Node(tag, attrs, None));
    }

    method ReadContents(T: Table) returns (r: Result<Content, DecodeError>)
      requires Valid() && Shape(T)
      modifies this
      ensures Valid() && old(index) <= index
      ensures Follows(ReadContent(T, old(Rest())), r, Rest())
      decreases |bytes| - index, 0
    {
      var tag :- ReadU8();
      if IsListTag(tag) {
        var count :- ReadListSize(tag);
        var children :- ReadChildren(T, count);
        return Ok(Nodes(children));
      } else if IsBinaryTag(tag) {
        var data :- ReadBinary(tag);
        return Ok(BytesContent(data));
      } else {
        var text :- ReadString(T, tag);
        return Ok(TextContent(text));
      }
    }

    method ReadChildren(T: Table, count: nat) returns (r: Result<seq<Node>, DecodeError>)
      requires Valid() && Shape(T)
      modifies this
      ensures Valid() && old(index) <= index
      ensures Follows(ReadNodes(T, count, old(Rest())), r, Rest())
      decreases |bytes| - index, 2
    {
      ghost var whole := ReadNodes(T, count, Rest());
      ghost var left: nat := count;
      var children: seq<Node> := [];
      PrependNothing(whole);
      for k := 0 to count
        invariant Valid() && old(index) <= index && left == count - k
        invariant whole == Prepend(children, ReadNodes(T, left, Rest()))
      {
        ghost var fewer: nat := left - 1;
        ChildrenStep(T, left, fewer, Rest(), children);
        var child :- DecodeTree(T);
        children := children + [child];
        left := fewer;
      }
      assert children + [] == children;
      return Ok(children);
    }
  }

  /** Items read so far in front of what is still to be read. */
  function Prepend<V>(done: seq<V>, more: Decoded<seq<V>>): Decoded<seq<V>> {
    if more.Ok? then Ok(Parsed(done + more.value.value, more.value.rest)) else more
  }

  /** Reading the next child of several. */
  lemma ChildrenStep(T: Table, m: nat, n: nat, s: Bytes, done: seq<Node>)
    requires Shape(T) && m == n + 1
    ensures Prepend(done, ReadNodes(T, m, s))
         == (if DecodeNode(T, s).Err? then Err(DecodeNode(T, s).error)
             else Prepend(done + [DecodeNode(T, s).value.value], ReadNodes(T, n, DecodeNode(T, s).value.rest)))
  {
    if DecodeNode(T, s).Ok? {
      PrependOne(done, DecodeNode(T, s).value.value, ReadNodes(T, n, DecodeNode(T, s).value.rest));
    }
  }

  lemma PrependNothing<V>(more: Decoded<seq<V>>)
    ensures Prepend([], more) == more
  {
    if more.Ok? {
      assert [] + more.value.value == more.value.value;
    }
  }

  lemma PrependOne<V>(done: seq<V>, v: V, more: Decoded<seq<V>>)
    ensures Prepend(done, Prepend([v], more)) == Prepend(done + [v], more)
  {
    if more.Ok? {
      Assoc(done, [v], more.value.value);
    }
  }

  lemma PrependTwo<V>(done: seq<V>, v: V, w: V, more: Decoded<seq<V>>)
    ensures Prepend(done, Prepend([v, w], more)) == Prepend(done + [v] + [w], more)
  {
    if more.Ok? {
      assert done + ([v, w] + more.value.value) == done + [v] + [w] + more.value.value;
    }
  }

  /** `decode_binary_node` */
  method DecodeBinaryNode(T: Table, inflate: Bytes -> Option<Bytes>, input: Bytes) returns (r: Result<Node, DecodeError>)
    requires Shape(T)
    ensures r == DecodeFrame(T, inflate, input)
  {
    if input == [] {
      return Err(EndOfStream);
    }
    var body := input[1..];
    if input[0] / 2 % 2 == 1 {
      var inflated := inflate(body);
      if inflated.None? {
        return Err(Decompression);
      }
      body := inflated.value;
    }
    var cursor := new Cursor(body);
    r := cursor.DecodeTree(T);
  }
}
