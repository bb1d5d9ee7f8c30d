/**
 What the reader guarantees for any bytes at all: it only produces well-formed
 trees, it pays at least three bytes for every node, and what a response waiter
 is handed after the node is dispatched again.
 */
module NodeDecoding {
  import opened Prelude
  import opened Text
  import opened SortedMap
  import opened Tokens
  import opened Jid
  import opened NodeFormat
  import opened NodeRoundTrip
  import opened NodeTheorems
  import opened NodeCanonical
  import opened NodeReencode

  // ----- Only well-formed trees ----------------------------------------------

  lemma {:induction false} UnpackAscii(tag: Byte, count: nat, s: Bytes)
    ensures UnpackAll(tag, count, s).Ok? ==> IsAscii(UnpackAll(tag, count, s).value.value)
    decreases count
  {
    if count > 0 && s != [] {
      UnpackAscii(tag, count - 1, s[1..]);
    }
  }

  lemma ReadPackedUtf8(tag: Byte, s: Bytes)
    ensures ReadPacked(tag, s).Ok? ==> Utf8(ReadPacked(tag, s).value.value)
  {
    if ReadPacked(tag, s).Ok? {
      UnpackAscii(tag, s[0] as nat % 128, s[1..]);
      AsciiIsUtf8(ReadPacked(tag, s).value.value);
    }
  }

  lemma TableUtf8(T: Table, i: nat, d: nat, j: nat)
    requires Shape(T)
    ensures i < SINGLE_COUNT ==> Utf8(T.single[i])
    ensures d < DICTIONARY_COUNT && j < DICTIONARY_SIZE ==> Utf8(T.double[d][j])
  {
    if i < SINGLE_COUNT {
      assert TextToken(T.single[i]);
    }
    if d < DICTIONARY_COUNT && j < DICTIONARY_SIZE {
      assert TextToken(T.double[d][j]);
    }
  }

  lemma {:induction false} DecodeStringUtf8(T: Table, tag: Byte, s: Bytes)
    requires Shape(T)
    ensures DecodeString(T, tag, s).Ok? ==> Utf8(DecodeString(T, tag, s).value.value)
    decreases |s|, 2
  {
    if tag as nat < SINGLE_COUNT {
      TableUtf8(T, tag as nat, 0, 0);
    } else if tag <= DICTIONARY_3 {
      if s != [] {
        TableUtf8(T, 0, (tag - DICTIONARY_0) as nat, s[0] as nat);
      }
    } else if tag == JID_PAIR {
      JidPairUtf8(T, s);
    } else if tag == AD_JID {
      AdJidUtf8(T, s);
    } else if tag == HEX_8 || tag == NIBBLE_8 {
      ReadPackedUtf8(tag, s);
    }
  }

  lemma {:induction false} JidPairUtf8(T: Table, s: Bytes)
    requires Shape(T)
    ensures DecodeString(T, JID_PAIR, s).Ok? ==> Utf8(DecodeString(T, JID_PAIR, s).value.value)
    decreases |s|, 1
  {
    ReadStringUtf8(T, s);
    if ReadString(T, s).Ok? {
      var user := ReadString(T, s).value;
      ReadStringUtf8(T, user.rest);
      if ReadString(T, user.rest).Ok? {
        PairUtf8(user.value, ReadString(T, user.rest).value.value);
      }
    }
  }

  lemma {:induction false} AdJidUtf8(T: Table, s: Bytes)
    requires Shape(T)
    ensures DecodeString(T, AD_JID, s).Ok? ==> Utf8(DecodeString(T, AD_JID, s).value.value)
    decreases |s|, 1
  {
    if |s| >= 2 {
      var u := s[1..][1..];
      ReadStringUtf8(T, u);
      if ReadString(T, u).Ok? {
        PrintUtf8(ReadString(T, u).value.value, DomainServer(DomainFromCode(s[0]), SWhatsAppNet), s[1] as nat);
      }
    }
  }

  lemma {:induction false} ReadStringUtf8(T: Table, s: Bytes)
    requires Shape(T)
    ensures ReadString(T, s).Ok? ==> Utf8(ReadString(T, s).value.value)
    decreases |s|, 0
  {
    if s != [] {
      DecodeStringUtf8(T, s[0], s[1..]);
    }
  }

  lemma {:induction false} InsertText(m: Attrs, k: Bytes, v: Bytes)
    requires WellFormedAttrs(m) && Utf8(k) && Utf8(v)
    ensures WellFormedAttrs(Insert(m, k, v))
    decreases |m|
  {
    InsertSorted(m, k, v);
    if m != [] && !Less(k, m[0].key) && k != m[0].key {
      InsertText(m[1..], k, v);
    }
  }

  lemma {:induction false} ReadAttrsWellFormed(T: Table, count: nat, s: Bytes, acc: Attrs)
    requires Shape(T) && WellFormedAttrs(acc)
    ensures ReadAttrs(T, count, s, acc).Ok? ==> WellFormedAttrs(ReadAttrs(T, count, s, acc).value.value)
    decreases count
  {
    if count > 0 && ReadString(T, s).Ok? {
      var k := ReadString(T, s).value;
      ReadStringUtf8(T, s);
      if ReadString(T, k.rest).Ok? {
        var v := ReadString(T, k.rest).value;
        ReadStringUtf8(T, k.rest);
        InsertText(acc, k.value, v.value);
        ReadAttrsWellFormed(T, count - 1, v.rest, Insert(acc, k.value, v.value));
      }
    }
  }

  predicate WellFormedContent(c: Content) {
    match c
    case Nodes(ns) => forall i :: 0 <= i < |ns| ==> WellFormed(ns[i])
    case TextContent(t) => Utf8(t)
    case BytesContent(_) => true
  }

  lemma {:induction false} ReadContentWellFormed(T: Table, s: Bytes)
    requires Shape(T)
    ensures ReadContent(T, s).Ok? ==> WellFormedContent(ReadContent(T, s).value.value)
    decreases |s|, 0
  {
    if s != [] {
      if IsListTag(s[0]) {
        if ReadListSize(s[0], s[1..]).Ok? {
          var count := ReadListSize(s[0], s[1..]).value;
          ReadNodesWellFormed(T, count.value, count.rest);
        }
      } else if !IsBinaryTag(s[0]) {
        DecodeStringUtf8(T, s[0], s[1..]);
      }
    }
  }

  lemma {:induction false} ReadNodesWellFormed(T: Table, count: nat, s: Bytes)
    requires Shape(T)
    ensures ReadNodes(T, count, s).Ok? ==> WellFormedContent(Nodes(ReadNodes(T, count, s).value.value))
    decreases |s|, 2, count
  {
    if count > 0 {
      DecodedWellFormed(T, s);
      if DecodeNode(T, s).Ok? {
        ReadNodesWellFormed(T, count - 1, DecodeNode(T, s).value.rest);
      }
    }
  }

  /** Whatever the reader accepts is a well-formed tree: UTF-8 strings, keys in order. */
  lemma {:induction false} DecodedWellFormed(T: Table, s: Bytes)
    requires Shape(T)
    ensures DecodeNode(T, s).Ok? ==> WellFormed(DecodeNode(T, s).value.value)
    decreases |s|, 1
  {
    if DecodeNode(T, s).Ok? {
      var size := ReadListSize(s[0], s[1..]).value;
      var tag := ReadString(T, size.rest).value;
      ReadStringUtf8(T, size.rest);
      var count := (size.value - 1) / 2;
      ReadAttrsWellFormed(T, count, tag.rest, []);
      var attrs := ReadAttrs(T, count, tag.rest, []).value;
      if size.value % 2 == 0 {
        ReadContentWellFormed(T, attrs.rest);
      }
    }
  }

  // ----- Bytes paid for ------------------------------------------------------

  function CountNodes(ns: seq<Node>): nat
    decreases ns, 0
  {
    if ns == [] then 0 else Count(ns[0]) + CountNodes(ns[1..])
  }

  /** Number of nodes in a tree. */
  function Count(n: Node): nat
    decreases n, 1
  {
    1 + (if n.content.Some? && n.content.value.Nodes? then CountNodes(n.content.value.nodes) else 0)
  }

  lemma {:induction false} NodesCost(T: Table, count: nat, s: Bytes)
    requires Shape(T)
    ensures ReadNodes(T, count, s).Ok? ==>
              |s| - |ReadNodes(T, count, s).value.rest| >= 3 * CountNodes(ReadNodes(T, count, s).value.value)
    decreases |s|, 2, count
  {
    if count > 0 && DecodeNode(T, s).Ok? {
      var first := DecodeNode(T, s).value;
      NodeCost(T, s);
      NodesCost(T, count - 1, first.rest);
      if ReadNodes(T, count - 1, first.rest).Ok? {
        var more := ReadNodes(T, count - 1, first.rest).value;
        assert ([first.value] + more.value)[1..] == more.value;
      }
    }
  }

  /** A tree of N nodes was read from at least 3N bytes. */
  lemma {:induction false} NodeCost(T: Table, s: Bytes)
    requires Shape(T)
    ensures DecodeNode(T, s).Ok? ==> |s| - |DecodeNode(T, s).value.rest| >= 3 * Count(DecodeNode(T, s).value.value)
    decreases |s|, 1
  {
    if DecodeNode(T, s).Ok? {
      var size := ReadListSize(s[0], s[1..]).value;
      var tag := ReadString(T, size.rest).value;
      var attrs := ReadAttrs(T, (size.value - 1) / 2, tag.rest, []).value;
      if size.value % 2 == 0 && IsListTag(attrs.rest[0]) {
        var count := ReadListSize(attrs.rest[0], attrs.rest[1..]).value;
        NodesCost(T, count.value, count.rest);
      }
    }
  }

  // ----- Dispatching a decoded node ------------------------------------------

  /**
   A decoded node handed to a waiter is written again and read again by the
   waiter: the waiter gets the norm of the node, or an error when one of its
   strings is a JID without a server.
   */
  lemma DispatchedNode(T: Table, inflate: Bytes -> Option<Bytes>, s: Bytes, n: Node)
    requires Shape(T) && DecodeFrame(T, inflate, s) == Ok(n) && EncodeFrame(T, n).Ok?
    ensures DecodeFrame(T, inflate, EncodeFrame(T, n).value)
         == if Readable(T, n) then Ok(Norm(T, n)) else Err(InvalidJidPair)
  {
    DecodedFrameWellFormed(T, inflate, s);
    FrameRoundTrip(T, inflate, n, []);
    assert EncodeFrame(T, n).value + [] == EncodeFrame(T, n).value;
  }

  lemma DecodedFrameWellFormed(T: Table, inflate: Bytes -> Option<Bytes>, s: Bytes)
    requires Shape(T) && DecodeFrame(T, inflate, s).Ok?
    ensures WellFormed(DecodeFrame(T, inflate, s).value)
  {
    if s[0] / 2 % 2 == 1 {
      DecodedWellFormed(T, inflate(s[1..]).value);
    } else {
      DecodedWellFormed(T, s[1..]);
    }
  }

  /** Raw "x@" is read. */
  lemma RawArrives(T: Table, v: Bytes)
    requires Shape(T) && v == [0x78, AT]
    ensures ReadString(T, [BINARY_8, 2] + v) == Ok(Parsed(v, []))
  {
    AsciiIsUtf8(v);
    assert RawString(v) == Ok([BINARY_8, 2] + v);
    RawStringRead(T, v, []);
    ReadStringOf(T, [BINARY_8, 2] + v, []);
    assert [BINARY_8, 2] + v + [] == [BINARY_8, 2] + v;
  }

  lemma PairWithoutServer(T: Table, v: Bytes)
    requires Shape(T) && v == [0x78, AT]
    ensures FormOf(T, v) == JidPair([0x78], []) && !ReadableString(T, v)
  {
    PairForm(T, [0x78], []);
    assert [0x78] + [AT] + [] == v;
  }

  lemma PairUnreadable(T: Table, v: Bytes)
    requires Shape(T) && Utf8(v) && FormOf(T, v) == JidPair([0x78], [])
    ensures EncodeString(T, v).Ok? && ReadString(T, EncodeString(T, v).value) == Err(InvalidJidPair)
  {
    PlainEncodes(T, 0x78);
    StringRead(T, v, []);
    assert EncodeString(T, v).value + [] == EncodeString(T, v).value;
  }

  lemma WrittenUnreadable(T: Table, v: Bytes)
    requires Shape(T) && v == [0x78, AT]
    ensures EncodeString(T, v).Ok? && ReadString(T, EncodeString(T, v).value) == Err(InvalidJidPair)
  {
    PairWithoutServer(T, v);
    AsciiIsUtf8(v);
    PairUnreadable(T, v);
  }

  /** Such a string does arrive: raw "x@" is read, but cannot be read once it is written again. */
  lemma UnreadableArrives(T: Table, v: Bytes)
    requires Shape(T) && v == [0x78, AT]
    ensures ReadString(T, [BINARY_8, 2] + v) == Ok(Parsed(v, []))
    ensures EncodeString(T, v).Ok? && ReadString(T, EncodeString(T, v).value) == Err(InvalidJidPair)
  {
    RawArrives(T, v);
    WrittenUnreadable(T, v);
  }

  lemma PlainEncodes(T: Table, c: Byte)
    requires Shape(T) && c != AT
    ensures EncodeString(T, [c]).Ok?
  {
    var f := FormOf(T, [c]);
    if f.Packed? {
      FormOfPacked(T, [c]);
      PackedRead(f.kind, [c], []);
    }
  }
}
