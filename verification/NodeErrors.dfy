/** Which errors the node writer and reader report, and of what (crates/wa-binary/src/codec.rs). */
module NodeErrors {
  import opened Prelude
  import opened Text
  import opened Tokens
  import opened NodeFormat
  import opened NodeRoundTrip
  import opened NodeTheorems
  import opened NodeWire

  // ----- Writing -----------------------------------------------------------------

  /** The two sizes that no header can say. */
  predicate TooLarge(e: EncodeError) {
    (e.StringTooLarge? && e.size >= 0xFFFF_FFFF) || (e.ListTooLarge? && e.size >= 0x1_0000)
  }

  /** The error of a writing that failed is one of these, or an empty tag. */
  predicate Explained(r: Encoded) {
    r.Err? ==> r.error.EmptyTag? || TooLarge(r.error)
  }

  /** Of a string it is its size. */
  predicate StringExplained(r: Encoded) {
    r.Err? ==> r.error.StringTooLarge? && r.error.size >= 0xFFFF_FFFF
  }

  lemma RawExplained(v: Bytes)
    ensures StringExplained(RawString(v))
  {
  }

  lemma PackedNeverFails(kind: PackedKind, v: Bytes)
    requires Packable(kind, v)
    ensures PackedString(kind, v).Ok?
  {
    PackedRead(kind, v, []);
  }

  /** Packing never fails: what is packed has been looked at before. */
  lemma {:induction false} StringErrors(T: Table, v: Bytes)
    requires Shape(T)
    ensures StringExplained(EncodeString(T, v))
    decreases |v|
  {
    var f := FormOf(T, v);
    match f {
      case Raw => RawExplained(v);
      case Packed(kind) =>
        FormOfPacked(T, v);
        PackedNeverFails(kind, v);
      case AdJid(_, _, user) => StringErrors(T, user);
      case JidPair(user, server) =>
        StringErrors(T, user);
        RawExplained(server);
      case SingleToken(_) =>
      case DoubleToken(_, _) =>
    }
  }

  lemma {:induction false} AttrsErrors(T: Table, a: Attrs)
    requires Shape(T)
    ensures StringExplained(EncodeAttrs(T, a))
    decreases |a|
  {
    if a != [] {
      StringErrors(T, a[0].key);
      StringErrors(T, a[0].val);
      AttrsErrors(T, a[1..]);
    }
  }

  lemma {:induction false} ContentErrors(T: Table, c: Content)
    requires Shape(T)
    ensures Explained(EncodeContent(T, c))
    decreases c, 0
  {
    match c {
      case Nodes(ns) => NodesErrors(T, ns);
      case TextContent(t) => StringErrors(T, t);
      case BytesContent(b) => RawExplained(b);
    }
  }

  lemma {:induction false} NodesErrors(T: Table, ns: seq<Node>)
    requires Shape(T)
    ensures Explained(EncodeNodes(T, ns))
    decreases ns, 0
  {
    if ns != [] {
      TreeErrors(T, ns[0]);
      NodesErrors(T, ns[1..]);
    }
  }

  /**
   A tree that cannot be written has an empty tag somewhere, or a list or a string of a
   size that no header can say, and the error tells that size. A root without a tag is
   reported as that, whatever else is wrong.
   */
  lemma {:induction false} TreeErrors(T: Table, n: Node)
    requires Shape(T)
    ensures Explained(EncodeNode(T, n))
    ensures n.tag == [] ==> EncodeNode(T, n) == Err(EmptyTag)
    ensures n.tag != [] && ListSize(n) >= 0x1_0000 ==> EncodeNode(T, n) == Err(ListTooLarge(ListSize(n)))
    decreases n, 1
  {
    if n.tag != [] {
      StringErrors(T, n.tag);
      AttrsErrors(T, n.attrs);
      if n.content.Some? {
        ContentErrors(T, n.content.value);
      }
    }
  }

  // ----- Reading -----------------------------------------------------------------

  /** A string without a first byte, or with one that begins no string, or that ends too early. */
  lemma StringRefused(T: Table, s: Bytes)
    requires Shape(T)
    ensures s == [] ==> ReadString(T, s) == Err(EndOfStream)
    ensures s != [] && (240 <= s[0] <= 246 || s[0] == 248 || s[0] == 249) ==> ReadString(T, s) == Err(InvalidStringTag(s[0]))
    ensures |s| == 1 && s[0] >= 236 && s[0] !in [240, 241, 242, 243, 244, 245, 246, 248, 249] ==>
              ReadString(T, s) == Err(EndOfStream)
  {
  }

  /** Bytes that are announced but not there end the stream, and bytes that are no text are refused as that. */
  lemma RawRefused(T: Table, s: Bytes)
    requires Shape(T) && |s| >= 2 && s[0] == 252
    ensures |s| - 2 < s[1] as nat ==> ReadString(T, s) == Err(EndOfStream)
    ensures |s| - 2 >= s[1] as nat && !Utf8(s[2..2 + s[1] as nat]) ==> ReadString(T, s) == Err(InvalidUtf8)
  {
    assert s[1..][1..] == s[2..];
    if |s| - 2 >= s[1] as nat {
      assert s[2..][..s[1] as nat] == s[2..2 + s[1] as nat];
    }
  }

  /** Four bits that stand for no character. */
  lemma PackedRefused(T: Table, s: Bytes)
    requires Shape(T) && |s| >= 3 && s[0] == 255 && s[1] as nat % 128 > 0
    requires 12 <= s[2] / 16 <= 14
    ensures ReadString(T, s) == Err(InvalidPackedByte)
  {
    assert s[1..][1..] == s[2..];
  }

  lemma PairWithout(T: Table, u: Bytes, user: Bytes, e: Bytes, rest: Bytes)
    requires Shape(T) && ReadString(T, u + (e + rest)) == Ok(Parsed(user, e + rest)) && ReadString(T, e + rest) == Ok(Parsed([], rest))
    ensures ReadString(T, [250] + (u + e) + rest) == Err(InvalidJidPair)
  {
    JidPairRead(T, u, user, e, [], rest);
    ReadStringOf(T, [250] + (u + e), rest);
    assert ([250] + (u + e))[1..] == u + e;
  }

  /** An address without a server. */
  lemma PairRefused(T: Table, u: Bytes, user: Bytes, e: Bytes, rest: Bytes)
    requires Shape(T) && Spells(T, u, user) && Spells(T, e, [])
    ensures ReadString(T, [250] + (u + e) + rest) == Err(InvalidJidPair)
  {
    SpelledReads(T, u, user, e + rest);
    SpelledReads(T, e, [], rest);
    PairWithout(T, u, user, e, rest);
  }

  /** What does not begin with a list is no node, and neither is an empty list or one without a tag. */
  lemma NodeRefused(T: Table, s: Bytes)
    requires Shape(T)
    ensures s == [] ==> DecodeNode(T, s) == Err(EndOfStream)
    ensures s != [] && s[0] != 0 && s[0] != 248 && s[0] != 249 ==> DecodeNode(T, s) == Err(InvalidListTag(s[0]))
  {
  }

  lemma UntaggedRefused(T: Table, head: Bytes, size: nat, t: Bytes, tag: Bytes, rest: Bytes)
    requires Shape(T) && Spells(T, t, tag) && (tag == [] || size == 0)
    requires head != [] && ReadListSize(head[0], head[1..] + (t + rest)) == Ok(Parsed(size, t + rest))
    ensures DecodeNode(T, head + (t + rest)) == Err(InvalidNode)
  {
    SpelledReads(T, t, tag, rest);
    HeadTail(head, t + rest);
  }

  /** A frame without flags, and one that cannot be inflated. */
  lemma FrameRefused(T: Table, inflate: Bytes -> Option<Bytes>, frame: Bytes)
    requires Shape(T)
    ensures frame == [] ==> DecodeFrame(T, inflate, frame) == Err(EndOfStream)
    ensures frame != [] && frame[0] % 4 >= 2 && inflate(frame[1..]).None? ==> DecodeFrame(T, inflate, frame) == Err(Decompression)
  {
    if frame != [] {
      assert frame[0] / 2 % 2 == 1 <==> frame[0] % 4 >= 2;
    }
  }
}
