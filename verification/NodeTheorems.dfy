/**
 Round trips of whole node trees: reading what was written gives `Norm` exactly
 when the tree is `Readable`; `Norm` is idempotent and is the identity exactly on
 canonical trees.
 */
module NodeTheorems {
  import opened Prelude
  import opened Text
  import opened SortedMap
  import opened Tokens
  import opened NodeFormat
  import opened NodeRoundTrip

  // ----- What comes back -----------------------------------------------------

  predicate ReadableAttrs(T: Table, a: Attrs)
    requires Shape(T)
    decreases |a|
  {
    a == [] || (ReadableString(T, a[0].key) && ReadableString(T, a[0].val) && ReadableAttrs(T, a[1..]))
  }

  predicate ReadableContent(T: Table, c: Content)
    requires Shape(T)
    decreases c, 0
  {
    match c
    case Nodes(ns) => ReadableNodes(T, ns)
    case TextContent(t) => ReadableString(T, t)
    case BytesContent(_) => true
  }

  predicate ReadableNodes(T: Table, ns: seq<Node>)
    requires Shape(T)
    decreases ns, 0
  {
    ns == [] || (Readable(T, ns[0]) && ReadableNodes(T, ns[1..]))
  }

  /** No string of the tree is a JID pair with an empty server. */
  predicate Readable(T: Table, n: Node)
    requires Shape(T)
    decreases n, 1
  {
    && ReadableString(T, n.tag)
    && ReadableAttrs(T, n.attrs)
    && (n.content.Some? ==> ReadableContent(T, n.content.value))
  }

  /** The attributes of `a`, normalised, inserted into `acc` in order. */
  function NormAttrsInto(T: Table, a: Attrs, acc: Attrs): Attrs
    requires Shape(T)
    decreases |a|
  {
    if a == [] then acc
    else NormAttrsInto(T, a[1..], Insert(acc, NormString(T, a[0].key), NormString(T, a[0].val)))
  }

  function NormContent(T: Table, c: Content): Content
    requires Shape(T)
    decreases c, 0
  {
    match c
    case Nodes(ns) => Nodes(NormNodes(T, ns))
    case TextContent(t) => if FormOf(T, t).Raw? then BytesContent(t) else TextContent(NormString(T, t))
    case BytesContent(b) => c
  }

  function NormNodes(T: Table, ns: seq<Node>): (r: seq<Node>)
    requires Shape(T)
    ensures |r| == |ns|
    decreases ns, 0
  {
    if ns == [] then [] else [Norm(T, ns[0])] + NormNodes(T, ns[1..])
  }

  /** The tree that comes back. */
  function Norm(T: Table, n: Node): Node
    requires Shape(T)
    decreases n, 1
  {
    Node(NormString(T, n.tag),
         NormAttrsInto(T, n.attrs, []),
         if n.content.Some? then Some(NormContent(T, n.content.value)) else None)
  }

  // ----- Reading what was written --------------------------------------------

  function Answer<V>(readable: bool, v: V, rest: Bytes): Decoded<V> {
    if readable then Ok(Parsed(v, rest)) else Err(InvalidJidPair)
  }

  lemma EncodeAttrsStep(T: Table, a: Attrs)
    requires Shape(T) && a != [] && EncodeAttrs(T, a).Ok?
    ensures EncodeString(T, a[0].key).Ok? && EncodeString(T, a[0].val).Ok? && EncodeAttrs(T, a[1..]).Ok?
    ensures EncodeAttrs(T, a).value == EncodeString(T, a[0].key).value
                                       + EncodeString(T, a[0].val).value + EncodeAttrs(T, a[1..]).value
  {
  }

  lemma ReadAttrsStep(T: Table, count: nat, k: Bytes, v: Bytes, s: Bytes, key: Bytes, val: Bytes, acc: Attrs)
    requires Shape(T)
    requires ReadString(T, k + (v + s)) == Ok(Parsed(key, v + s))
    requires ReadString(T, v + s) == Ok(Parsed(val, s))
    ensures ReadAttrs(T, count + 1, k + (v + s), acc) == ReadAttrs(T, count, s, Insert(acc, key, val))
  {
  }

  lemma ReadAttrsFails(T: Table, count: nat, s: Bytes, acc: Attrs)
    requires Shape(T)
    requires || ReadString(T, s) == Err(InvalidJidPair)
             || (ReadString(T, s).Ok? && ReadString(T, ReadString(T, s).value.rest) == Err(InvalidJidPair))
    ensures ReadAttrs(T, count + 1, s, acc) == Err(InvalidJidPair)
  {
  }

  /** Reading the first written attribute. */
  lemma AttrsReadStep(T: Table, a: Attrs, rest: Bytes, acc: Attrs)
    requires Shape(T) && a != [] && EncodeAttrs(T, a).Ok? && Utf8(a[0].key) && Utf8(a[0].val)
    ensures EncodeAttrs(T, a[1..]).Ok?
    ensures ReadAttrs(T, |a|, EncodeAttrs(T, a).value + rest, acc) ==
            if ReadableString(T, a[0].key) && ReadableString(T, a[0].val) then
              ReadAttrs(T, |a| - 1, EncodeAttrs(T, a[1..]).value + rest,
                        Insert(acc, NormString(T, a[0].key), NormString(T, a[0].val)))
            else Err(InvalidJidPair)
  {
    EncodeAttrsStep(T, a);
    var k := EncodeString(T, a[0].key).value;
    var v := EncodeString(T, a[0].val).value;
    var s := EncodeAttrs(T, a[1..]).value + rest;
    Assoc4(k, v, EncodeAttrs(T, a[1..]).value, rest);
    StringRead(T, a[0].key, v + s);
    StringRead(T, a[0].val, s);
    if ReadableString(T, a[0].key) && ReadableString(T, a[0].val) {
      ReadAttrsStep(T, |a| - 1, k, v, s, NormString(T, a[0].key), NormString(T, a[0].val), acc);
    } else {
      ReadAttrsFails(T, |a| - 1, k + (v + s), acc);
    }
  }

  lemma Assoc4<V>(a: seq<V>, b: seq<V>, c: seq<V>, d: seq<V>)
    ensures a + b + c + d == a + (b + (c + d))
  {
  }

  /** Attributes written and followed by `rest` are read into `acc` as their norm. */
  predicate AttrsReadBack(T: Table, a: Attrs, rest: Bytes, acc: Attrs)
    requires Shape(T) && EncodeAttrs(T, a).Ok?
  {
    ReadAttrs(T, |a|, EncodeAttrs(T, a).value + rest, acc)
    == Answer(ReadableAttrs(T, a), NormAttrsInto(T, a, acc), rest)
  }

  lemma {:induction false} AttrsRead(T: Table, a: Attrs, rest: Bytes, acc: Attrs)
    requires Shape(T) && EncodeAttrs(T, a).Ok?
    requires forall i :: 0 <= i < |a| ==> Utf8(a[i].key) && Utf8(a[i].val)
    ensures AttrsReadBack(T, a, rest, acc)
    decreases |a|
  {
    if a == [] {
      AttrsReadNil(T, rest, acc);
    } else {
      var next := NextAttrs(T, a[0], acc);
      EncodeAttrsStep(T, a);
      AttrsRead(T, a[1..], rest, next);
      AttrsReadCons(T, a, rest, acc, next);
    }
  }

  lemma AttrsReadNil(T: Table, rest: Bytes, acc: Attrs)
    requires Shape(T)
    ensures EncodeAttrs(T, []).Ok?
    ensures AttrsReadBack(T, [], rest, acc)
  {
    assert EncodeAttrs(T, []).value + rest == rest;
  }

  function NextAttrs(T: Table, e: Entry<Bytes>, acc: Attrs): Attrs
    requires Shape(T)
  {
    Insert(acc, NormString(T, e.key), NormString(T, e.val))
  }

  lemma AttrsReadCons(T: Table, a: Attrs, rest: Bytes, acc: Attrs, next: Attrs)
    requires Shape(T) && a != [] && EncodeAttrs(T, a).Ok? && Utf8(a[0].key) && Utf8(a[0].val)
    requires next == NextAttrs(T, a[0], acc)
    requires EncodeAttrs(T, a[1..]).Ok?
    requires AttrsReadBack(T, a[1..], rest, next)
    ensures AttrsReadBack(T, a, rest, acc)
  {
    AttrsReadStep(T, a, rest, acc);
    AttrsOutcome(T, a, rest, acc,
                 ReadAttrs(T, |a|, EncodeAttrs(T, a).value + rest, acc),
                 ReadAttrs(T, |a| - 1, EncodeAttrs(T, a[1..]).value + rest, next));
  }

  lemma AttrsOutcome(T: Table, a: Attrs, rest: Bytes, acc: Attrs, whole: Decoded<Attrs>, tail: Decoded<Attrs>)
    requires Shape(T) && a != []
    requires whole == if ReadableString(T, a[0].key) && ReadableString(T, a[0].val) then tail else Err(InvalidJidPair)
    requires tail == Answer(ReadableAttrs(T, a[1..]),
                             NormAttrsInto(T, a[1..], Insert(acc, NormString(T, a[0].key), NormString(T, a[0].val))), rest)
    ensures whole == Answer(ReadableAttrs(T, a), NormAttrsInto(T, a, acc), rest)
  {
  }

  lemma ReadListContent(T: Table, h: Bytes, count: nat, s: Bytes)
    requires Shape(T) && h != [] && IsListTag(h[0])
    requires ReadListSize(h[0], h[1..] + s) == Ok(Parsed(count, s))
    ensures ReadContent(T, h + s) ==
            match ReadNodes(T, count, s)
            case Ok(p) => Ok(Parsed(Nodes(p.value), p.rest))
            case Err(e) => Err(e)
  {
    assert (h + s)[1..] == h[1..] + s;
  }

  lemma ReadBytesContent(T: Table, e: Bytes, b: Bytes, rest: Bytes)
    requires Shape(T) && e != [] && IsBinaryTag(e[0])
    requires ReadBinary(e[0], e[1..] + rest) == Ok(Parsed(b, rest))
    ensures ReadContent(T, e + rest) == Ok(Parsed(BytesContent(b), rest))
  {
    assert (e + rest)[1..] == e[1..] + rest;
  }

  lemma ReadTextContent(T: Table, e: Bytes, rest: Bytes)
    requires Shape(T) && e != [] && !IsBinaryTag(e[0]) && !IsListTag(e[0])
    ensures ReadContent(T, e + rest) ==
            match DecodeString(T, e[0], e[1..] + rest)
            case Ok(p) => Ok(Parsed(TextContent(p.value), p.rest))
            case Err(x) => Err(x)
  {
    assert (e + rest)[1..] == e[1..] + rest;
  }

  lemma TextContentRead(T: Table, t: Bytes, rest: Bytes)
    requires Shape(T) && Utf8(t) && EncodeString(T, t).Ok?
    ensures ReadContent(T, EncodeString(T, t).value + rest)
         == Answer(ReadableString(T, t), NormContent(T, TextContent(t)), rest)
  {
    var e := EncodeString(T, t).value;
    StringRead(T, t, rest);
    if FormOf(T, t).Raw? {
      RawRead(t, rest);
      ReadBytesContent(T, e, t, rest);
    } else {
      ReadTextContent(T, e, rest);
    }
  }

  lemma NodesContentRead(T: Table, ns: seq<Node>, rest: Bytes)
    requires Shape(T) && EncodeContent(T, Nodes(ns)).Ok?
    requires ReadNodes(T, |ns|, EncodeNodes(T, ns).value + rest)
          == Answer(ReadableNodes(T, ns), NormNodes(T, ns), rest)
    ensures ReadContent(T, EncodeContent(T, Nodes(ns)).value + rest)
         == Answer(ReadableNodes(T, ns), Nodes(NormNodes(T, ns)), rest)
  {
    var h := ListHeader(|ns|).value;
    var body := EncodeNodes(T, ns).value;
    ListHeaderRead(|ns|, body + rest);
    ReadListContent(T, h, |ns|, body + rest);
    assert EncodeContent(T, Nodes(ns)).value + rest == h + (body + rest);
  }

  lemma {:induction false} ContentRead(T: Table, c: Content, rest: Bytes)
    requires Shape(T) && EncodeContent(T, c).Ok?
    requires match c
             case Nodes(ns) => forall i :: 0 <= i < |ns| ==> WellFormed(ns[i])
             case TextContent(t) => Utf8(t)
             case BytesContent(_) => true
    ensures ReadContent(T, EncodeContent(T, c).value + rest)
         == Answer(ReadableContent(T, c), NormContent(T, c), rest)
    decreases c, 0
  {
    match c {
      case Nodes(ns) =>
        NodesRead(T, ns, rest);
        NodesContentRead(T, ns, rest);
      case TextContent(t) => TextContentRead(T, t, rest);
      case BytesContent(b) =>
        RawRead(b, rest);
        ReadBytesContent(T, RawString(b).value, b, rest);
    }
  }

  lemma {:induction false} NodesRead(T: Table, ns: seq<Node>, rest: Bytes)
    requires Shape(T) && EncodeNodes(T, ns).Ok?
    requires forall i :: 0 <= i < |ns| ==> WellFormed(ns[i])
    ensures ReadNodes(T, |ns|, EncodeNodes(T, ns).value + rest)
         == Answer(ReadableNodes(T, ns), NormNodes(T, ns), rest)
    decreases ns, 0
  {
    if ns == [] {
      assert EncodeNodes(T, ns).value + rest == rest;
    } else {
      var first := EncodeNode(T, ns[0]).value;
      var more := EncodeNodes(T, ns[1..]).value;
      assert EncodeNodes(T, ns).value + rest == first + (more + rest);
      NodeRead(T, ns[0], more + rest);
      NodesRead(T, ns[1..], rest);
    }
  }

  /** The four parts of a written node. */
  lemma EncodeNodeParts(T: Table, n: Node)
    requires Shape(T) && EncodeNode(T, n).Ok?
    ensures n.tag != [] && ListHeader(ListSize(n)).Ok? && EncodeString(T, n.tag).Ok? && EncodeAttrs(T, n.attrs).Ok?
    ensures n.content.Some? ==> EncodeContent(T, n.content.value).Ok?
    ensures EncodeNode(T, n).value
         == ListHeader(ListSize(n)).value + EncodeString(T, n.tag).value + EncodeAttrs(T, n.attrs).value
            + (if n.content.Some? then EncodeContent(T, n.content.value).value else [])
  {
  }

  /** A node from its size, its tag and the bytes after it. */
  function NodeOf(T: Table, size: nat, tag: Bytes, s2: Bytes): Decoded<Node>
    requires Shape(T) && size > 0
  {
    var attrs :- ReadAttrs(T, (size - 1) / 2, s2, []);
    if size % 2 == 0 then
      var content :- ReadContent(T, attrs.rest);
      Ok(Parsed(Node(tag, attrs.value, Some(content.value)), content.rest))
    else Ok(Parsed(Node(tag, attrs.value, None), attrs.rest))
  }

  /** A node from its size and the bytes from its tag on. */
  function TaggedNode(T: Table, size: nat, s1: Bytes): Decoded<Node>
    requires Shape(T) && size > 0
  {
    var tag :- ReadString(T, s1);
    if tag.value == [] then Err(InvalidNode) else NodeOf(T, size, tag.value, tag.rest)
  }

  /** The size of a node comes first. */
  lemma DecodeSized(T: Table, f: Bytes, h: Byte, f1: Bytes, size: nat, f2: Bytes)
    requires Shape(T) && f != [] && f[0] == h && f[1..] == f1 && size > 0 && ReadListSize(h, f1) == Ok(Parsed(size, f2))
    ensures DecodeNode(T, f) == TaggedNode(T, size, f2)
  {
  }

  lemma DecodeTail(T: Table, size: nat, tag: Bytes, s: Bytes, tail: Bytes, rest: Bytes, attrsOk: bool, attrs: Attrs,
                   contentOk: bool, content: Option<Content>)
    requires Shape(T) && size > 0 && ReadAttrs(T, (size - 1) / 2, s, []) == Answer(attrsOk, attrs, tail)
    requires content.Some? <==> size % 2 == 0
    requires if content.Some? then ReadContent(T, tail) == Answer(contentOk, content.value, rest)
             else contentOk && tail == rest
    ensures NodeOf(T, size, tag, s) == Answer(attrsOk && contentOk, Node(tag, attrs, content), rest)
  {
  }

  /** Reading a node from the readings of its parts. */
  lemma DecodeParts(T: Table, f: Bytes, h: Byte, f1: Bytes, size: nat, f2: Bytes, s: Bytes, tail: Bytes, rest: Bytes,
                    tagOk: bool, tag: Bytes, attrsOk: bool, attrs: Attrs, contentOk: bool, content: Option<Content>)
    requires Shape(T) && f != [] && f[0] == h && f[1..] == f1 && size > 0 && tag != []
    requires ReadListSize(h, f1) == Ok(Parsed(size, f2))
    requires ReadString(T, f2) == Answer(tagOk, tag, s)
    requires ReadAttrs(T, (size - 1) / 2, s, []) == Answer(attrsOk, attrs, tail)
    requires content.Some? <==> size % 2 == 0
    requires if content.Some? then ReadContent(T, tail) == Answer(contentOk, content.value, rest)
             else contentOk && tail == rest
    ensures DecodeNode(T, f) == Answer(tagOk && attrsOk && contentOk, Node(tag, attrs, content), rest)
  {
    DecodeSized(T, f, h, f1, size, f2);
    if tagOk {
      DecodeTail(T, size, tag, s, tail, rest, attrsOk, attrs, contentOk, content);
    }
  }

  lemma DecodeNodeParts(T: Table, h: Bytes, size: nat, count: nat, t: Bytes, s: Bytes, tail: Bytes, rest: Bytes,
                        tagOk: bool, tag: Bytes, attrsOk: bool, attrs: Attrs, contentOk: bool, content: Option<Content>)
    requires Shape(T) && h != [] && IsListTag(h[0]) && size > 0 && tag != []
    requires ReadListSize(h[0], h[1..] + (t + s)) == Ok(Parsed(size, t + s))
    requires ReadString(T, t + s) == Answer(tagOk, tag, s)
    requires count == (size - 1) / 2 && ReadAttrs(T, count, s, []) == Answer(attrsOk, attrs, tail)
    requires content.Some? <==> size % 2 == 0
    requires if content.Some? then ReadContent(T, tail) == Answer(contentOk, content.value, rest)
             else contentOk && tail == rest
    ensures DecodeNode(T, h + (t + s)) == Answer(tagOk && attrsOk && contentOk, Node(tag, attrs, content), rest)
  {
    HeadTail(h, t + s);
    DecodeParts(T, h + (t + s), h[0], h[1..] + (t + s), size, t + s, s, tail, rest, tagOk, tag, attrsOk, attrs,
                contentOk, content);
  }

  lemma Assoc5<V>(a: seq<V>, b: seq<V>, c: seq<V>, d: seq<V>, e: seq<V>)
    ensures a + b + c + d + e == a + (b + (c + (d + e)))
  {
  }

  lemma NormFormNonEmpty(f: Form, v: Bytes)
    requires v != []
    ensures NormForm(f, v) != []
  {
    if f.JidPair? {
      assert AT in NormForm(f, v);
    }
  }

  lemma TagRead(T: Table, v: Bytes, rest: Bytes)
    requires Shape(T) && v != [] && Utf8(v) && EncodeString(T, v).Ok?
    ensures NormString(T, v) != []
    ensures ReadString(T, EncodeString(T, v).value + rest)
         == Answer(ReadableString(T, v), NormString(T, v), rest)
  {
    NormFormNonEmpty(FormOf(T, v), v);
    StringRead(T, v, rest);
  }

  lemma ListSizeHalves(n: Node)
    ensures (ListSize(n) - 1) / 2 == |n.attrs|
    ensures ListSize(n) % 2 == 1 <==> n.content.None?
  {
  }

  lemma PartsRead(T: Table, n: Node, tail: Bytes)
    requires Shape(T) && Utf8(n.tag) && WellFormedAttrs(n.attrs) && n.tag != []
    requires ListHeader(ListSize(n)).Ok? && EncodeString(T, n.tag).Ok? && EncodeAttrs(T, n.attrs).Ok?
    ensures var h := ListHeader(ListSize(n)).value;
            var t := EncodeString(T, n.tag).value;
            var s := EncodeAttrs(T, n.attrs).value + tail;
            && h != [] && IsListTag(h[0]) && ReadListSize(h[0], h[1..] + (t + s)) == Ok(Parsed(ListSize(n), t + s))
            && NormString(T, n.tag) != []
            && ReadString(T, t + s) == Answer(ReadableString(T, n.tag), NormString(T, n.tag), s)
            && ReadAttrs(T, |n.attrs|, s, [])
               == Answer(ReadableAttrs(T, n.attrs), NormAttrsInto(T, n.attrs, []), tail)
  {
    var t := EncodeString(T, n.tag).value;
    var s := EncodeAttrs(T, n.attrs).value + tail;
    ListHeaderRead(ListSize(n), t + s);
    TagRead(T, n.tag, s);
    AttrsRead(T, n.attrs, tail, []);
  }

  /** The parts of a frame, whatever its content. */
  lemma FrameParts(T: Table, n: Node, c: Bytes, rest: Bytes)
    requires Shape(T) && Utf8(n.tag) && WellFormedAttrs(n.attrs) && EncodeNode(T, n).Ok?
    requires n.content.Some? ==> EncodeContent(T, n.content.value) == Ok(c)
    requires n.content.None? ==> c == []
    requires n.content.Some? ==>
               ReadContent(T, c + rest) == Answer(ReadableContent(T, n.content.value), NormContent(T, n.content.value), rest)
    ensures DecodeNode(T, EncodeNode(T, n).value + rest) == Answer(Readable(T, n), Norm(T, n), rest)
  {
    EncodeNodeParts(T, n);
    var h := ListHeader(ListSize(n)).value;
    var t := EncodeString(T, n.tag).value;
    var a := EncodeAttrs(T, n.attrs).value;
    Assoc5(h, t, a, c, rest);
    PartsRead(T, n, c + rest);
    assert n.content.None? ==> c + rest == rest;
    ListSizeHalves(n);
    DecodeNodeParts(T, h, ListSize(n), |n.attrs|, t, a + (c + rest), c + rest, rest,
                    ReadableString(T, n.tag), NormString(T, n.tag),
                    ReadableAttrs(T, n.attrs), NormAttrsInto(T, n.attrs, []),
                    n.content.Some? ==> ReadableContent(T, n.content.value), Norm(T, n).content);
  }

  lemma NodeAssembled(T: Table, n: Node, rest: Bytes)
    requires Shape(T) && Utf8(n.tag) && WellFormedAttrs(n.attrs) && EncodeNode(T, n).Ok?
    requires n.content.Some? ==>
               && EncodeContent(T, n.content.value).Ok?
               && ReadContent(T, EncodeContent(T, n.content.value).value + rest)
               == Answer(ReadableContent(T, n.content.value), NormContent(T, n.content.value), rest)
    ensures DecodeNode(T, EncodeNode(T, n).value + rest) == Answer(Readable(T, n), Norm(T, n), rest)
  {
    FrameParts(T, n, if n.content.Some? then EncodeContent(T, n.content.value).value else [], rest);
  }

  /**
   Every written node, followed by anything, is read back as its norm and leaves
   the cursor right after it, or is refused because of a pair without a server.
   */
  lemma {:induction false} NodeRead(T: Table, n: Node, rest: Bytes)
    requires Shape(T) && WellFormed(n) && EncodeNode(T, n).Ok?
    ensures DecodeNode(T, EncodeNode(T, n).value + rest) == Answer(Readable(T, n), Norm(T, n), rest)
    decreases n, 1
  {
    if n.content.Some? {
      EncodeNodeParts(T, n);
      ContentRead(T, n.content.value, rest);
    }
    NodeAssembled(T, n, rest);
  }
}
