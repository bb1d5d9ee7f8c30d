/**
 Writing again what was read. The frame is the same one exactly when, at every
 node, the normalised attribute keys are still in strictly increasing order.
 */
module NodeReencode {
  import opened Prelude
  import opened Text
  import opened SortedMap
  import opened Tokens
  import opened Jid
  import opened NodeFormat
  import opened NodeRoundTrip
  import opened NodeTheorems
  import opened NodeCanonical

  // ----- Normalised trees are trees ------------------------------------------

  lemma {:induction false} DigitsUtf8(s: Bytes)
    requires AllDigits(s)
    ensures Utf8(s)
  {
    AsciiIsUtf8(s);
  }

  lemma PrintUtf8(user: Bytes, server: Server, d: nat)
    requires Utf8(user)
    ensures Utf8(Print(user, server, Some(d), None))
  {
    PrintDevice(user, server, d);
    DigitsUtf8(Decimal(d));
    AsciiIsUtf8([COLON]);
    AsciiIsUtf8([AT]);
    ServerNameRoundTrip(server);
    AsciiIsUtf8(ServerName(server));
    Utf8Concat(user, [COLON]);
    Utf8Concat(user + [COLON], Decimal(d));
    Utf8Concat(user + [COLON] + Decimal(d), [AT]);
    Utf8Concat(user + [COLON] + Decimal(d) + [AT], ServerName(server));
  }

  lemma PairUtf8(user: Bytes, server: Bytes)
    requires Utf8(user) && Utf8(server)
    ensures Utf8(user + [AT] + server)
  {
    AsciiIsUtf8([AT]);
    Utf8Concat(user, [AT]);
    Utf8Concat(user + [AT], server);
  }

  lemma NormStringUtf8(T: Table, v: Bytes)
    requires Shape(T) && Utf8(v)
    ensures Utf8(NormString(T, v))
  {
    var f := FormOf(T, v);
    if f.AdJid? {
      FormOfJid(T, v, f);
      PrintUtf8(f.adUser, DomainServer(f.domain, SWhatsAppNet), f.device % 256);
    } else if f.JidPair? {
      FormOfJid(T, v, f);
      PairUtf8(f.pairUser, f.pairServer);
    }
  }

  /** An attribute whose strings are text and readable. */
  predicate GoodEntry(T: Table, e: Entry<Bytes>)
    requires Shape(T)
  {
    Utf8(e.key) && Utf8(e.val) && ReadableString(T, e.key) && ReadableString(T, e.val)
  }

  predicate GoodAttrs(T: Table, a: Attrs)
    requires Shape(T)
  {
    forall i :: 0 <= i < |a| ==> GoodEntry(T, a[i])
  }

  lemma NormEntryGood(T: Table, e: Entry<Bytes>)
    requires Shape(T) && GoodEntry(T, e)
    ensures GoodEntry(T, NormEntry(T, e))
  {
    NormStringUtf8(T, e.key);
    NormStringUtf8(T, e.val);
    NormStringIdempotent(T, e.key);
    NormStringIdempotent(T, e.val);
  }

  lemma {:induction false} InsertGood(T: Table, m: Attrs, e: Entry<Bytes>)
    requires Shape(T) && GoodAttrs(T, m) && GoodEntry(T, e)
    ensures GoodAttrs(T, Insert(m, e.key, e.val))
    decreases |m|
  {
    if m != [] && !Less(e.key, m[0].key) && e.key != m[0].key {
      InsertGood(T, m[1..], e);
    }
  }

  lemma {:induction false} NormAttrsGood(T: Table, a: Attrs, acc: Attrs)
    requires Shape(T) && GoodAttrs(T, a) && GoodAttrs(T, acc)
    ensures GoodAttrs(T, NormAttrsInto(T, a, acc))
    decreases |a|
  {
    if a != [] {
      assert GoodEntry(T, a[0]);
      NormEntryGood(T, a[0]);
      InsertGood(T, acc, NormEntry(T, a[0]));
      NormAttrsGood(T, a[1..], Insert(acc, NormString(T, a[0].key), NormString(T, a[0].val)));
    }
  }

  lemma GoodAttrsIff(T: Table, a: Attrs)
    requires Shape(T) && Sorted(a)
    ensures GoodAttrs(T, a) <==> WellFormedAttrs(a) && ReadableAttrs(T, a)
  {
    ReadableAttrsIff(T, a);
    assert GoodAttrs(T, a) <==> forall i :: 0 <= i < |a| ==> GoodEntry(T, a[i]);
    if WellFormedAttrs(a) && ReadableAttrs(T, a) {
      forall i | 0 <= i < |a| ensures GoodEntry(T, a[i]) {
      }
    }
  }

  lemma {:induction false} NormNodesGood(T: Table, ns: seq<Node>)
    requires Shape(T) && ReadableNodes(T, ns) && forall i :: 0 <= i < |ns| ==> WellFormed(ns[i])
    ensures ReadableNodes(T, NormNodes(T, ns))
    ensures forall i :: 0 <= i < |ns| ==> WellFormed(NormNodes(T, ns)[i])
    decreases ns, 0
  {
    if ns != [] {
      NormGood(T, ns[0]);
      NormNodesGood(T, ns[1..]);
      assert NormNodes(T, ns) == [Norm(T, ns[0])] + NormNodes(T, ns[1..]);
      assert NormNodes(T, ns)[1..] == NormNodes(T, ns[1..]);
    }
  }

  lemma NormTextGood(T: Table, t: Bytes)
    requires Shape(T) && Utf8(t) && ReadableString(T, t)
    ensures ReadableContent(T, NormContent(T, TextContent(t)))
    ensures NormContent(T, TextContent(t)).TextContent? ==> Utf8(NormContent(T, TextContent(t)).text)
  {
    NormStringUtf8(T, t);
    NormStringIdempotent(T, t);
  }

  /** What comes back from a readable tree is again a readable tree. */
  lemma {:induction false} NormGood(T: Table, n: Node)
    requires Shape(T) && WellFormed(n) && Readable(T, n)
    ensures WellFormed(Norm(T, n)) && Readable(T, Norm(T, n))
    decreases n, 1
  {
    NormStringUtf8(T, n.tag);
    NormStringIdempotent(T, n.tag);
    NormAttrsNormal(T, n.attrs, []);
    GoodAttrsIff(T, n.attrs);
    NormAttrsGood(T, n.attrs, []);
    GoodAttrsIff(T, NormAttrsInto(T, n.attrs, []));
    if n.content.Some? {
      match n.content.value {
        case Nodes(ns) => NormNodesGood(T, ns);
        case TextContent(t) => NormTextGood(T, t);
        case BytesContent(_) =>
      }
    }
  }

  // ----- Writing again -------------------------------------------------------

  function NormEntries(T: Table, a: Attrs): (r: Attrs)
    requires Shape(T)
    ensures |r| == |a| && forall i :: 0 <= i < |a| ==> r[i] == NormEntry(T, a[i])
    decreases |a|
  {
    if a == [] then [] else [NormEntry(T, a[0])] + NormEntries(T, a[1..])
  }

  predicate OrderKeptNodes(T: Table, ns: seq<Node>)
    requires Shape(T)
    decreases ns, 0
  {
    ns == [] || (OrderKept(T, ns[0]) && OrderKeptNodes(T, ns[1..]))
  }

  /** At every node the normalised keys still increase, so none of them merge. */
  predicate OrderKept(T: Table, n: Node)
    requires Shape(T)
    decreases n, 1
  {
    && Sorted(NormEntries(T, n.attrs))
    && (n.content.Some? && n.content.value.Nodes? ==> OrderKeptNodes(T, n.content.value.nodes))
  }

  lemma {:induction false} EncodeNormEntries(T: Table, a: Attrs)
    requires Shape(T)
    ensures EncodeAttrs(T, NormEntries(T, a)) == EncodeAttrs(T, a)
    decreases |a|
  {
    if a != [] {
      EncodeNormString(T, a[0].key);
      EncodeNormString(T, a[0].val);
      EncodeNormEntries(T, a[1..]);
      assert NormEntries(T, a)[1..] == NormEntries(T, a[1..]);
    }
  }

  lemma {:induction false} NormAttrsIsInsertAll(T: Table, a: Attrs, acc: Attrs)
    requires Shape(T)
    ensures NormAttrsInto(T, a, acc) == InsertAll(acc, NormEntries(T, a))
    decreases |a|
  {
    if a != [] {
      var e := NormEntry(T, a[0]);
      NormAttrsIsInsertAll(T, a[1..], Insert(acc, e.key, e.val));
      assert NormEntries(T, a)[1..] == NormEntries(T, a[1..]);
    }
  }

  lemma OrderKeptAttrs(T: Table, a: Attrs)
    requires Shape(T) && Sorted(NormEntries(T, a))
    ensures NormAttrsInto(T, a, []) == NormEntries(T, a)
  {
    NormAttrsIsInsertAll(T, a, []);
    InsertAllSorted([], NormEntries(T, a));
    assert [] + NormEntries(T, a) == NormEntries(T, a);
  }

  lemma EncodeNormText(T: Table, t: Bytes)
    requires Shape(T)
    ensures EncodeContent(T, NormContent(T, TextContent(t))) == EncodeString(T, t)
  {
    EncodeNormString(T, t);
  }

  lemma {:induction false} ReencodeNodes(T: Table, ns: seq<Node>)
    requires Shape(T) && OrderKeptNodes(T, ns)
    ensures EncodeNodes(T, NormNodes(T, ns)) == EncodeNodes(T, ns)
    decreases ns, 0
  {
    if ns != [] {
      Reencode(T, ns[0]);
      ReencodeNodes(T, ns[1..]);
      assert NormNodes(T, ns)[1..] == NormNodes(T, ns[1..]);
    }
  }

  lemma ReencodeNode(T: Table, n: Node)
    requires Shape(T) && Sorted(NormEntries(T, n.attrs))
    requires n.content.Some? ==> EncodeContent(T, NormContent(T, n.content.value)) == EncodeContent(T, n.content.value)
    ensures EncodeNode(T, Norm(T, n)) == EncodeNode(T, n)
  {
    OrderKeptAttrs(T, n.attrs);
    EncodeNormEntries(T, n.attrs);
    EncodeNormString(T, n.tag);
    NormTagEmpty(T, n.tag);
    EncodeNodeCong(T, Norm(T, n), n);
  }

  lemma NormTagEmpty(T: Table, v: Bytes)
    requires Shape(T)
    ensures NormString(T, v) == [] <==> v == []
  {
    if v != [] {
      NormFormNonEmpty(FormOf(T, v), v);
    }
  }

  /** The encoding of a node depends on its parts only through theirs. */
  lemma EncodeNodeCong(T: Table, m: Node, n: Node)
    requires Shape(T)
    requires m.tag == [] <==> n.tag == []
    requires EncodeString(T, m.tag) == EncodeString(T, n.tag)
    requires |m.attrs| == |n.attrs| && EncodeAttrs(T, m.attrs) == EncodeAttrs(T, n.attrs)
    requires m.content.Some? <==> n.content.Some?
    requires m.content.Some? ==> EncodeContent(T, m.content.value) == EncodeContent(T, n.content.value)
    ensures EncodeNode(T, m) == EncodeNode(T, n)
  {
  }

  /** If order is kept, the tree that came back is written as the original was. */
  lemma {:induction false} Reencode(T: Table, n: Node)
    requires Shape(T) && OrderKept(T, n)
    ensures EncodeNode(T, Norm(T, n)) == EncodeNode(T, n)
    decreases n, 1
  {
    if n.content.Some? {
      match n.content.value {
        case Nodes(ns) => ReencodeNodes(T, ns);
        case TextContent(t) => EncodeNormText(T, t);
        case BytesContent(_) =>
      }
    }
    ReencodeNode(T, n);
  }

  // ----- and only then -------------------------------------------------------

  /** Encodings of two good, normal attribute lists that agree are of the same list. */
  lemma {:induction false} AttrsUnique(T: Table, a: Attrs, b: Attrs, x: Bytes, y: Bytes)
    requires Shape(T) && |a| == |b|
    requires GoodAttrs(T, a) && GoodAttrs(T, b) && NormalAttrs(T, a) && NormalAttrs(T, b)
    requires EncodeAttrs(T, a).Ok? && EncodeAttrs(T, b).Ok?
    requires EncodeAttrs(T, a).value + x == EncodeAttrs(T, b).value + y
    ensures a == b && x == y
    decreases |a|
  {
    if a == [] {
      assert EncodeAttrs(T, a).value + x == x;
      assert EncodeAttrs(T, b).value + y == y;
    } else {
      HeadsSame(T, a, b, x, y);
      AttrsUnique(T, a[1..], b[1..], x, y);
      SameCons(a, b);
    }
  }

  lemma HeadsSame(T: Table, a: Attrs, b: Attrs, x: Bytes, y: Bytes)
    requires Shape(T) && a != [] && b != []
    requires GoodAttrs(T, a) && GoodAttrs(T, b) && NormalAttrs(T, a) && NormalAttrs(T, b)
    requires EncodeAttrs(T, a).Ok? && EncodeAttrs(T, b).Ok?
    requires EncodeAttrs(T, a).value + x == EncodeAttrs(T, b).value + y
    ensures a[0] == b[0]
    ensures EncodeAttrs(T, a[1..]).Ok? && EncodeAttrs(T, b[1..]).Ok?
    ensures EncodeAttrs(T, a[1..]).value + x == EncodeAttrs(T, b[1..]).value + y
    ensures GoodAttrs(T, a[1..]) && GoodAttrs(T, b[1..]) && NormalAttrs(T, a[1..]) && NormalAttrs(T, b[1..])
  {
    AttrsHead(T, a, x);
    AttrsHead(T, b, y);
  }

  /** Reading the first attribute of an encoded list. */
  lemma AttrsHead(T: Table, a: Attrs, x: Bytes)
    requires Shape(T) && a != [] && GoodAttrs(T, a) && NormalAttrs(T, a) && EncodeAttrs(T, a).Ok?
    ensures EncodeAttrs(T, a[1..]).Ok? && GoodAttrs(T, a[1..]) && NormalAttrs(T, a[1..])
    ensures var s := EncodeAttrs(T, a).value + x;
            var k := ReadString(T, s);
            && k.Ok? && k.value.value == a[0].key
            && ReadString(T, k.value.rest) == Ok(Parsed(a[0].val, EncodeAttrs(T, a[1..]).value + x))
  {
    EncodeAttrsStep(T, a);
    var k := EncodeString(T, a[0].key).value;
    var v := EncodeString(T, a[0].val).value;
    var s := EncodeAttrs(T, a[1..]).value;
    Assoc4(k, v, s, x);
    assert GoodEntry(T, a[0]) && NormalEntry(T, a[0]);
    NormalEntryRead(T, a[0], s + x);
  }

  lemma NormalEntryRead(T: Table, e: Entry<Bytes>, s: Bytes)
    requires Shape(T) && GoodEntry(T, e) && NormalEntry(T, e)
    requires EncodeString(T, e.key).Ok? && EncodeString(T, e.val).Ok?
    ensures var k := EncodeString(T, e.key).value;
            var v := EncodeString(T, e.val).value;
            && ReadString(T, k + (v + s)) == Ok(Parsed(e.key, v + s))
            && ReadString(T, v + s) == Ok(Parsed(e.val, s))
  {
    var v := EncodeString(T, e.val).value;
    NormalStringRead(T, e.key, v + s);
    NormalStringRead(T, e.val, s);
  }

  lemma NormalStringRead(T: Table, v: Bytes, rest: Bytes)
    requires Shape(T) && Utf8(v) && EncodeString(T, v).Ok? && NormString(T, v) == v && ReadableString(T, v)
    ensures ReadString(T, EncodeString(T, v).value + rest) == Ok(Parsed(v, rest))
  {
    StringRead(T, v, rest);
  }

  lemma NormEntriesGood(T: Table, a: Attrs)
    requires Shape(T) && GoodAttrs(T, a)
    ensures GoodAttrs(T, NormEntries(T, a)) && NormalAttrs(T, NormEntries(T, a))
  {
    forall i | 0 <= i < |a|
      ensures GoodEntry(T, NormEntries(T, a)[i]) && NormalEntry(T, NormEntries(T, a)[i])
    {
      assert GoodEntry(T, a[i]);
      NormEntryGood(T, a[i]);
      NormEntryNormal(T, a[i]);
    }
  }

  /** Equal list headers, whatever follows, announce equal sizes. */
  lemma HeaderUnique(m: nat, n: nat, x: Bytes, y: Bytes)
    requires ListHeader(m).Ok? && ListHeader(n).Ok?
    requires ListHeader(m).value + x == ListHeader(n).value + y
    ensures m == n && x == y
  {
    var h, g := ListHeader(m).value, ListHeader(n).value;
    ListHeaderRead(m, x);
    ListHeaderRead(n, y);
    assert (h + x)[1..] == h[1..] + x;
    assert (g + y)[1..] == g[1..] + y;
    assert (h + x)[0] == h[0] && (g + y)[0] == g[0];
  }

  lemma SameTail<V>(a: seq<V>, b: seq<V>, x: seq<V>, y: seq<V>)
    requires a + x == b + y && x == y
    ensures a == b
  {
    assert |a| == |b|;
    assert a == (a + x)[..|a|];
    assert b == (b + y)[..|b|];
  }

  lemma SameHead2<V>(a: seq<V>, x: seq<V>, y: seq<V>)
    requires a + x == a + y
    ensures x == y
  {
    DropPrefix(a, x);
    DropPrefix(a, y);
  }

  /** What follows the attributes in a frame. */
  function ContentBytes(T: Table, c: Option<Content>): Bytes
    requires Shape(T)
  {
    if c.Some? && EncodeContent(T, c.value).Ok? then EncodeContent(T, c.value).value else []
  }

  lemma ContentValue(T: Table, n: Node, c: Bytes)
    requires Shape(T) && EncodeNode(T, n).Ok? && c == ContentBytes(T, n.content)
    ensures n.tag != [] && ListHeader(ListSize(n)).Ok? && EncodeString(T, n.tag).Ok? && EncodeAttrs(T, n.attrs).Ok?
    ensures n.content.Some? ==> EncodeContent(T, n.content.value).Ok?
    ensures EncodeNode(T, n).value == ListHeader(ListSize(n)).value
              + (EncodeString(T, n.tag).value + (EncodeAttrs(T, n.attrs).value + c))
  {
    EncodeNodeParts(T, n);
    Assoc4(ListHeader(ListSize(n)).value, EncodeString(T, n.tag).value, EncodeAttrs(T, n.attrs).value, c);
  }

  lemma AttrSizes(m: Node, n: Node)
    requires ListSize(m) == ListSize(n) && (m.content.Some? <==> n.content.Some?)
    ensures |m.attrs| == |n.attrs|
  {
  }

  /** Equal frames of a tree and its norm: the attributes only changed in place, the contents agree. */
  lemma SameFrameParts(T: Table, n: Node, c: Bytes, d: Bytes)
    requires Shape(T) && WellFormed(n) && Readable(T, n)
    requires EncodeNode(T, n).Ok? && EncodeNode(T, Norm(T, n)) == EncodeNode(T, n)
    requires c == ContentBytes(T, n.content) && d == ContentBytes(T, Norm(T, n).content)
    ensures Sorted(NormEntries(T, n.attrs)) && c == d
  {
    var m := Norm(T, n);
    ContentValue(T, n, c);
    ContentValue(T, m, d);
    var t := EncodeString(T, n.tag).value;
    EncodeNormString(T, n.tag);
    HeaderUnique(ListSize(m), ListSize(n),
                 t + (EncodeAttrs(T, m.attrs).value + d), t + (EncodeAttrs(T, n.attrs).value + c));
    SameHead2(t, EncodeAttrs(T, m.attrs).value + d, EncodeAttrs(T, n.attrs).value + c);
    AttrSizes(m, n);
    SameFrameAttrs(T, n.attrs, d, c);
  }

  lemma SameFrameAttrs(T: Table, a: Attrs, x: Bytes, y: Bytes)
    requires Shape(T) && WellFormedAttrs(a) && ReadableAttrs(T, a)
    requires var m := NormAttrsInto(T, a, []);
             && |m| == |a| && EncodeAttrs(T, a).Ok? && EncodeAttrs(T, m).Ok?
             && EncodeAttrs(T, m).value + x == EncodeAttrs(T, a).value + y
    ensures Sorted(NormEntries(T, a)) && x == y
  {
    var m := NormAttrsInto(T, a, []);
    GoodAttrsIff(T, a);
    NormAttrsNormal(T, a, []);
    NormAttrsGood(T, a, []);
    NormEntriesGood(T, a);
    EncodeNormEntries(T, a);
    AttrsUnique(T, m, NormEntries(T, a), x, y);
  }

  lemma {:induction false} OnlyOrderKeptNodes(T: Table, ns: seq<Node>)
    requires Shape(T) && ReadableNodes(T, ns) && forall i :: 0 <= i < |ns| ==> WellFormed(ns[i])
    requires EncodeNodes(T, ns).Ok? && EncodeNodes(T, NormNodes(T, ns)) == EncodeNodes(T, ns)
    ensures OrderKeptNodes(T, ns)
    decreases ns, 0
  {
    if ns != [] {
      FirstNodeSame(T, ns);
      OnlyOrderKept(T, ns[0]);
      OnlyOrderKeptNodes(T, ns[1..]);
    }
  }

  lemma FirstNodeSame(T: Table, ns: seq<Node>)
    requires Shape(T) && ns != [] && WellFormed(ns[0]) && Readable(T, ns[0])
    requires EncodeNodes(T, ns).Ok? && EncodeNodes(T, NormNodes(T, ns)) == EncodeNodes(T, ns)
    ensures EncodeNode(T, ns[0]).Ok? && EncodeNode(T, Norm(T, ns[0])) == EncodeNode(T, ns[0])
    ensures EncodeNodes(T, ns[1..]).Ok? && EncodeNodes(T, NormNodes(T, ns[1..])) == EncodeNodes(T, ns[1..])
  {
    var m := Norm(T, ns[0]);
    NormNodesCons(T, ns);
    NormGood(T, ns[0]);
    var x, y := EncodeNodes(T, NormNodes(T, ns[1..])).value, EncodeNodes(T, ns[1..]).value;
    UniquelyDecodable(T, m, ns[0], x, y);
    SameTail(EncodeNode(T, m).value, EncodeNode(T, ns[0]).value, x, y);
  }

  lemma NormNodesCons(T: Table, ns: seq<Node>)
    requires Shape(T) && ns != [] && EncodeNodes(T, NormNodes(T, ns)).Ok?
    ensures EncodeNode(T, Norm(T, ns[0])).Ok? && EncodeNodes(T, NormNodes(T, ns[1..])).Ok?
    ensures EncodeNodes(T, NormNodes(T, ns)).value
         == EncodeNode(T, Norm(T, ns[0])).value + EncodeNodes(T, NormNodes(T, ns[1..])).value
  {
    assert NormNodes(T, ns)[0] == Norm(T, ns[0]);
    assert NormNodes(T, ns)[1..] == NormNodes(T, ns[1..]);
  }

  lemma NodesContentSame(T: Table, ns: seq<Node>)
    requires Shape(T) && EncodeContent(T, Nodes(ns)).Ok? && EncodeContent(T, Nodes(NormNodes(T, ns))).Ok?
    requires EncodeContent(T, Nodes(NormNodes(T, ns))).value == EncodeContent(T, Nodes(ns)).value
    ensures EncodeNodes(T, ns).Ok? && EncodeNodes(T, NormNodes(T, ns)) == EncodeNodes(T, ns)
  {
    SameHead2(ListHeader(|ns|).value, EncodeNodes(T, NormNodes(T, ns)).value, EncodeNodes(T, ns).value);
  }

  lemma TopSame(T: Table, n: Node)
    requires Shape(T) && WellFormed(n) && Readable(T, n)
    requires EncodeNode(T, n).Ok? && EncodeNode(T, Norm(T, n)) == EncodeNode(T, n)
    ensures Sorted(NormEntries(T, n.attrs))
    ensures n.content.Some? && n.content.value.Nodes? ==>
              var ns := n.content.value.nodes;
              EncodeNodes(T, ns).Ok? && EncodeNodes(T, NormNodes(T, ns)) == EncodeNodes(T, ns)
  {
    SameFrameParts(T, n, ContentBytes(T, n.content), ContentBytes(T, Norm(T, n).content));
    if n.content.Some? && n.content.value.Nodes? {
      ContentsOk(T, n);
      NodesContentSame(T, n.content.value.nodes);
    }
  }

  lemma ContentsOk(T: Table, n: Node)
    requires Shape(T) && n.content.Some? && EncodeNode(T, n).Ok? && EncodeNode(T, Norm(T, n)).Ok?
    ensures EncodeContent(T, n.content.value).Ok? && EncodeContent(T, NormContent(T, n.content.value)).Ok?
  {
    EncodeNodeParts(T, n);
    EncodeNodeParts(T, Norm(T, n));
  }

  /** Equal frames need the order to be kept. */
  lemma {:induction false} OnlyOrderKept(T: Table, n: Node)
    requires Shape(T) && WellFormed(n) && Readable(T, n)
    requires EncodeNode(T, n).Ok? && EncodeNode(T, Norm(T, n)) == EncodeNode(T, n)
    ensures OrderKept(T, n)
    decreases n, 1
  {
    TopSame(T, n);
    if n.content.Some? && n.content.value.Nodes? {
      OnlyOrderKeptNodes(T, n.content.value.nodes);
    }
  }

  /**
   Writing what was read gives the original frame exactly when no node's
   attributes merged or changed places under normalisation.
   */
  lemma ReencodeIff(T: Table, n: Node)
    requires Shape(T) && WellFormed(n) && Readable(T, n) && EncodeNode(T, n).Ok?
    ensures EncodeNode(T, Norm(T, n)) == EncodeNode(T, n) <==> OrderKept(T, n)
  {
    if OrderKept(T, n) {
      Reencode(T, n);
    }
    if EncodeNode(T, Norm(T, n)) == EncodeNode(T, n) {
      OnlyOrderKept(T, n);
    }
  }
}
