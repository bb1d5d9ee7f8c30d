/**
 Consequences of the round trip: normalisation is idempotent, changes nothing
 exactly on canonical trees, and the code is uniquely decodable.
 */
module NodeCanonical {
  import opened Prelude
  import opened Text
  import opened SortedMap
  import opened Tokens
  import opened Jid
  import opened NodeFormat
  import opened NodeRoundTrip
  import opened NodeTheorems

  // ----- Strings -------------------------------------------------------------

  /** A string with '@' is always written as a JID. */
  lemma FormOfAt(T: Table, v: Bytes)
    requires Shape(T) && AT in v
    ensures FormOf(T, v) == JidForm(Parse(v))
  {
    if TokenFor(T, v).Some? {
      TokenHasNoAt(T, v);
    }
    var i :| 0 <= i < |v| && v[i] == AT;
    assert !PackedChar(Nibble, v[i]) && !PackedChar(Hex, v[i]);
  }

  /** The form of a normalised string: only a device number may have shrunk. */
  function NormedForm(f: Form): Form {
    if f.AdJid? then f.(device := f.device % 256) else f
  }

  lemma PairForm(T: Table, user: Bytes, server: Bytes)
    requires Shape(T) && Plain(user)
    ensures FormOf(T, user + [AT] + server) == JidPair(user, server)
  {
    var v := user + [AT] + server;
    assert v[|user|] == AT;
    FormOfAt(T, v);
    ParseAssembled(user, None, None, server);
    assert user + Suffix(UNDERSCORE, None) + Suffix(COLON, None) + [AT] + server == v;
  }

  /** The four servers that the device form can name. */
  predicate AdServer(s: Server) {
    s.SWhatsAppNet? || s.Lid? || s.Hosted? || s.HostedLid?
  }

  lemma DeviceForm(T: Table, user: Bytes, server: Server, device: nat)
    requires Shape(T) && Plain(user) && device < 256
    ensures FormOf(T, Print(user, server, Some(device), None)) == AdJid(DomainOf(server, None), device, user)
  {
    var v := Print(user, server, Some(device), None);
    assert AT in v;
    FormOfAt(T, v);
    PrintParse(user, server, Some(device), None);
  }

  lemma AdServerOfDomain(d: Domain)
    ensures AdServer(DomainServer(d, SWhatsAppNet))
    ensures DomainOf(DomainServer(d, SWhatsAppNet), None) == d
  {
  }

  lemma JidFormUserPlain(T: Table, v: Bytes, f: Form)
    requires Shape(T) && f == FormOf(T, v)
    ensures f.AdJid? ==> Plain(f.adUser)
    ensures f.JidPair? ==> Plain(f.pairUser)
  {
    ParsedUserPlain(v);
  }

  /** Normalising keeps the wire form. */
  lemma FormOfNorm(T: Table, v: Bytes)
    requires Shape(T)
    ensures FormOf(T, NormString(T, v)) == NormedForm(FormOf(T, v))
  {
    var f := FormOf(T, v);
    JidFormUserPlain(T, v, f);
    if f.JidPair? {
      PairForm(T, f.pairUser, f.pairServer);
    } else if f.AdJid? {
      AdServerOfDomain(f.domain);
      DeviceForm(T, f.adUser, DomainServer(f.domain, SWhatsAppNet), f.device % 256);
    }
  }

  lemma NormStringIdempotent(T: Table, v: Bytes)
    requires Shape(T)
    ensures NormString(T, NormString(T, v)) == NormString(T, v)
    ensures ReadableString(T, NormString(T, v)) <==> ReadableString(T, v)
  {
    FormOfNorm(T, v);
    NormedFormSame(FormOf(T, v), v);
  }

  lemma NormedFormSame(f: Form, v: Bytes)
    ensures NormForm(NormedForm(f), NormForm(f, v)) == NormForm(f, v)
    ensures ReadableForm(NormedForm(f)) <==> ReadableForm(f)
  {
  }

  /** A normalised string is written as the string it came from. */
  lemma EncodeNormString(T: Table, v: Bytes)
    requires Shape(T)
    ensures EncodeString(T, NormString(T, v)) == EncodeString(T, v)
  {
    var f := FormOf(T, v);
    FormOfNorm(T, v);
    EncodeNormedForm(T, f, v, NormString(T, v));
  }

  lemma EncodeNormedForm(T: Table, f: Form, v: Bytes, w: Bytes)
    requires Shape(T) && FormFits(T, f, v) && FormFits(T, NormedForm(f), w)
    requires f.AdJid? || f.JidPair? || v == w
    ensures EncodeAs(T, NormedForm(f), w) == EncodeAs(T, f, v)
  {
  }

  /** `user@server`, or `user:d@server` with d in 0..255 on one of the four device servers. */
  ghost predicate CanonicalJid(v: Bytes) {
    || (exists user, server :: IsPair(v, user, server))
    || (exists user, server, d :: IsDevice(v, user, server, d))
  }

  predicate IsPair(v: Bytes, user: Bytes, server: Bytes) {
    Plain(user) && server != [] && v == user + [AT] + server
  }

  predicate IsDevice(v: Bytes, user: Bytes, server: Server, d: nat) {
    Plain(user) && AdServer(server) && d < 256 && v == user + [COLON] + Decimal(d) + [AT] + ServerName(server)
  }

  ghost predicate CanonicalString(v: Bytes) {
    AT in v ==> CanonicalJid(v)
  }

  lemma PrintDevice(user: Bytes, server: Server, d: nat)
    ensures Print(user, server, Some(d), None) == user + [COLON] + Decimal(d) + [AT] + ServerName(server)
  {
  }

  lemma UnchangedIsCanonical(T: Table, v: Bytes)
    requires Shape(T) && AT in v && NormString(T, v) == v && ReadableString(T, v)
    ensures CanonicalJid(v)
  {
    var f := FormOf(T, v);
    FormOfAt(T, v);
    JidFormUserPlain(T, v, f);
    if f.JidPair? {
      assert IsPair(v, f.pairUser, f.pairServer);
    } else {
      var server := DomainServer(f.domain, SWhatsAppNet);
      AdServerOfDomain(f.domain);
      PrintDevice(f.adUser, server, f.device % 256);
      assert IsDevice(v, f.adUser, server, f.device % 256);
    }
  }

  lemma CanonicalIsUnchanged(T: Table, v: Bytes)
    requires Shape(T) && CanonicalJid(v)
    ensures NormString(T, v) == v && ReadableString(T, v)
  {
    if user, server :| IsPair(v, user, server) {
      PairForm(T, user, server);
    } else {
      var user, server, d :| IsDevice(v, user, server, d);
      DeviceUnchanged(T, v, user, server, d);
    }
  }

  lemma DeviceUnchanged(T: Table, v: Bytes, user: Bytes, server: Server, d: nat)
    requires Shape(T) && IsDevice(v, user, server, d)
    ensures NormString(T, v) == v && ReadableString(T, v)
  {
    PrintDevice(user, server, d);
    DeviceForm(T, user, server, d);
    NormDevice(user, server, d, v);
  }

  lemma NormDevice(user: Bytes, server: Server, d: nat, v: Bytes)
    requires AdServer(server) && d < 256
    ensures NormForm(AdJid(DomainOf(server, None), d, user), v) == Print(user, server, Some(d), None)
  {
    assert DomainServer(DomainOf(server, None), SWhatsAppNet) == server;
  }

  /** Exactly the canonical strings survive a round trip unchanged. */
  lemma CanonicalStringIff(T: Table, v: Bytes)
    requires Shape(T)
    ensures CanonicalString(v) <==> NormString(T, v) == v && ReadableString(T, v)
  {
    if AT in v {
      if CanonicalJid(v) {
        CanonicalIsUnchanged(T, v);
      }
      if NormString(T, v) == v && ReadableString(T, v) {
        UnchangedIsCanonical(T, v);
      }
    }
  }

  // ----- Attributes ----------------------------------------------------------

  predicate NormalEntry(T: Table, e: Entry<Bytes>)
    requires Shape(T)
  {
    NormString(T, e.key) == e.key && NormString(T, e.val) == e.val
  }

  predicate NormalAttrs(T: Table, a: Attrs)
    requires Shape(T)
  {
    forall i :: 0 <= i < |a| ==> NormalEntry(T, a[i])
  }

  lemma {:induction false} InsertNormal(T: Table, m: Attrs, e: Entry<Bytes>)
    requires Shape(T) && NormalAttrs(T, m) && NormalEntry(T, e)
    ensures NormalAttrs(T, Insert(m, e.key, e.val))
    decreases |m|
  {
    if m != [] && !Less(e.key, m[0].key) && e.key != m[0].key {
      InsertNormal(T, m[1..], e);
    }
  }

  function NormEntry(T: Table, e: Entry<Bytes>): Entry<Bytes>
    requires Shape(T)
  {
    Entry(NormString(T, e.key), NormString(T, e.val))
  }

  lemma NormEntryNormal(T: Table, e: Entry<Bytes>)
    requires Shape(T)
    ensures NormalEntry(T, NormEntry(T, e))
  {
    NormStringIdempotent(T, e.key);
    NormStringIdempotent(T, e.val);
  }

  /** Normalised attributes are an ordered map of normal strings. */
  lemma {:induction false} NormAttrsNormal(T: Table, a: Attrs, acc: Attrs)
    requires Shape(T) && Sorted(acc) && NormalAttrs(T, acc)
    ensures Sorted(NormAttrsInto(T, a, acc)) && NormalAttrs(T, NormAttrsInto(T, a, acc))
    decreases |a|
  {
    if a != [] {
      var e := NormEntry(T, a[0]);
      NormEntryNormal(T, a[0]);
      InsertSorted(acc, e.key, e.val);
      InsertNormal(T, acc, e);
      NormAttrsNormal(T, a[1..], Insert(acc, e.key, e.val));
    }
  }

  lemma NormAttrsStep(T: Table, a: Attrs, acc: Attrs)
    requires Shape(T) && a != [] && NormalAttrs(T, a)
    ensures NormAttrsInto(T, a, acc) == NormAttrsInto(T, a[1..], Insert(acc, a[0].key, a[0].val))
    ensures NormalAttrs(T, a[1..])
  {
    assert NormalEntry(T, a[0]);
  }

  lemma {:induction false} NormAttrsInsertAll(T: Table, a: Attrs, acc: Attrs)
    requires Shape(T) && NormalAttrs(T, a)
    ensures NormAttrsInto(T, a, acc) == InsertAll(acc, a)
    decreases |a|
  {
    if a != [] {
      NormAttrsStep(T, a, acc);
      NormAttrsInsertAll(T, a[1..], Insert(acc, a[0].key, a[0].val));
    }
  }

  /** Inserting normal entries in order rebuilds them. */
  lemma NormAttrsRebuild(T: Table, a: Attrs)
    requires Shape(T) && Sorted(a) && NormalAttrs(T, a)
    ensures NormAttrsInto(T, a, []) == a
  {
    NormAttrsInsertAll(T, a, []);
    InsertAllSorted([], a);
    assert [] + a == a;
  }

  lemma NormAttrsIdempotent(T: Table, a: Attrs)
    requires Shape(T)
    ensures var m := NormAttrsInto(T, a, []); NormAttrsInto(T, m, []) == m
  {
    var m := NormAttrsInto(T, a, []);
    NormAttrsNormal(T, a, []);
    NormAttrsRebuild(T, m);
  }

  /** The value of the last entry whose key normalises to `q`. */
  function LastNormal(T: Table, a: Attrs, q: Bytes): Option<Bytes>
    requires Shape(T)
    decreases |a|
  {
    if a == [] then None
    else if LastNormal(T, a[1..], q).Some? then LastNormal(T, a[1..], q)
    else if NormString(T, a[0].key) == q then Some(NormString(T, a[0].val))
    else None
  }

  /** When normalised keys collide, the entry written last is the one that comes back. */
  lemma {:induction false} NormAttrsLookup(T: Table, a: Attrs, acc: Attrs, q: Bytes)
    requires Shape(T) && Sorted(acc)
    ensures Get(NormAttrsInto(T, a, acc), q)
         == if LastNormal(T, a, q).Some? then LastNormal(T, a, q) else Get(acc, q)
    decreases |a|
  {
    if a != [] {
      var e := NormEntry(T, a[0]);
      InsertSorted(acc, e.key, e.val);
      GetInsert(acc, e.key, e.val, q);
      NormAttrsLookup(T, a[1..], Insert(acc, e.key, e.val), q);
    }
  }

  // ----- Trees ---------------------------------------------------------------

  lemma {:induction false} NormContentIdempotent(T: Table, c: Content)
    requires Shape(T)
    ensures NormContent(T, NormContent(T, c)) == NormContent(T, c)
    decreases c, 0
  {
    match c {
      case Nodes(ns) => NormNodesIdempotent(T, ns);
      case TextContent(t) =>
        FormOfNorm(T, t);
        NormStringIdempotent(T, t);
      case BytesContent(_) =>
    }
  }

  lemma {:induction false} NormNodesIdempotent(T: Table, ns: seq<Node>)
    requires Shape(T)
    ensures NormNodes(T, NormNodes(T, ns)) == NormNodes(T, ns)
    decreases ns, 0
  {
    if ns != [] {
      NormIdempotent(T, ns[0]);
      NormNodesIdempotent(T, ns[1..]);
      assert NormNodes(T, ns)[1..] == NormNodes(T, ns[1..]);
    }
  }

  /** Normalising twice is normalising once, even when attribute keys merge. */
  lemma {:induction false} NormIdempotent(T: Table, n: Node)
    requires Shape(T)
    ensures Norm(T, Norm(T, n)) == Norm(T, n)
    decreases n, 1
  {
    NormStringIdempotent(T, n.tag);
    NormAttrsIdempotent(T, n.attrs);
    if n.content.Some? {
      NormContentIdempotent(T, n.content.value);
    }
  }

  ghost predicate CanonicalAttrs(a: Attrs) {
    forall i :: 0 <= i < |a| ==> CanonicalString(a[i].key) && CanonicalString(a[i].val)
  }

  ghost predicate CanonicalContent(T: Table, c: Content)
    requires Shape(T)
    decreases c, 0
  {
    match c
    case Nodes(ns) => CanonicalNodes(T, ns)
    case TextContent(t) => CanonicalString(t) && !FormOf(T, t).Raw?
    case BytesContent(_) => true
  }

  ghost predicate CanonicalNodes(T: Table, ns: seq<Node>)
    requires Shape(T)
    decreases ns, 0
  {
    ns == [] || (Canonical(T, ns[0]) && CanonicalNodes(T, ns[1..]))
  }

  /** Every string is canonical and no text is of the raw form. */
  ghost predicate Canonical(T: Table, n: Node)
    requires Shape(T)
    decreases n, 1
  {
    && CanonicalString(n.tag)
    && CanonicalAttrs(n.attrs)
    && (n.content.Some? ==> CanonicalContent(T, n.content.value))
  }

  predicate ReadableEntry(T: Table, e: Entry<Bytes>)
    requires Shape(T)
  {
    ReadableString(T, e.key) && ReadableString(T, e.val)
  }

  lemma {:induction false} ReadableAttrsIff(T: Table, a: Attrs)
    requires Shape(T)
    ensures ReadableAttrs(T, a) <==> forall i :: 0 <= i < |a| ==> ReadableEntry(T, a[i])
    decreases |a|
  {
    if a != [] {
      ReadableAttrsIff(T, a[1..]);
      assert forall i :: 0 < i < |a| ==> a[i] == a[1..][i - 1];
      assert forall i :: 0 <= i < |a[1..]| ==> a[1..][i] == a[i + 1];
    }
  }

  lemma CanonicalAttrsIff(T: Table, a: Attrs)
    requires Shape(T) && Sorted(a)
    ensures CanonicalAttrs(a) <==> NormAttrsInto(T, a, []) == a && ReadableAttrs(T, a)
  {
    ReadableAttrsIff(T, a);
    forall i | 0 <= i < |a|
      ensures CanonicalString(a[i].key) && CanonicalString(a[i].val)
         <==> NormalEntry(T, a[i]) && ReadableEntry(T, a[i])
    {
      CanonicalStringIff(T, a[i].key);
      CanonicalStringIff(T, a[i].val);
    }
    NormAttrsNormal(T, a, []);
    if NormalAttrs(T, a) {
      NormAttrsRebuild(T, a);
    }
  }

  lemma {:induction false} CanonicalContentIff(T: Table, c: Content)
    requires Shape(T)
    requires c.Nodes? ==> forall i :: 0 <= i < |c.nodes| ==> WellFormed(c.nodes[i])
    ensures CanonicalContent(T, c) <==> NormContent(T, c) == c && ReadableContent(T, c)
    decreases c, 0
  {
    match c {
      case Nodes(ns) => CanonicalNodesIff(T, ns);
      case TextContent(t) => CanonicalStringIff(T, t);
      case BytesContent(_) =>
    }
  }

  lemma {:induction false} CanonicalNodesIff(T: Table, ns: seq<Node>)
    requires Shape(T) && forall i :: 0 <= i < |ns| ==> WellFormed(ns[i])
    ensures CanonicalNodes(T, ns) <==> NormNodes(T, ns) == ns && ReadableNodes(T, ns)
    decreases ns, 0
  {
    if ns != [] {
      CanonicalIff(T, ns[0]);
      CanonicalNodesIff(T, ns[1..]);
      Cons(Norm(T, ns[0]), NormNodes(T, ns[1..]), ns);
    }
  }

  /** Exactly the canonical trees survive a round trip unchanged. */
  lemma {:induction false} CanonicalIff(T: Table, n: Node)
    requires Shape(T) && WellFormed(n)
    ensures Canonical(T, n) <==> Norm(T, n) == n && Readable(T, n)
    decreases n, 1
  {
    CanonicalStringIff(T, n.tag);
    CanonicalAttrsIff(T, n.attrs);
    if n.content.Some? {
      CanonicalContentIff(T, n.content.value);
    }
  }

  // ----- The code as a whole -------------------------------------------------

  /** Uniquely decodable: no encoding of one tree is confused with, or begins, that of another. */
  lemma UniquelyDecodable(T: Table, m: Node, n: Node, x: Bytes, y: Bytes)
    requires Shape(T) && WellFormed(m) && WellFormed(n)
    requires EncodeNode(T, m).Ok? && EncodeNode(T, n).Ok? && Readable(T, m) && Readable(T, n)
    requires EncodeNode(T, m).value + x == EncodeNode(T, n).value + y
    ensures Norm(T, m) == Norm(T, n) && x == y
    ensures Canonical(T, m) && Canonical(T, n) ==> m == n
  {
    NodeRead(T, m, x);
    NodeRead(T, n, y);
    CanonicalIff(T, m);
    CanonicalIff(T, n);
  }

  lemma FrameBody(T: Table, inflate: Bytes -> Option<Bytes>, frame: Bytes, body: Bytes)
    requires Shape(T) && frame != [] && frame[0] == 0 && frame[1..] == body
    ensures DecodeFrame(T, inflate, frame) == WithoutRest(DecodeNode(T, body))
  {
  }

  /** `decode_binary_node` after `encode_binary_node`; trailing bytes are ignored. */
  lemma FrameRoundTrip(T: Table, inflate: Bytes -> Option<Bytes>, n: Node, trailing: Bytes)
    requires Shape(T) && WellFormed(n) && EncodeFrame(T, n).Ok?
    ensures DecodeFrame(T, inflate, EncodeFrame(T, n).value + trailing)
         == if Readable(T, n) then Ok(Norm(T, n)) else Err(InvalidJidPair)
  {
    var e := EncodeNode(T, n).value;
    NodeRead(T, n, trailing);
    Assoc([0], e, trailing);
    DropPrefix([0], e + trailing);
    FrameBody(T, inflate, EncodeFrame(T, n).value + trailing, e + trailing);
  }

  /** Canonical trees come back as they were, whatever follows their frame. */
  lemma CanonicalRoundTrip(T: Table, inflate: Bytes -> Option<Bytes>, n: Node, trailing: Bytes)
    requires Shape(T) && WellFormed(n) && EncodeFrame(T, n).Ok? && Canonical(T, n)
    ensures DecodeFrame(T, inflate, EncodeFrame(T, n).value + trailing) == Ok(n)
  {
    FrameRoundTrip(T, inflate, n, trailing);
    CanonicalIff(T, n);
  }
}
