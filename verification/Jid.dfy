/** Parsing, printing and normalising JIDs (crates/wa-binary/src/jid.rs). */
module Jid {
  import opened Prelude
  import opened Text

  datatype Domain = WhatsApp | LidDomain | HostedDomain | HostedLidDomain

  datatype Server =
    | CUs | GUs | Broadcast | SWhatsAppNet | Call | Lid
    | Newsletter | Bot | Hosted | HostedLid | Other

  datatype FullJid = FullJid(
    user: Bytes,
    server: Server,
    serverRaw: Bytes,
    device: Option<nat>,
    agent: Option<nat>,
    domain: Domain)

  function ServerName(s: Server): Bytes {
    match s
    case CUs => [0x63, 0x2E, 0x75, 0x73] // c.us
    case GUs => [0x67, 0x2E, 0x75, 0x73] // g.us
    case Broadcast => [0x62, 0x72, 0x6F, 0x61, 0x64, 0x63, 0x61, 0x73, 0x74] // broadcast
    case SWhatsAppNet =>
      [0x73, 0x2E, 0x77, 0x68, 0x61, 0x74, 0x73, 0x61, 0x70, 0x70, 0x2E, 0x6E, 0x65, 0x74] // s.whatsapp.net
    case Call => [0x63, 0x61, 0x6C, 0x6C] // call
    case Lid => [0x6C, 0x69, 0x64] // lid
    case Newsletter => [0x6E, 0x65, 0x77, 0x73, 0x6C, 0x65, 0x74, 0x74, 0x65, 0x72] // newsletter
    case Bot => [0x62, 0x6F, 0x74] // bot
    case Hosted => [0x68, 0x6F, 0x73, 0x74, 0x65, 0x64] // hosted
    case HostedLid => [0x68, 0x6F, 0x73, 0x74, 0x65, 0x64, 0x2E, 0x6C, 0x69, 0x64] // hosted.lid
    case Other => []
  }

  function ServerFromName(name: Bytes): Server {
    if name == ServerName(CUs) then CUs
    else if name == ServerName(GUs) then GUs
    else if name == ServerName(Broadcast) then Broadcast
    else if name == ServerName(SWhatsAppNet) then SWhatsAppNet
    else if name == ServerName(Call) then Call
    else if name == ServerName(Lid) then Lid
    else if name == ServerName(Newsletter) then Newsletter
    else if name == ServerName(Bot) then Bot
    else if name == ServerName(Hosted) then Hosted
    else if name == ServerName(HostedLid) then HostedLid
    else Other
  }

  function DomainCode(d: Domain): Byte {
    match d
    case WhatsApp => 0
    case LidDomain => 1
    case HostedDomain => 128
    case HostedLidDomain => 129
  }

  /** `JidServer::domain_type`: the server decides first, then the agent number. */
  function DomainOf(s: Server, agent: Option<nat>): Domain {
    match s
    case Lid => LidDomain
    case Hosted => HostedDomain
    case HostedLid => HostedLidDomain
    case _ =>
      if agent == Some(1) then LidDomain
      else if agent == Some(128) then HostedDomain
      else if agent == Some(129) then HostedLidDomain
      else WhatsApp
  }

  /** `WaJidDomain::server` */
  function DomainServer(d: Domain, fallback: Server): Server {
    match d
    case WhatsApp => fallback
    case LidDomain => Lid
    case HostedDomain => Hosted
    case HostedLidDomain => HostedLid
  }

  function Suffix(mark: Byte, n: Option<nat>): Bytes {
    if n.Some? then [mark] + Decimal(n.value) else []
  }

  /** `jid_encode` */
  function Print(user: Bytes, server: Server, device: Option<nat>, agent: Option<nat>): Bytes {
    user + Suffix(UNDERSCORE, agent) + Suffix(COLON, device) + [AT] + ServerName(server)
  }

  /** The part before `mark`, and the part after it when there is one. */
  function Cut(s: Bytes, mark: Byte): (r: (Bytes, Option<Bytes>))
    ensures mark !in r.0
    ensures s == r.0 + (if r.1.Some? then [mark] + r.1.value else [])
  {
    match SplitOnce(s, mark)
    case Some(p) => (p.0, Some(p.1))
    case None => (s, None)
  }

  function ParseNumber(s: Option<Bytes>): (r: Option<nat>)
    ensures r.Some? ==> r.value < 0x1_0000
  {
    if s.Some? then ParseU16(s.value) else None
  }

  /** `jid_decode` */
  function Parse(jid: Bytes): (r: Option<FullJid>)
    ensures r.Some? <==> AT in jid
    ensures r.Some? && r.value.device.Some? ==> r.value.device.value < 0x1_0000
  {
    match SplitOnce(jid, AT)
    case None => None
    case Some((combined, serverRaw)) =>
      var (userAgent, deviceRaw) := Cut(combined, COLON);
      var (user, agentRaw) := Cut(userAgent, UNDERSCORE);
      var agent := ParseNumber(agentRaw);
      var server := ServerFromName(serverRaw);
      Some(FullJid(user, server, serverRaw, ParseNumber(deviceRaw), agent, DomainOf(server, agent)))
  }

  /** `jid_normalized_user` */
  function NormalizedUser(jid: Bytes): Option<Bytes> {
    match Parse(jid)
    case None => None
    case Some(d) => Some(Print(d.user, if d.server.CUs? then SWhatsAppNet else d.server, None, None))
  }

  /** `are_jids_same_user` */
  predicate SameUser(left: Bytes, right: Bytes) {
    Parse(left).Some? && Parse(right).Some? && Parse(left).value.user == Parse(right).value.user
  }

  // ----- Properties ----------------------------------------------------------

  /** A user part that none of the three separators cuts. */
  predicate Plain(user: Bytes) {
    AT !in user && COLON !in user && UNDERSCORE !in user
  }

  predicate IsU16(n: Option<nat>) {
    n.Some? ==> n.value < 0x1_0000
  }

  lemma ServerNameRoundTrip(s: Server)
    ensures ServerFromName(ServerName(s)) == s
    ensures IsAscii(ServerName(s))
    ensures s.Other? <==> ServerName(s) == []
  {
    var n := ServerName(s);
    match s
    case CUs => assert n[0] == 0x63;
    case GUs => assert n[0] == 0x67;
    case Call => assert n[1] == 0x61;
    case Lid => assert n[0] == 0x6C;
    case Bot => assert n[0] == 0x62;
    case Newsletter => assert n[0] == 0x6E;
    case HostedLid => assert n[0] == 0x68;
    case _ =>
  }

  lemma SuffixClean(mark: Byte, n: Option<nat>, c: Byte)
    requires !IsDigit(c) && c != mark
    ensures c !in Suffix(mark, n)
  {
    if n.Some? {
      var d := Decimal(n.value);
      assert forall i :: 0 <= i < |d| ==> IsDigit(d[i]);
    }
  }

  lemma CutAt(a: Bytes, mark: Byte, b: Bytes)
    requires mark !in a
    ensures Cut(a + [mark] + b, mark) == (a, Some(b))
  {
    SplitOnceAt(a, mark, b);
  }

  lemma CutSuffix(a: Bytes, mark: Byte, n: Option<nat>)
    requires mark !in a && IsU16(n)
    ensures Cut(a + Suffix(mark, n), mark).0 == a
    ensures ParseNumber(Cut(a + Suffix(mark, n), mark).1) == n
  {
    if n.Some? {
      assert a + Suffix(mark, n) == a + [mark] + Decimal(n.value);
      CutAt(a, mark, Decimal(n.value));
      ParseDecimal(n.value);
    } else {
      assert a + Suffix(mark, n) == a;
    }
  }

  /** What `Parse` finds in a string assembled from parts. */
  lemma ParseAssembled(user: Bytes, agent: Option<nat>, device: Option<nat>, serverRaw: Bytes)
    requires Plain(user) && IsU16(device) && IsU16(agent)
    ensures Parse(user + Suffix(UNDERSCORE, agent) + Suffix(COLON, device) + [AT] + serverRaw)
         == Some(FullJid(user, ServerFromName(serverRaw), serverRaw, device, agent,
                         DomainOf(ServerFromName(serverRaw), agent)))
  {
    var ua := user + Suffix(UNDERSCORE, agent);
    var combined := ua + Suffix(COLON, device);
    SuffixClean(UNDERSCORE, agent, AT);
    SuffixClean(UNDERSCORE, agent, COLON);
    SuffixClean(COLON, device, AT);
    SplitOnceAt(combined, AT, serverRaw);
    CutSuffix(ua, COLON, device);
    CutSuffix(user, UNDERSCORE, agent);
  }

  /** Every parsed user is plain. */
  lemma ParsedUserPlain(jid: Bytes)
    ensures Parse(jid).Some? ==> Plain(Parse(jid).value.user)
  {
    if Parse(jid).Some? {
      var p := SplitOnce(jid, AT).value;
      var c := Cut(p.0, COLON);
      assert forall x :: x in c.0 ==> x in p.0;
      assert forall x :: x in Cut(c.0, UNDERSCORE).0 ==> x in c.0;
    }
  }

  /**
   Printing then parsing returns all the parts exactly when the user part is
   plain; this holds for every server and all u16 devices and agents.
   */
  lemma PrintParse(user: Bytes, server: Server, device: Option<nat>, agent: Option<nat>)
    requires IsU16(device) && IsU16(agent)
    ensures Parse(Print(user, server, device, agent))
         == Some(FullJid(user, server, ServerName(server), device, agent, DomainOf(server, agent)))
       <==> Plain(user)
  {
    if Plain(user) {
      ServerNameRoundTrip(server);
      ParseAssembled(user, agent, device, ServerName(server));
    } else {
      ParsedUserPlain(Print(user, server, device, agent));
    }
  }

  /**
   Normalising keeps the user, drops device and agent, never leaves a c.us
   address and is idempotent on every string that parses at all.
   */
  lemma NormalizeLaws(jid: Bytes)
    requires AT in jid
    ensures NormalizedUser(jid).Some?
    ensures SameUser(NormalizedUser(jid).value, jid)
    ensures NormalizedUser(NormalizedUser(jid).value) == NormalizedUser(jid)
    ensures var p := Parse(NormalizedUser(jid).value).value;
            p.device == None && p.agent == None && !p.server.CUs?
  {
    var d := Parse(jid).value;
    ParsedUserPlain(jid);
    var server := if d.server.CUs? then SWhatsAppNet else d.server;
    PrintParse(d.user, server, None, None);
  }

  /** Same-user is decided by the user part alone, whatever the other parts are. */
  lemma SameUserIsUserEquality(
    u1: Bytes, s1: Server, d1: Option<nat>, a1: Option<nat>,
    u2: Bytes, s2: Server, d2: Option<nat>, a2: Option<nat>)
    requires Plain(u1) && Plain(u2)
    requires IsU16(d1) && IsU16(a1) && IsU16(d2) && IsU16(a2)
    ensures SameUser(Print(u1, s1, d1, a1), Print(u2, s2, d2, a2)) <==> u1 == u2
  {
    PrintParse(u1, s1, d1, a1);
    PrintParse(u2, s2, d2, a2);
  }

  // ----- Spelled out ---------------------------------------------------------

  const KNOWN: seq<string> :=
    ["c.us", "g.us", "broadcast", "s.whatsapp.net", "call", "lid", "newsletter", "bot", "hosted", "hosted.lid"]

  /** A server, or none, by its place in the list of names. */
  function ServerAt(i: nat): Server {
    match i
    case 0 => CUs
    case 1 => GUs
    case 2 => Broadcast
    case 3 => SWhatsAppNet
    case 4 => Call
    case 5 => Lid
    case 6 => Newsletter
    case 7 => Bot
    case 8 => Hosted
    case 9 => HostedLid
    case _ => Other
  }

  function PlaceOf(s: Server): nat {
    match s
    case CUs => 0
    case GUs => 1
    case Broadcast => 2
    case SWhatsAppNet => 3
    case Call => 4
    case Lid => 5
    case Newsletter => 6
    case Bot => 7
    case Hosted => 8
    case HostedLid => 9
    case Other => 10
  }

  lemma SpelledAs(b: Bytes, s: string)
    requires |b| == |s| && forall i :: 0 <= i < |s| ==> b[i] as int == s[i] as int && s[i] as int < 256
    ensures b == Ascii(s)
  {
  }

  /** The names of the servers. */
  lemma ServersSpelled(i: nat)
    requires i < 10
    ensures ServerName(ServerAt(i)) == Ascii(KNOWN[i])
  {
    SpelledAs(ServerName(ServerAt(i)), KNOWN[i]);
  }

  /** A name is known if and only if it is in the list. */
  lemma KnownIff(raw: Bytes)
    ensures ServerFromName(raw).Other? <==> forall i :: 0 <= i < 10 ==> raw != Ascii(KNOWN[i])
    ensures forall i :: 0 <= i < 10 && raw == Ascii(KNOWN[i]) ==> ServerFromName(raw) == ServerAt(i)
  {
    forall i | 0 <= i < 10
      ensures Ascii(KNOWN[i]) == ServerName(ServerAt(i)) && ServerFromName(Ascii(KNOWN[i])) == ServerAt(i)
    {
      ServersSpelled(i);
      ServerNameRoundTrip(ServerAt(i));
    }
    if !ServerFromName(raw).Other? {
      var i := PlaceOf(ServerFromName(raw));
      assert ServerAt(i) == ServerFromName(raw) && raw == ServerName(ServerAt(i));
    }
  }

  /** What may stand between the user and the `@`: nothing, or a separator and anything without an `@`. */
  predicate IsSuffix(s: Bytes) {
    AT !in s && (s == [] || s[0] == COLON || s[0] == UNDERSCORE)
  }

  /** What is cut off in front is a prefix, and the mark comes next. */
  lemma CutNext(s: Bytes, mark: Byte)
    ensures var a := Cut(s, mark).0; a <= s && (|a| < |s| ==> s[|a|] == mark)
  {
  }

  /** Every string with an `@` is a plain user, such a suffix and a server, in one way. */
  lemma Assembled(jid: Bytes) returns (user: Bytes, suffix: Bytes, raw: Bytes)
    requires AT in jid
    ensures Plain(user) && IsSuffix(suffix) && jid == user + suffix + [AT] + raw
  {
    var p := SplitOnce(jid, AT).value;
    raw := p.1;
    user, suffix := SplitUser(p.0);
    assert user + suffix == p.0;
  }

  lemma NotInParts(s: Bytes, n: nat, mark: Byte)
    requires n <= |s| && mark !in s
    ensures mark !in s[..n] && mark !in s[n..]
  {
  }

  lemma NextMark(s: Bytes, agent: Bytes, user: Bytes)
    requires user <= agent <= s
    requires |agent| < |s| ==> s[|agent|] == COLON
    requires |user| < |agent| ==> agent[|user|] == UNDERSCORE
    ensures |user| < |s| ==> s[|user|] == COLON || s[|user|] == UNDERSCORE
  {
  }

  lemma PlainPrefix(s: Bytes, agent: Bytes, user: Bytes)
    requires user <= agent <= s && AT !in s && COLON !in agent && UNDERSCORE !in user
    ensures Plain(user)
  {
    NotInParts(s, |user|, AT);
    NotInParts(agent, |user|, COLON);
    assert user == s[..|user|] && user == agent[..|user|];
  }

  lemma SplitUser(s: Bytes) returns (user: Bytes, suffix: Bytes)
    requires AT !in s
    ensures Plain(user) && IsSuffix(suffix) && s == user + suffix
  {
    var agent := Cut(s, COLON).0;
    user := Cut(agent, UNDERSCORE).0;
    CutNext(s, COLON);
    CutNext(agent, UNDERSCORE);
    suffix := s[|user|..];
    NextMark(s, agent, user);
    PlainPrefix(s, agent, user);
    NotInParts(s, |user|, AT);
  }

  lemma CutNothing(s: Bytes, mark: Byte)
    requires mark !in s
    ensures Cut(s, mark) == (s, None)
  {
  }

  lemma CutBoth(user: Bytes, rest: Bytes)
    requires Plain(user)
    ensures Cut(Cut(user + [UNDERSCORE] + rest, COLON).0, UNDERSCORE).0 == user
  {
    var s := user + [UNDERSCORE] + rest;
    var head := user + [UNDERSCORE];
    var c := Cut(rest, COLON);
    if c.1.Some? {
      assert s == head + c.0 + [COLON] + c.1.value;
      CutAt(head + c.0, COLON, c.1.value);
    } else {
      assert s == head + c.0;
      CutNothing(s, COLON);
    }
    assert head + c.0 == user + [UNDERSCORE] + c.0;
    CutAt(user, UNDERSCORE, c.0);
  }

  /** The user in front of a suffix. */
  lemma UserCut(user: Bytes, suffix: Bytes)
    requires Plain(user) && IsSuffix(suffix)
    ensures Cut(Cut(user + suffix, COLON).0, UNDERSCORE).0 == user
  {
    if suffix == [] {
      assert user + suffix == user;
      CutNothing(user, COLON);
      CutNothing(user, UNDERSCORE);
    } else if suffix[0] == COLON {
      assert user + suffix == user + [COLON] + suffix[1..];
      CutAt(user, COLON, suffix[1..]);
      CutNothing(user, UNDERSCORE);
    } else {
      assert user + suffix == user + [UNDERSCORE] + suffix[1..];
      CutBoth(user, suffix[1..]);
    }
  }

  /** The user, the server's text and the server that are found in such a string. */
  lemma ParsePieces(user: Bytes, suffix: Bytes, raw: Bytes)
    requires Plain(user) && IsSuffix(suffix)
    ensures var p := Parse(user + suffix + [AT] + raw);
            p.Some? && p.value.user == user && p.value.serverRaw == raw && p.value.server == ServerFromName(raw)
  {
    SplitOnceAt(user + suffix, AT, raw);
    UserCut(user, suffix);
  }

  /** The server's text after normalising. */
  function NormalServer(raw: Bytes): Bytes {
    if raw == Ascii("c.us") then Ascii("s.whatsapp.net")
    else if exists i :: 0 <= i < 10 && raw == Ascii(KNOWN[i]) then raw
    else []
  }

  lemma NormalServerIs(raw: Bytes)
    ensures var s := ServerFromName(raw); ServerName(if s.CUs? then SWhatsAppNet else s) == NormalServer(raw)
  {
    KnownIff(raw);
    ServersSpelled(0);
    ServersSpelled(3);
    var s := ServerFromName(raw);
    if !s.Other? {
      assert raw == ServerName(s);
      ServersSpelled(PlaceOf(s));
    }
  }

  /**
   Normalising: the user stays, what follows it up to the `@` goes, `c.us` becomes
   `s.whatsapp.net`, every other known server stays, and an unknown one is dropped.
   */
  lemma NormalizedSpelled(user: Bytes, suffix: Bytes, raw: Bytes)
    requires Plain(user) && IsSuffix(suffix)
    ensures NormalizedUser(user + suffix + [AT] + raw) == Some(user + [AT] + NormalServer(raw))
  {
    ParsePieces(user, suffix, raw);
    NormalServerIs(raw);
    assert user + [] + [] == user;
  }
}
