/** Login credentials and how a transaction stores them (crates/wa-core/src/auth.rs). */
module Credentials {
  import opened Prelude
  import opened Text
  import opened BigEndian
  import opened Store

  // ----- Fields ------------------------------------------------------------------

  /** The stored fields, in the order in which they are written. */
  datatype Field =
    | SchemaVersion
    | NoisePublic | NoisePrivate
    | PairingPublic | PairingPrivate
    | IdentityPublic | IdentityPrivate
    | PreKeyId | PreKeyPublic | PreKeyPrivate | PreKeySignature
    | RegistrationId | AdvSecret | NextPreKeyId | FirstUnuploaded | Registered
    | AccountJid | AccountLid | AccountName | AccountPlatform
    | SignatureKey | DeviceIdentity | PairingCode | RoutingInfo

  function Spelling(f: Field): string {
    match f
    case SchemaVersion => "schema-version"
    case NoisePublic => "noise-public"
    case NoisePrivate => "noise-private"
    case PairingPublic => "pairing-ephemeral-public"
    case PairingPrivate => "pairing-ephemeral-private"
    case IdentityPublic => "identity-public"
    case IdentityPrivate => "identity-private"
    case PreKeyId => "signed-pre-key-id"
    case PreKeyPublic => "signed-pre-key-public"
    case PreKeyPrivate => "signed-pre-key-private"
    case PreKeySignature => "signed-pre-key-signature"
    case RegistrationId => "registration-id"
    case AdvSecret => "adv-secret-key"
    case NextPreKeyId => "next-pre-key-id"
    case FirstUnuploaded => "first-unuploaded-pre-key-id"
    case Registered => "registered"
    case AccountJid => "account-jid"
    case AccountLid => "account-lid"
    case AccountName => "account-name"
    case AccountPlatform => "account-platform"
    case SignatureKey => "account-signature-key"
    case DeviceIdentity => "signed-device-identity"
    case PairingCode => "pairing-code"
    case RoutingInfo => "routing-info"
  }

  function KeyOf(f: Field): StoreKey {
    StoreKey(Store.Credentials, Ascii(Spelling(f)))
  }

  /** A field is known by the length of its name and at most two of its letters. */
  function FieldOf(s: Bytes): Field
    requires |s| > 8
  {
    var first, eighth, ninth := s[0] as int, s[7] as int, s[8] as int;
    if |s| == 10 then Registered
    else if |s| == 11 then (if ninth == 'j' as int then AccountJid else AccountLid)
    else if |s| == 12 then
      if first == 'n' as int then NoisePublic
      else if first == 'a' as int then AccountName
      else if first == 'p' as int then PairingCode
      else RoutingInfo
    else if |s| == 13 then NoisePrivate
    else if |s| == 14 then (if first == 's' as int then SchemaVersion else AdvSecret)
    else if |s| == 15 then
      if first == 'i' as int then IdentityPublic else if first == 'r' as int then RegistrationId else NextPreKeyId
    else if |s| == 16 then (if first == 'i' as int then IdentityPrivate else AccountPlatform)
    else if |s| == 17 then PreKeyId
    else if |s| == 21 then (if first == 's' as int then PreKeyPublic else SignatureKey)
    else if |s| == 22 then (if eighth == 'p' as int then PreKeyPrivate else DeviceIdentity)
    else if |s| == 24 then (if first == 'p' as int then PairingPublic else PreKeySignature)
    else if |s| == 25 then PairingPrivate
    else FirstUnuploaded
  }

  /** The part of the record that comes before the registration id. */
  predicate IsKeyField(f: Field) {
    || f.SchemaVersion? || f.NoisePublic? || f.NoisePrivate? || f.PairingPublic? || f.PairingPrivate?
    || f.IdentityPublic? || f.IdentityPrivate? || f.PreKeyId? || f.PreKeyPublic? || f.PreKeyPrivate?
    || f.PreKeySignature?
  }

  predicate Found(f: Field) {
    |Ascii(Spelling(f))| > 8 && FieldOf(Ascii(Spelling(f))) == f
  }

  lemma KeyFieldFound(f: Field)
    requires IsKeyField(f)
    ensures Found(f)
  {
  }

  lemma OtherFieldFound(f: Field)
    requires !IsKeyField(f)
    ensures Found(f)
  {
  }

  lemma FieldFound(f: Field)
    ensures Found(f)
  {
    if IsKeyField(f) {
      KeyFieldFound(f);
    } else {
      OtherFieldFound(f);
    }
  }

  lemma KeysDistinct(f: Field, g: Field)
    requires KeyOf(f) == KeyOf(g)
    ensures f == g
  {
    FieldFound(f);
    FieldFound(g);
  }

  // ----- The record ----------------------------------------------------------------

  type Key32 = b: Bytes | |b| == 32 witness seq(32, _ => 0)

  type U32 = n: nat | n < 0x1_0000_0000

  type TextString = b: Bytes | Utf8(b) witness []

  datatype KeyPair = KeyPair(public: Key32, private: Key32)

  datatype AuthCredentials = AuthCredentials(
    noise: KeyPair,
    pairing: KeyPair,
    identity: KeyPair,
    preKeyId: U32,
    preKey: KeyPair,
    preKeySignature: Bytes,
    registrationId: U32,
    advSecret: Key32,
    nextPreKeyId: U32,
    firstUnuploaded: U32,
    registered: bool,
    accountJid: Option<TextString>,
    accountLid: Option<TextString>,
    accountName: Option<TextString>,
    accountPlatform: Option<TextString>,
    signatureKey: Option<Bytes>,
    deviceIdentity: Option<Bytes>,
    pairingCode: Option<TextString>,
    routingInfo: Option<Bytes>)

  const SCHEMA: Bytes := [1]

  /** The bytes of each field; a field without bytes is deleted. */
  function FieldValue(c: AuthCredentials, f: Field): Option<Bytes> {
    match f
    case SchemaVersion => Some(SCHEMA)
    case NoisePublic => Some(c.noise.public)
    case NoisePrivate => Some(c.noise.private)
    case PairingPublic => Some(c.pairing.public)
    case PairingPrivate => Some(c.pairing.private)
    case IdentityPublic => Some(c.identity.public)
    case IdentityPrivate => Some(c.identity.private)
    case PreKeyId => Some(ToBytes(c.preKeyId, 4))
    case PreKeyPublic => Some(c.preKey.public)
    case PreKeyPrivate => Some(c.preKey.private)
    case PreKeySignature => Some(c.preKeySignature)
    case RegistrationId => Some(ToBytes(c.registrationId, 4))
    case AdvSecret => Some(c.advSecret)
    case NextPreKeyId => Some(ToBytes(c.nextPreKeyId, 4))
    case FirstUnuploaded => Some(ToBytes(c.firstUnuploaded, 4))
    case Registered => Some([if c.registered then 1 else 0])
    case AccountJid => c.accountJid
    case AccountLid => c.accountLid
    case AccountName => c.accountName
    case AccountPlatform => c.accountPlatform
    case SignatureKey => c.signatureKey
    case DeviceIdentity => c.deviceIdentity
    case PairingCode => c.pairingCode
    case RoutingInfo => c.routingInfo
  }

  // ----- Writing -------------------------------------------------------------------

  datatype FieldWrite = FieldWrite(field: Field, value: Option<Bytes>)

  function PairWrites(public: Field, private: Field, p: KeyPair): seq<FieldWrite> {
    [FieldWrite(public, Some(p.public)), FieldWrite(private, Some(p.private))]
  }

  function KeyWrites(c: AuthCredentials): seq<FieldWrite> {
    [FieldWrite(SchemaVersion, Some(SCHEMA))]
    + PairWrites(NoisePublic, NoisePrivate, c.noise)
    + PairWrites(PairingPublic, PairingPrivate, c.pairing)
    + PairWrites(IdentityPublic, IdentityPrivate, c.identity)
    + [FieldWrite(PreKeyId, Some(ToBytes(c.preKeyId, 4)))]
    + PairWrites(PreKeyPublic, PreKeyPrivate, c.preKey)
    + [FieldWrite(PreKeySignature, Some(c.preKeySignature))]
  }

  function NumberWrites(c: AuthCredentials): seq<FieldWrite> {
    [FieldWrite(RegistrationId, Some(ToBytes(c.registrationId, 4))),
     FieldWrite(AdvSecret, Some(c.advSecret)),
     FieldWrite(NextPreKeyId, Some(ToBytes(c.nextPreKeyId, 4))),
     FieldWrite(FirstUnuploaded, Some(ToBytes(c.firstUnuploaded, 4))),
     FieldWrite(Registered, Some([if c.registered then 1 else 0]))]
  }

  function OptionalWrites(c: AuthCredentials): seq<FieldWrite> {
    [FieldWrite(AccountJid, c.accountJid),
     FieldWrite(AccountLid, c.accountLid),
     FieldWrite(AccountName, c.accountName),
     FieldWrite(AccountPlatform, c.accountPlatform),
     FieldWrite(SignatureKey, c.signatureKey),
     FieldWrite(DeviceIdentity, c.deviceIdentity),
     FieldWrite(PairingCode, c.pairingCode),
     FieldWrite(RoutingInfo, c.routingInfo)]
  }

  /** What is written for a record, in order. */
  function Writes(c: AuthCredentials): seq<FieldWrite> {
    KeyWrites(c) + NumberWrites(c) + OptionalWrites(c)
  }

  /** A field is set, or deleted if there is nothing to set it to (`write_optional_tx`). */
  function WriteField(m: Contents, w: FieldWrite): Contents {
    if w.value.Some? then m[KeyOf(w.field) := w.value.value] else m - {KeyOf(w.field)}
  }

  function WriteFields(m: Contents, ws: seq<FieldWrite>): Contents
    decreases |ws|
  {
    if ws == [] then m else WriteFields(WriteField(m, ws[0]), ws[1..])
  }

  /** `write_credentials_to_tx` */
  function Write(m: Contents, c: AuthCredentials): Contents {
    WriteFields(m, Writes(c))
  }

  function Find(m: Contents, f: Field): Option<Bytes> {
    Lookup(m, Store.Credentials, KeyOf(f).key)
  }

  lemma WriteOneFind(m: Contents, w: FieldWrite, g: Field)
    ensures Find(WriteField(m, w), g) == (if w.field == g then w.value else Find(m, g))
  {
    if KeyOf(w.field) == KeyOf(g) {
      KeysDistinct(w.field, g);
    }
  }

  /** Writes of fields of one record. */
  predicate FromRecord(ws: seq<FieldWrite>, c: AuthCredentials) {
    forall i :: 0 <= i < |ws| ==> ws[i].value == FieldValue(c, ws[i].field)
  }

  lemma {:induction false} WriteFieldsFind(m: Contents, ws: seq<FieldWrite>, c: AuthCredentials, g: Field)
    requires FromRecord(ws, c)
    ensures Find(WriteFields(m, ws), g)
         == (if FieldWrite(g, FieldValue(c, g)) in ws then FieldValue(c, g) else Find(m, g))
    decreases |ws|
  {
    if ws != [] {
      WriteOneFind(m, ws[0], g);
      WriteFieldsFind(WriteField(m, ws[0]), ws[1..], c, g);
      assert ws == [ws[0]] + ws[1..];
    }
  }

  lemma KeyWritesListed(c: AuthCredentials, f: Field)
    ensures FromRecord(KeyWrites(c), c)
    ensures IsKeyField(f) ==> FieldWrite(f, FieldValue(c, f)) in KeyWrites(c)
  {
  }

  lemma NumberWritesListed(c: AuthCredentials, f: Field)
    ensures FromRecord(NumberWrites(c), c)
    ensures f.RegistrationId? || f.AdvSecret? || f.NextPreKeyId? || f.FirstUnuploaded? || f.Registered?
            ==> FieldWrite(f, FieldValue(c, f)) in NumberWrites(c)
  {
  }

  lemma OptionalWritesListed(c: AuthCredentials, f: Field)
    ensures FromRecord(OptionalWrites(c), c)
    ensures f.AccountJid? || f.AccountLid? || f.AccountName? || f.AccountPlatform? || f.SignatureKey?
            || f.DeviceIdentity? || f.PairingCode? || f.RoutingInfo?
            ==> FieldWrite(f, FieldValue(c, f)) in OptionalWrites(c)
  {
  }

  /** Every field is written, with the record's bytes. */
  lemma WritesListed(c: AuthCredentials, f: Field)
    ensures FromRecord(Writes(c), c) && FieldWrite(f, FieldValue(c, f)) in Writes(c)
  {
    KeyWritesListed(c, f);
    NumberWritesListed(c, f);
    OptionalWritesListed(c, f);
    InEither(KeyWrites(c), NumberWrites(c), c, FieldWrite(f, FieldValue(c, f)));
    InEither(KeyWrites(c) + NumberWrites(c), OptionalWrites(c), c, FieldWrite(f, FieldValue(c, f)));
  }

  lemma InEither(a: seq<FieldWrite>, b: seq<FieldWrite>, c: AuthCredentials, w: FieldWrite)
    requires FromRecord(a, c) && FromRecord(b, c)
    ensures FromRecord(a + b, c) && (w in a + b <==> w in a || w in b)
  {
  }

  /** Whatever the store held, after writing it holds exactly the record's bytes. */
  lemma WrittenFind(m: Contents, c: AuthCredentials, f: Field)
    ensures Find(Write(m, c), f) == FieldValue(c, f)
  {
    WritesListed(c, f);
    WriteFieldsFind(m, Writes(c), c, f);
  }

  lemma {:induction false} WriteFieldsApart(m: Contents, ws: seq<FieldWrite>, k: StoreKey)
    requires forall f :: k != KeyOf(f)
    ensures (k in WriteFields(m, ws) <==> k in m) && (k in m ==> WriteFields(m, ws)[k] == m[k])
    decreases |ws|
  {
    if ws != [] {
      WriteFieldsApart(WriteField(m, ws[0]), ws[1..], k);
    }
  }

  // ----- Reading -------------------------------------------------------------------

  datatype CredentialError =
    | UnsupportedSchema(version: Bytes)
    | MissingField(field: Field)
    | WrongLength(field: Field)
    | NotBoolean(field: Field)
    | NotUtf8(field: Field)

  type Read<+V> = Result<V, CredentialError>

  /** What a transaction finds under each field. */
  type View = Field -> Option<Bytes>

  function ViewOf(m: Contents): View {
    f => Find(m, f)
  }

  /** `read_required_tx` */
  function Required(v: View, f: Field): Read<Bytes> {
    if v(f).Some? then Ok(v(f).value) else Err(MissingField(f))
  }

  /** `read_exact_tx` for 32 bytes */
  function ReadKey(v: View, f: Field): Read<Key32> {
    var b :- Required(v, f);
    if |b| == 32 then Ok(b) else Err(WrongLength(f))
  }

  /** `read_u32_tx` */
  function ReadU32(v: View, f: Field): Read<U32> {
    var b :- Required(v, f);
    if |b| != 4 then Err(WrongLength(f))
    else
      FromBytesBound(b);
      WidthSizes();
      Ok(FromBytes(b))
  }

  /** `read_bool_tx` */
  function ReadBool(v: View, f: Field): Read<bool> {
    var b :- Required(v, f);
    if b == [0] then Ok(false) else if b == [1] then Ok(true) else Err(NotBoolean(f))
  }

  /** `read_key_pair_tx` */
  function ReadPair(v: View, public: Field, private: Field): Read<KeyPair> {
    var u :- ReadKey(v, public);
    var r :- ReadKey(v, private);
    Ok(KeyPair(u, r))
  }

  /** `read_optional_string_tx` */
  function ReadText(v: View, f: Field): Read<Option<TextString>> {
    match v(f)
    case None => Ok(None)
    case Some(b) => if Utf8(b) then Ok(Some(b)) else Err(NotUtf8(f))
  }

  datatype KeyPart = KeyPart(
    noise: KeyPair, pairing: KeyPair, identity: KeyPair, preKeyId: U32, preKey: KeyPair, preKeySignature: Bytes)

  function ReadKeyPart(v: View): Read<KeyPart> {
    var noise :- ReadPair(v, NoisePublic, NoisePrivate);
    var pairing :- ReadPair(v, PairingPublic, PairingPrivate);
    var identity :- ReadPair(v, IdentityPublic, IdentityPrivate);
    var preKeyId :- ReadU32(v, PreKeyId);
    var preKey :- ReadPair(v, PreKeyPublic, PreKeyPrivate);
    var signature :- Required(v, PreKeySignature);
    Ok(KeyPart(noise, pairing, identity, preKeyId, preKey, signature))
  }

  datatype NumberPart = NumberPart(
    registrationId: U32, advSecret: Key32, nextPreKeyId: U32, firstUnuploaded: U32, registered: bool)

  function ReadNumberPart(v: View): Read<NumberPart> {
    var registrationId :- ReadU32(v, RegistrationId);
    var advSecret :- ReadKey(v, AdvSecret);
    var nextPreKeyId :- ReadU32(v, NextPreKeyId);
    var firstUnuploaded :- ReadU32(v, FirstUnuploaded);
    var registered :- ReadBool(v, Registered);
    Ok(NumberPart(registrationId, advSecret, nextPreKeyId, firstUnuploaded, registered))
  }

  datatype TextPart = TextPart(
    accountJid: Option<TextString>,
    accountLid: Option<TextString>,
    accountName: Option<TextString>,
    accountPlatform: Option<TextString>,
    pairingCode: Option<TextString>)

  function ReadTextPart(v: View): Read<TextPart> {
    var jid :- ReadText(v, AccountJid);
    var lid :- ReadText(v, AccountLid);
    var name :- ReadText(v, AccountName);
    var platform :- ReadText(v, AccountPlatform);
    var code :- ReadText(v, PairingCode);
    Ok(TextPart(jid, lid, name, platform, code))
  }

  function Assemble(k: KeyPart, n: NumberPart, t: TextPart, signatureKey: Option<Bytes>, deviceIdentity: Option<Bytes>,
                    routingInfo: Option<Bytes>): AuthCredentials
  {
    AuthCredentials(k.noise, k.pairing, k.identity, k.preKeyId, k.preKey, k.preKeySignature,
                    n.registrationId, n.advSecret, n.nextPreKeyId, n.firstUnuploaded, n.registered,
                    t.accountJid, t.accountLid, t.accountName, t.accountPlatform, signatureKey, deviceIdentity,
                    t.pairingCode, routingInfo)
  }

  /** The parts in the order in which they are read: the first failure is the one reported. */
  function Combine(k: Read<KeyPart>, n: Read<NumberPart>, t: Read<TextPart>, signatureKey: Option<Bytes>,
                   deviceIdentity: Option<Bytes>, routingInfo: Option<Bytes>): Read<Option<AuthCredentials>>
  {
    var kp :- k;
    var np :- n;
    var tp :- t;
    Ok(Some(Assemble(kp, np, tp, signatureKey, deviceIdentity, routingInfo)))
  }

  function ReadView(v: View): Read<Option<AuthCredentials>> {
    match v(SchemaVersion)
    case None => Ok(None)
    case Some(version) =>
      if version != SCHEMA then Err(UnsupportedSchema(version))
      else Combine(ReadKeyPart(v), ReadNumberPart(v), ReadTextPart(v), v(SignatureKey), v(DeviceIdentity), v(RoutingInfo))
  }

  /** `read_credentials_from_tx`, and `load_credentials` outside a transaction */
  function ReadCredentials(m: Contents): Read<Option<AuthCredentials>> {
    ReadView(ViewOf(m))
  }

  // ----- A record and its parts ------------------------------------------------------

  function KeyPartOf(c: AuthCredentials): KeyPart {
    KeyPart(c.noise, c.pairing, c.identity, c.preKeyId, c.preKey, c.preKeySignature)
  }

  function NumberPartOf(c: AuthCredentials): NumberPart {
    NumberPart(c.registrationId, c.advSecret, c.nextPreKeyId, c.firstUnuploaded, c.registered)
  }

  function TextPartOf(c: AuthCredentials): TextPart {
    TextPart(c.accountJid, c.accountLid, c.accountName, c.accountPlatform, c.pairingCode)
  }

  // ----- Writing, then reading -----------------------------------------------------

  /** The view shows exactly the record. */
  ghost predicate Shows(v: View, c: AuthCredentials) {
    forall f :: v(f) == FieldValue(c, f)
  }

  lemma U32ReadBack(v: View, f: Field, n: U32)
    requires v(f) == Some(ToBytes(n, 4))
    ensures ReadU32(v, f) == Ok(n)
  {
    WidthSizes();
    RoundTrip(n, 4);
  }

  lemma PairReadBack(v: View, public: Field, private: Field, p: KeyPair)
    requires v(public) == Some(p.public) && v(private) == Some(p.private)
    ensures ReadPair(v, public, private) == Ok(p)
  {
  }

  lemma KeyPartReadBack(v: View, c: AuthCredentials)
    requires Shows(v, c)
    ensures ReadKeyPart(v) == Ok(KeyPartOf(c))
  {
    PairReadBack(v, NoisePublic, NoisePrivate, c.noise);
    PairReadBack(v, PairingPublic, PairingPrivate, c.pairing);
    PairReadBack(v, IdentityPublic, IdentityPrivate, c.identity);
    U32ReadBack(v, PreKeyId, c.preKeyId);
    PairReadBack(v, PreKeyPublic, PreKeyPrivate, c.preKey);
  }

  lemma NumberPartReadBack(v: View, c: AuthCredentials)
    requires Shows(v, c)
    ensures ReadNumberPart(v) == Ok(NumberPartOf(c))
  {
    U32ReadBack(v, RegistrationId, c.registrationId);
    U32ReadBack(v, NextPreKeyId, c.nextPreKeyId);
    U32ReadBack(v, FirstUnuploaded, c.firstUnuploaded);
  }

  lemma TextReadBack(v: View, f: Field, t: Option<TextString>)
    requires v(f) == t
    ensures ReadText(v, f) == Ok(t)
  {
  }

  lemma TextPartReadBack(v: View, c: AuthCredentials)
    requires Shows(v, c)
    ensures ReadTextPart(v) == Ok(TextPartOf(c))
  {
    TextReadBack(v, AccountJid, c.accountJid);
    TextReadBack(v, AccountLid, c.accountLid);
    TextReadBack(v, AccountName, c.accountName);
    TextReadBack(v, AccountPlatform, c.accountPlatform);
    TextReadBack(v, PairingCode, c.pairingCode);
  }

  lemma PartsMakeWhole(c: AuthCredentials)
    ensures Assemble(KeyPartOf(c), NumberPartOf(c), TextPartOf(c), c.signatureKey, c.deviceIdentity, c.routingInfo) == c
  {
  }

  lemma ViewCombines(v: View, k: KeyPart, n: NumberPart, t: TextPart)
    requires v(SchemaVersion) == Some(SCHEMA)
    requires ReadKeyPart(v) == Ok(k) && ReadNumberPart(v) == Ok(n) && ReadTextPart(v) == Ok(t)
    ensures ReadView(v) == Ok(Some(Assemble(k, n, t, v(SignatureKey), v(DeviceIdentity), v(RoutingInfo))))
  {
  }

  lemma PlainReadBack(v: View, c: AuthCredentials)
    requires Shows(v, c)
    ensures v(SchemaVersion) == Some(SCHEMA)
    ensures v(SignatureKey) == c.signatureKey && v(DeviceIdentity) == c.deviceIdentity && v(RoutingInfo) == c.routingInfo
  {
  }

  lemma PartsReadBack(v: View, c: AuthCredentials)
    requires v(SchemaVersion) == Some(SCHEMA)
    requires v(SignatureKey) == c.signatureKey && v(DeviceIdentity) == c.deviceIdentity && v(RoutingInfo) == c.routingInfo
    requires ReadKeyPart(v) == Ok(KeyPartOf(c)) && ReadNumberPart(v) == Ok(NumberPartOf(c))
    requires ReadTextPart(v) == Ok(TextPartOf(c))
    ensures ReadView(v) == Ok(Some(c))
  {
    PartsMakeWhole(c);
    ViewCombines(v, KeyPartOf(c), NumberPartOf(c), TextPartOf(c));
  }

  lemma ViewReadBack(v: View, c: AuthCredentials)
    requires Shows(v, c)
    ensures ReadView(v) == Ok(Some(c))
  {
    KeyPartReadBack(v, c);
    NumberPartReadBack(v, c);
    TextPartReadBack(v, c);
    PlainReadBack(v, c);
    PartsReadBack(v, c);
  }

  /** Over any prior contents, what was written is read back, absent fields included. */
  lemma WriteThenRead(m: Contents, c: AuthCredentials)
    ensures ReadCredentials(Write(m, c)) == Ok(Some(c))
  {
    forall f ensures ViewOf(Write(m, c))(f) == FieldValue(c, f) {
      WrittenFind(m, c, f);
    }
    ViewReadBack(ViewOf(Write(m, c)), c);
  }

  // ----- What is stored ------------------------------------------------------------

  /** What the store holds under a name. */
  function Under(m: Contents, name: string): Option<Bytes> {
    Lookup(m, Store.Credentials, Ascii(name))
  }

  /** The keys of a record, under their names. */
  ghost predicate KeysUnder(m: Contents, c: AuthCredentials) {
    && Under(m, "noise-public") == Some(c.noise.public)
    && Under(m, "noise-private") == Some(c.noise.private)
    && Under(m, "pairing-ephemeral-public") == Some(c.pairing.public)
    && Under(m, "pairing-ephemeral-private") == Some(c.pairing.private)
    && Under(m, "identity-public") == Some(c.identity.public)
    && Under(m, "identity-private") == Some(c.identity.private)
    && Under(m, "signed-pre-key-public") == Some(c.preKey.public)
    && Under(m, "signed-pre-key-private") == Some(c.preKey.private)
    && Under(m, "signed-pre-key-signature") == Some(c.preKeySignature)
    && Under(m, "adv-secret-key") == Some(c.advSecret)
  }

  /** The numbers of a record, and whether it is registered. */
  ghost predicate NumbersUnder(m: Contents, c: AuthCredentials) {
    && Under(m, "signed-pre-key-id") == Some(Four(c.preKeyId))
    && Under(m, "registration-id") == Some(Four(c.registrationId))
    && Under(m, "next-pre-key-id") == Some(Four(c.nextPreKeyId))
    && Under(m, "first-unuploaded-pre-key-id") == Some(Four(c.firstUnuploaded))
    && Under(m, "registered") == Some(if c.registered then [1] else [0])
  }

  /** What a record knows of the account, absent where it knows nothing. */
  ghost predicate AccountUnder(m: Contents, c: AuthCredentials) {
    && Under(m, "account-jid") == c.accountJid
    && Under(m, "account-lid") == c.accountLid
    && Under(m, "account-name") == c.accountName
    && Under(m, "account-platform") == c.accountPlatform
    && Under(m, "account-signature-key") == c.signatureKey
    && Under(m, "signed-device-identity") == c.deviceIdentity
    && Under(m, "pairing-code") == c.pairingCode
    && Under(m, "routing-info") == c.routingInfo
  }

  /** The store holds exactly this record, in the format of version 1. */
  ghost predicate Holds(m: Contents, c: AuthCredentials) {
    Under(m, "schema-version") == Some([1]) && KeysUnder(m, c) && NumbersUnder(m, c) && AccountUnder(m, c)
  }

  /** A field is what the store holds under its name. */
  lemma FieldUnder(m: Contents, f: Field, name: string)
    requires Spelling(f) == name
    ensures ViewOf(m)(f) == Under(m, name)
  {
  }

  // Every field under its name.

  lemma NoiseNames(m: Contents)
    ensures ViewOf(m)(NoisePublic) == Under(m, "noise-public")
    ensures ViewOf(m)(NoisePrivate) == Under(m, "noise-private")
  {
    FieldUnder(m, NoisePublic, "noise-public");
    FieldUnder(m, NoisePrivate, "noise-private");
  }

  lemma PairingNames(m: Contents)
    ensures ViewOf(m)(PairingPublic) == Under(m, "pairing-ephemeral-public")
    ensures ViewOf(m)(PairingPrivate) == Under(m, "pairing-ephemeral-private")
  {
    FieldUnder(m, PairingPublic, "pairing-ephemeral-public");
    FieldUnder(m, PairingPrivate, "pairing-ephemeral-private");
  }

  lemma IdentityNames(m: Contents)
    ensures ViewOf(m)(IdentityPublic) == Under(m, "identity-public")
    ensures ViewOf(m)(IdentityPrivate) == Under(m, "identity-private")
  {
    FieldUnder(m, IdentityPublic, "identity-public");
    FieldUnder(m, IdentityPrivate, "identity-private");
  }

  lemma PreKeyNames(m: Contents)
    ensures ViewOf(m)(PreKeyId) == Under(m, "signed-pre-key-id")
    ensures ViewOf(m)(PreKeyPublic) == Under(m, "signed-pre-key-public")
    ensures ViewOf(m)(PreKeyPrivate) == Under(m, "signed-pre-key-private")
  {
    FieldUnder(m, PreKeyId, "signed-pre-key-id");
    FieldUnder(m, PreKeyPublic, "signed-pre-key-public");
    FieldUnder(m, PreKeyPrivate, "signed-pre-key-private");
  }

  lemma SecretNames(m: Contents)
    ensures ViewOf(m)(PreKeySignature) == Under(m, "signed-pre-key-signature")
    ensures ViewOf(m)(AdvSecret) == Under(m, "adv-secret-key")
  {
    FieldUnder(m, PreKeySignature, "signed-pre-key-signature");
    FieldUnder(m, AdvSecret, "adv-secret-key");
  }

  lemma NumberNames(m: Contents)
    ensures ViewOf(m)(SchemaVersion) == Under(m, "schema-version")
    ensures ViewOf(m)(RegistrationId) == Under(m, "registration-id")
  {
    FieldUnder(m, SchemaVersion, "schema-version");
    FieldUnder(m, RegistrationId, "registration-id");
  }

  lemma CounterNames(m: Contents)
    ensures ViewOf(m)(NextPreKeyId) == Under(m, "next-pre-key-id")
    ensures ViewOf(m)(FirstUnuploaded) == Under(m, "first-unuploaded-pre-key-id")
    ensures ViewOf(m)(Registered) == Under(m, "registered")
  {
    FieldUnder(m, NextPreKeyId, "next-pre-key-id");
    FieldUnder(m, FirstUnuploaded, "first-unuploaded-pre-key-id");
    FieldUnder(m, Registered, "registered");
  }

  lemma AccountNames(m: Contents)
    ensures ViewOf(m)(AccountJid) == Under(m, "account-jid")
    ensures ViewOf(m)(AccountLid) == Under(m, "account-lid")
  {
    FieldUnder(m, AccountJid, "account-jid");
    FieldUnder(m, AccountLid, "account-lid");
  }

  lemma ProfileNames(m: Contents)
    ensures ViewOf(m)(AccountName) == Under(m, "account-name")
    ensures ViewOf(m)(AccountPlatform) == Under(m, "account-platform")
  {
    FieldUnder(m, AccountName, "account-name");
    FieldUnder(m, AccountPlatform, "account-platform");
  }

  lemma DeviceNames(m: Contents)
    ensures ViewOf(m)(SignatureKey) == Under(m, "account-signature-key")
    ensures ViewOf(m)(DeviceIdentity) == Under(m, "signed-device-identity")
  {
    FieldUnder(m, SignatureKey, "account-signature-key");
    FieldUnder(m, DeviceIdentity, "signed-device-identity");
  }

  lemma OtherNames(m: Contents)
    ensures ViewOf(m)(PairingCode) == Under(m, "pairing-code")
    ensures ViewOf(m)(RoutingInfo) == Under(m, "routing-info")
  {
    FieldUnder(m, PairingCode, "pairing-code");
    FieldUnder(m, RoutingInfo, "routing-info");
  }

  ghost predicate KeysShown(v: View, c: AuthCredentials) {
    && v(NoisePublic) == Some(c.noise.public) && v(NoisePrivate) == Some(c.noise.private)
    && v(PairingPublic) == Some(c.pairing.public) && v(PairingPrivate) == Some(c.pairing.private)
    && v(IdentityPublic) == Some(c.identity.public) && v(IdentityPrivate) == Some(c.identity.private)
    && v(PreKeyPublic) == Some(c.preKey.public) && v(PreKeyPrivate) == Some(c.preKey.private)
    && v(PreKeySignature) == Some(c.preKeySignature) && v(AdvSecret) == Some(c.advSecret)
  }

  ghost predicate NumbersShown(v: View, c: AuthCredentials) {
    && v(PreKeyId) == Some(ToBytes(c.preKeyId, 4)) && v(RegistrationId) == Some(ToBytes(c.registrationId, 4))
    && v(NextPreKeyId) == Some(ToBytes(c.nextPreKeyId, 4)) && v(FirstUnuploaded) == Some(ToBytes(c.firstUnuploaded, 4))
    && v(Registered) == Some(if c.registered then [1] else [0])
  }

  ghost predicate AccountShown(v: View, c: AuthCredentials) {
    && v(AccountJid) == c.accountJid && v(AccountLid) == c.accountLid && v(AccountName) == c.accountName
    && v(AccountPlatform) == c.accountPlatform && v(SignatureKey) == c.signatureKey
    && v(DeviceIdentity) == c.deviceIdentity && v(PairingCode) == c.pairingCode && v(RoutingInfo) == c.routingInfo
  }

  lemma KeysUnderShown(m: Contents, c: AuthCredentials)
    ensures KeysUnder(m, c) <==> KeysShown(ViewOf(m), c)
  {
    NoiseNames(m);
    PairingNames(m);
    IdentityNames(m);
    PreKeyNames(m);
    SecretNames(m);
  }

  lemma NumbersUnderShown(m: Contents, c: AuthCredentials)
    ensures NumbersUnder(m, c) <==> NumbersShown(ViewOf(m), c)
  {
    PreKeyNames(m);
    NumberNames(m);
    CounterNames(m);
    FourAre(c.preKeyId);
    FourAre(c.registrationId);
    FourAre(c.nextPreKeyId);
    FourAre(c.firstUnuploaded);
  }

  lemma AccountUnderShown(m: Contents, c: AuthCredentials)
    ensures AccountUnder(m, c) <==> AccountShown(ViewOf(m), c)
  {
    AccountNames(m);
    ProfileNames(m);
    DeviceNames(m);
    OtherNames(m);
  }

  /** The parts of a view that shows a record. */
  ghost predicate PartsShown(v: View, c: AuthCredentials) {
    v(SchemaVersion) == Some(SCHEMA) && KeysShown(v, c) && NumbersShown(v, c) && AccountShown(v, c)
  }

  lemma KeyFieldShown(v: View, c: AuthCredentials, f: Field)
    requires PartsShown(v, c) && IsKeyField(f)
    ensures v(f) == FieldValue(c, f)
  {
  }

  lemma OtherFieldShown(v: View, c: AuthCredentials, f: Field)
    requires PartsShown(v, c) && !IsKeyField(f)
    ensures v(f) == FieldValue(c, f)
  {
  }

  lemma PartsShow(v: View, c: AuthCredentials)
    requires PartsShown(v, c)
    ensures Shows(v, c)
  {
    forall f ensures v(f) == FieldValue(c, f) {
      if IsKeyField(f) {
        KeyFieldShown(v, c, f);
      } else {
        OtherFieldShown(v, c, f);
      }
    }
  }

  lemma ShowsParts(v: View, c: AuthCredentials)
    requires Shows(v, c)
    ensures PartsShown(v, c)
  {
    ShowsKeys(v, c);
    ShowsNumbers(v, c);
    ShowsAccount(v, c);
  }

  lemma ShowsKeys(v: View, c: AuthCredentials)
    requires Shows(v, c)
    ensures v(SchemaVersion) == Some(SCHEMA) && KeysShown(v, c)
  {
  }

  lemma ShowsNumbers(v: View, c: AuthCredentials)
    requires Shows(v, c)
    ensures NumbersShown(v, c)
  {
  }

  lemma ShowsAccount(v: View, c: AuthCredentials)
    requires Shows(v, c)
    ensures AccountShown(v, c)
  {
  }

  lemma HoldsParts(m: Contents, c: AuthCredentials)
    ensures Holds(m, c) <==> PartsShown(ViewOf(m), c)
  {
    NumberNames(m);
    KeysUnderShown(m, c);
    NumbersUnderShown(m, c);
    AccountUnderShown(m, c);
  }

  /** Writing a record leaves exactly its bytes under the names of its fields, whatever was there. */
  lemma WrittenUnder(m: Contents, c: AuthCredentials)
    ensures Holds(Write(m, c), c)
  {
    forall f ensures ViewOf(Write(m, c))(f) == FieldValue(c, f) {
      WrittenFind(m, c, f);
    }
    ShowsParts(ViewOf(Write(m, c)), c);
    HoldsParts(Write(m, c), c);
  }

  // ----- Reading, then comparing ---------------------------------------------------

  lemma U32Shown(v: View, f: Field)
    requires ReadU32(v, f).Ok?
    ensures v(f) == Some(ToBytes(ReadU32(v, f).value, 4))
  {
    BytesRoundTrip(v(f).value);
  }

  lemma KeyPartShown(v: View, k: KeyPart)
    requires ReadKeyPart(v) == Ok(k)
    ensures v(NoisePublic) == Some(k.noise.public) && v(NoisePrivate) == Some(k.noise.private)
    ensures v(PairingPublic) == Some(k.pairing.public) && v(PairingPrivate) == Some(k.pairing.private)
    ensures v(IdentityPublic) == Some(k.identity.public) && v(IdentityPrivate) == Some(k.identity.private)
    ensures v(PreKeyPublic) == Some(k.preKey.public) && v(PreKeyPrivate) == Some(k.preKey.private)
    ensures v(PreKeyId) == Some(ToBytes(k.preKeyId, 4)) && v(PreKeySignature) == Some(k.preKeySignature)
  {
    U32Shown(v, PreKeyId);
  }

  lemma NumberPartShown(v: View, n: NumberPart)
    requires ReadNumberPart(v) == Ok(n)
    ensures v(RegistrationId) == Some(ToBytes(n.registrationId, 4)) && v(AdvSecret) == Some(n.advSecret)
    ensures v(NextPreKeyId) == Some(ToBytes(n.nextPreKeyId, 4))
    ensures v(FirstUnuploaded) == Some(ToBytes(n.firstUnuploaded, 4))
    ensures v(Registered) == Some(if n.registered then [1] else [0])
  {
    U32Shown(v, RegistrationId);
    U32Shown(v, NextPreKeyId);
    U32Shown(v, FirstUnuploaded);
  }

  lemma TextPartShown(v: View, t: TextPart)
    requires ReadTextPart(v) == Ok(t)
    ensures v(AccountJid) == t.accountJid && v(AccountLid) == t.accountLid && v(AccountName) == t.accountName
    ensures v(AccountPlatform) == t.accountPlatform && v(PairingCode) == t.pairingCode
  {
  }

  lemma ViewParts(v: View, c: AuthCredentials)
    requires ReadView(v) == Ok(Some(c))
    ensures v(SchemaVersion) == Some(SCHEMA)
    ensures ReadKeyPart(v) == Ok(KeyPartOf(c)) && ReadNumberPart(v) == Ok(NumberPartOf(c))
    ensures ReadTextPart(v) == Ok(TextPartOf(c))
    ensures v(SignatureKey) == c.signatureKey && v(DeviceIdentity) == c.deviceIdentity && v(RoutingInfo) == c.routingInfo
  {
  }

  lemma ReadShows(v: View, c: AuthCredentials)
    requires ReadView(v) == Ok(Some(c))
    ensures PartsShown(v, c)
  {
    ViewParts(v, c);
    KeyPartShown(v, KeyPartOf(c));
    NumberPartShown(v, NumberPartOf(c));
    TextPartShown(v, TextPartOf(c));
  }

  /** A record is read if and only if the store holds exactly its bytes. */
  lemma ReadIff(m: Contents, c: AuthCredentials)
    ensures ReadCredentials(m) == Ok(Some(c)) <==> Holds(m, c)
  {
    HoldsParts(m, c);
    if Holds(m, c) {
      PartsShow(ViewOf(m), c);
      ViewReadBack(ViewOf(m), c);
    }
    if ReadCredentials(m) == Ok(Some(c)) {
      ReadShows(ViewOf(m), c);
    }
  }

  // ----- When reading fails --------------------------------------------------------

  /** A field of so many bytes is there. */
  predicate Sized(m: Contents, name: string, len: nat) {
    Under(m, name).Some? && |Under(m, name).value| == len
  }

  predicate Textual(m: Contents, name: string) {
    Under(m, name).Some? ==> Utf8(Under(m, name).value)
  }

  predicate KeysComplete(m: Contents) {
    && Sized(m, "noise-public", 32) && Sized(m, "noise-private", 32)
    && Sized(m, "pairing-ephemeral-public", 32) && Sized(m, "pairing-ephemeral-private", 32)
    && Sized(m, "identity-public", 32) && Sized(m, "identity-private", 32)
    && Sized(m, "signed-pre-key-id", 4)
    && Sized(m, "signed-pre-key-public", 32) && Sized(m, "signed-pre-key-private", 32)
    && Under(m, "signed-pre-key-signature").Some?
  }

  predicate NumbersComplete(m: Contents) {
    && Sized(m, "registration-id", 4) && Sized(m, "adv-secret-key", 32)
    && Sized(m, "next-pre-key-id", 4) && Sized(m, "first-unuploaded-pre-key-id", 4)
    && (Under(m, "registered") == Some([0]) || Under(m, "registered") == Some([1]))
  }

  predicate TextsComplete(m: Contents) {
    && Textual(m, "account-jid") && Textual(m, "account-lid") && Textual(m, "account-name")
    && Textual(m, "account-platform") && Textual(m, "pairing-code")
  }

  lemma KeysReadIff(m: Contents)
    ensures ReadKeyPart(ViewOf(m)).Ok? <==> KeysComplete(m)
  {
    NoiseNames(m);
    PairingNames(m);
    IdentityNames(m);
    PreKeyNames(m);
    SecretNames(m);
  }

  lemma NumbersReadIff(m: Contents)
    ensures ReadNumberPart(ViewOf(m)).Ok? <==> NumbersComplete(m)
  {
    SecretNames(m);
    NumberNames(m);
    CounterNames(m);
  }

  lemma TextsReadIff(m: Contents)
    ensures ReadTextPart(ViewOf(m)).Ok? <==> TextsComplete(m)
  {
    AccountNames(m);
    ProfileNames(m);
    OtherNames(m);
  }

  /**
   Reading fails exactly when a schema version is stored that is not 1, or when it is 1
   and a field is missing, has a wrong size, is no boolean or is not UTF-8; and it
   finds nothing exactly when no schema version is stored.
   */
  lemma ReadFailsIff(m: Contents)
    ensures var version := Under(m, "schema-version");
            && (ReadCredentials(m).Err? <==>
                  version.Some? && (version.value != [1] || !KeysComplete(m) || !NumbersComplete(m) || !TextsComplete(m)))
            && (ReadCredentials(m) == Ok(None) <==> version.None?)
            && (version.Some? && version.value != [1] ==> ReadCredentials(m) == Err(UnsupportedSchema(version.value)))
  {
    NumberNames(m);
    KeysReadIff(m);
    NumbersReadIff(m);
    TextsReadIff(m);
  }

  // ----- Loading or initialising ---------------------------------------------------

  datatype CredentialLoad = CredentialLoad(credentials: AuthCredentials, initialized: bool)

  datatype LoadResult = LoadResult(m: Contents, load: Read<CredentialLoad>)

  /** `load_or_init_credentials`: one transaction, given credentials generated beforehand */
  function LoadOrInit(m: Contents, generated: AuthCredentials): LoadResult {
    match ReadCredentials(m)
    case Err(e) => LoadResult(m, Err(e))
    case Ok(Some(c)) => LoadResult(m, Ok(CredentialLoad(c, false)))
    case Ok(None) => LoadResult(Write(m, generated), Ok(CredentialLoad(generated, true)))
  }

  /** Calls one after another, each with credentials of its own. */
  function Calls(m: Contents, gs: seq<AuthCredentials>): (r: seq<Read<CredentialLoad>>)
    ensures |r| == |gs|
    decreases |gs|
  {
    if gs == [] then [] else [LoadOrInit(m, gs[0]).load] + Calls(LoadOrInit(m, gs[0]).m, gs[1..])
  }

  lemma {:induction false} CallsLoad(m: Contents, gs: seq<AuthCredentials>, c: AuthCredentials, i: nat)
    requires ReadCredentials(m) == Ok(Some(c)) && i < |gs|
    ensures Calls(m, gs)[i] == Ok(CredentialLoad(c, false))
    decreases |gs|
  {
    if i > 0 {
      CallsLoad(m, gs[1..], c, i - 1);
    }
  }

  lemma LaterCalls(m: Contents, g: AuthCredentials, rest: seq<AuthCredentials>, i: nat)
    requires i < |rest|
    ensures Calls(Write(m, g), rest)[i] == Ok(CredentialLoad(g, false))
  {
    WriteThenRead(m, g);
    CallsLoad(Write(m, g), rest, g, i);
  }

  lemma FirstInitialises(m: Contents, g: AuthCredentials)
    requires ViewOf(m)(SchemaVersion).None?
    ensures LoadOrInit(m, g) == LoadResult(Write(m, g), Ok(CredentialLoad(g, true)))
  {
  }

  lemma CallsStep(m: Contents, gs: seq<AuthCredentials>, i: nat, first: LoadResult)
    requires i < |gs| && LoadOrInit(m, gs[0]) == first
    ensures Calls(m, gs)[i] == (if i == 0 then first.load else Calls(first.m, gs[1..])[i - 1])
  {
  }

  /**
   On a store without credentials, whatever else it holds, only the first of any
   number of calls initialises, and all of them return what it generated.
   */
  lemma OnlyFirstInitialises(m: Contents, gs: seq<AuthCredentials>, i: nat)
    requires ViewOf(m)(SchemaVersion).None? && i < |gs|
    ensures Calls(m, gs)[i] == Ok(CredentialLoad(gs[0], i == 0))
  {
    FirstInitialises(m, gs[0]);
    CallsStep(m, gs, i, LoadResult(Write(m, gs[0]), Ok(CredentialLoad(gs[0], true))));
    if i > 0 {
      LaterCalls(m, gs[0], gs[1..], i - 1);
    }
  }

  // ----- As transactions on a store --------------------------------------------------

  method WriteToTransaction(tx: Transaction, c: AuthCredentials)
    modifies tx
    ensures tx.entries == Write(old(tx.entries), c)
  {
    var ws := Writes(c);
    assert ws[0..] == ws;
    for i := 0 to |ws|
      invariant WriteFields(old(tx.entries), ws) == WriteFields(tx.entries, ws[i..])
    {
      assert ws[i..][1..] == ws[i + 1..];
      if ws[i].value.Some? {
        tx.Set(Store.Credentials, KeyOf(ws[i].field).key, ws[i].value.value);
      } else {
        tx.Delete(Store.Credentials, KeyOf(ws[i].field).key);
      }
    }
  }

  /** `save_credentials` */
  method Save(store: AuthStore, c: AuthCredentials)
    modifies store
    ensures store.entries == Write(old(store.entries), c)
    ensures Holds(store.entries, c) && ReadCredentials(store.entries) == Ok(Some(c))
  {
    var tx := new Transaction(store.entries);
    WriteToTransaction(tx, c);
    store.entries := tx.entries;
    WrittenUnder(old(store.entries), c);
    ReadIff(store.entries, c);
  }

  /** `load_or_init_credentials`: a failed read leaves the store as it was. */
  method LoadOrInitialise(store: AuthStore, generated: AuthCredentials) returns (r: Read<CredentialLoad>)
    modifies store
    ensures LoadResult(store.entries, r) == LoadOrInit(old(store.entries), generated)
    ensures r.Err? <==> ReadCredentials(old(store.entries)).Err?
    ensures r.Err? ==> store.entries == old(store.entries) && r.error == ReadCredentials(old(store.entries)).error
    ensures forall c :: Holds(old(store.entries), c) ==> store.entries == old(store.entries) && r == Ok(CredentialLoad(c, false))
    ensures Under(old(store.entries), "schema-version").None? ==>
              r == Ok(CredentialLoad(generated, true)) && Holds(store.entries, generated)
    ensures r.Ok? ==> Holds(store.entries, r.value.credentials)
  {
    var tx := new Transaction(store.entries);
    var found := ReadCredentials(tx.entries);
    ReadFailsIff(store.entries);
    forall c ensures ReadCredentials(store.entries) == Ok(Some(c)) <==> Holds(store.entries, c) {
      ReadIff(store.entries, c);
    }
    if found.Err? {
      return Err(found.error);
    }
    if found.value.Some? {
      r := Ok(CredentialLoad(found.value.value, false));
    } else {
      WriteToTransaction(tx, generated);
      WrittenUnder(store.entries, generated);
      r := Ok(CredentialLoad(generated, true));
    }
    store.entries := tx.entries;
  }
}
