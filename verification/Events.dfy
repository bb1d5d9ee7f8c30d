/** Events derived from decoded app-state mutations (crates/wa-core/src/app_state.rs). */
module Events {
  import opened Prelude
  import opened Text
  import opened AppCrypto
  import Jid

  datatype ContactAction = ContactAction(
    fullName: Option<Bytes>,
    firstName: Option<Bytes>,
    username: Option<Bytes>,
    lidJid: Option<Bytes>,
    pnJid: Option<Bytes>)

  datatype QuickReplyAction = QuickReplyAction(
    shortcut: Option<Bytes>,
    message: Option<Bytes>,
    keywords: seq<Bytes>,
    count: Option<int>,
    deleted: Option<bool>)

  datatype LabelEditAction = LabelEditAction(
    name: Option<Bytes>,
    color: Option<int>,
    predefinedId: Option<int>,
    deleted: Option<bool>,
    orderIndex: Option<int>,
    isActive: Option<bool>,
    listType: Option<int>,
    isImmutable: Option<bool>,
    muteEndTimeMs: Option<int>)

  datatype MuteAction = MuteAction(muted: Option<bool>, muteEndTimestamp: Option<int>)

  /** An optional boolean inside an optional action. */
  type FlagAction = Option<Option<bool>>

  /** The actions a mutation can carry; the first one present, in this order, is reported. */
  datatype ActionValue = ActionValue(
    timestamp: Option<int>,
    contact: Option<ContactAction>,
    quickReply: Option<QuickReplyAction>,
    labelEdit: Option<LabelEditAction>,
    labelAssociation: FlagAction,
    archive: FlagAction,
    markRead: FlagAction,
    mute: Option<MuteAction>,
    pin: FlagAction,
    deleteChat: bool,
    star: FlagAction)

  datatype ActionData = ActionData(
    index: Option<Bytes>,
    value: Option<ActionValue>,
    padding: Option<Bytes>,
    version: Option<int>)

  datatype Field =
    | Archived | UnreadCount | Muted | MuteEndTimestamp | Pinned | Starred
    | Name | Username | LidField | PhoneNumber
    | Shortcut | MessageText | Keywords | CountField | Deleted
    | Color | PredefinedId | OrderIndex | IsActive | ListType | IsImmutable | MuteEndTimeMs

  /** A field value before it is printed. */
  datatype FieldValue = Flag(bool) | Number(int) | TextValue(Bytes) | Words(seq<Bytes>)

  type Fields = map<Field, FieldValue>

  datatype Event = Event(id: Bytes, fields: Fields)

  datatype StarEvent = StarEvent(chat: Bytes, message: Bytes, fields: Fields)

  datatype AssociationEvent = AssociationEvent(labelId: Bytes, chat: Bytes, message: Option<Bytes>, labeled: bool)

  /** The lists of an event batch that app-state mutations can fill. */
  datatype Batch = Batch(
    chatsUpdate: seq<Event>,
    chatsDelete: seq<Bytes>,
    contactsUpsert: seq<Event>,
    contactsDelete: seq<Bytes>,
    quickReplies: seq<Event>,
    labelsEdit: seq<Event>,
    labelsAssociation: seq<AssociationEvent>,
    messagesUpdate: seq<StarEvent>)

  const NO_EVENTS: Batch := Batch([], [], [], [], [], [], [], [])

  datatype EventError = MissingActionValue | MissingIndexPart | BlankIndexPart | InvalidJid | UnknownAssociation

  /** One batch after another, list by list. */
  function Join(a: Batch, b: Batch): Batch {
    Batch(a.chatsUpdate + b.chatsUpdate,
          a.chatsDelete + b.chatsDelete,
          a.contactsUpsert + b.contactsUpsert,
          a.contactsDelete + b.contactsDelete,
          a.quickReplies + b.quickReplies,
          a.labelsEdit + b.labelsEdit,
          a.labelsAssociation + b.labelsAssociation,
          a.messagesUpdate + b.messagesUpdate)
  }

  // ----- Checks --------------------------------------------------------------

  /** Length of the white-space character that starts `s`, or 0. */
  function SpaceLength(s: Bytes): (n: nat)
    ensures n <= |s|
  {
    if s == [] then 0
    else if 0x09 <= s[0] <= 0x0D || s[0] == 0x20 then 1
    else if |s| >= 2 && s[0] == 0xC2 && (s[1] == 0x85 || s[1] == 0xA0) then 2
    else if |s| >= 3
            && (|| (s[0] == 0xE1 && s[1] == 0x9A && s[2] == 0x80)
                || (s[0] == 0xE2 && s[1] == 0x80
                    && (0x80 <= s[2] <= 0x8A || s[2] == 0xA8 || s[2] == 0xA9 || s[2] == 0xAF))
                || (s[0] == 0xE2 && s[1] == 0x81 && s[2] == 0x9F)
                || (s[0] == 0xE3 && s[1] == 0x80 && s[2] == 0x80))
    then 3
    else 0
  }

  /** `str::trim` leaves nothing. */
  predicate Blank(s: Bytes)
    decreases |s|
  {
    s == [] || (SpaceLength(s) > 0 && Blank(s[SpaceLength(s)..]))
  }

  /** `required_index_value` */
  function IndexValue(index: seq<Bytes>, position: nat): Result<Bytes, EventError> {
    if position >= |index| then Err(MissingIndexPart)
    else if Blank(index[position]) then Err(BlankIndexPart)
    else Ok(index[position])
  }

  /** `validate_jid` */
  function CheckJid(jid: Bytes): Result<Bytes, EventError> {
    if Jid.Parse(jid).None? then Err(InvalidJid) else Ok(jid)
  }

  function CheckOptional(jid: Option<Bytes>): Result<Option<Bytes>, EventError> {
    match jid
    case None => Ok(None)
    case Some(j) =>
      var checked :- CheckJid(j);
      Ok(Some(checked))
  }

  /** `required_index_jid` */
  function IndexJid(index: seq<Bytes>, position: nat): Result<Bytes, EventError> {
    var jid :- IndexValue(index, position);
    CheckJid(jid)
  }

  /** `first_non_empty` */
  function FirstNonBlank(values: seq<Option<Bytes>>): Option<Bytes> {
    if values == [] then None
    else if values[0].Some? && !Blank(values[0].value) then values[0]
    else FirstNonBlank(values[1..])
  }

  function With<V>(fields: Fields, key: Field, value: Option<V>, wrap: V -> FieldValue): Fields {
    if value.Some? then fields[key := wrap(value.value)] else fields
  }

  function NonEmpty(s: Option<Bytes>): Option<Bytes> {
    if s.Some? && s.value != [] then s else None
  }

  function OrFalse(flag: Option<bool>): bool {
    flag.Some? && flag.value
  }

  // ----- One event -----------------------------------------------------------

  type Derived = Result<Batch, EventError>

  /** `contact_phone_number` */
  function PhoneNumberOf(jid: Bytes, pnJid: Option<Bytes>): Result<Option<Bytes>, EventError> {
    match Jid.Parse(jid)
    case None => Err(InvalidJid)
    case Some(d) =>
      if d.server.SWhatsAppNet? || d.server.CUs? then Ok(Some(jid))
      else if pnJid.Some? && !Blank(pnJid.value) then
        var pn :- CheckJid(pnJid.value);
        Ok(Some(pn))
      else Ok(None)
  }

  function ContactFields(name: Option<Bytes>, username: Option<Bytes>, lid: Option<Bytes>, phone: Option<Bytes>): Fields {
    var f0 := With(map[], Name, name, s => TextValue(s));
    var f1 := With(f0, Username, username, s => TextValue(s));
    var f2 := With(f1, LidField, lid, s => TextValue(s));
    With(f2, PhoneNumber, phone, s => TextValue(s))
  }

  /** `push_contact_sync_event` */
  function ContactEvents(op: Operation, index: seq<Bytes>, a: ContactAction): (r: Derived)
    ensures r.Ok? ==> r.value.chatsDelete == []
  {
    var jid :- IndexJid(index, 1);
    if op.Remove? then Ok(NO_EVENTS.(contactsDelete := [jid]))
    else
      var name := FirstNonBlank([a.fullName, a.firstName, a.username]);
      var lid := NonEmpty(a.lidJid);
      var checkedLid :- CheckOptional(lid);
      var phone :- PhoneNumberOf(jid, a.pnJid);
      Ok(NO_EVENTS.(contactsUpsert := [Event(jid, ContactFields(name, NonEmpty(a.username), checkedLid, phone))]))
  }

  function ReplyFields(a: QuickReplyAction): Fields {
    var f0 := With(map[], Shortcut, a.shortcut, s => TextValue(s));
    var f1 := With(f0, MessageText, a.message, s => TextValue(s));
    var f2 := if a.keywords != [] then f1[Keywords := Words(a.keywords)] else f1;
    var f3 := With(f2, CountField, a.count, n => Number(n));
    With(f3, Deleted, a.deleted, b => Flag(b))
  }

  /** `push_quick_reply_sync_event` */
  function QuickReplyEvents(index: seq<Bytes>, a: QuickReplyAction): (r: Derived)
    ensures r.Ok? ==> r.value.chatsDelete == []
  {
    var id :- IndexValue(index, 1);
    Ok(NO_EVENTS.(quickReplies := [Event(id, ReplyFields(a))]))
  }

  function LabelLook(a: LabelEditAction): Fields {
    var f0 := With(map[], Name, a.name, s => TextValue(s));
    var f1 := With(f0, Color, a.color, n => Number(n));
    var f2 := With(f1, PredefinedId, a.predefinedId, n => Number(n));
    var f3 := With(f2, Deleted, a.deleted, b => Flag(b));
    With(f3, OrderIndex, a.orderIndex, n => Number(n))
  }

  function LabelFields(a: LabelEditAction): Fields {
    var f5 := With(LabelLook(a), IsActive, a.isActive, b => Flag(b));
    var f6 := With(f5, ListType, a.listType, n => Number(n));
    var f7 := With(f6, IsImmutable, a.isImmutable, b => Flag(b));
    With(f7, MuteEndTimeMs, a.muteEndTimeMs, n => Number(n))
  }

  /** `push_label_edit_sync_event` */
  function LabelEditEvents(index: seq<Bytes>, a: LabelEditAction): (r: Derived)
    ensures r.Ok? ==> r.value.chatsDelete == []
  {
    var id :- IndexValue(index, 1);
    Ok(NO_EVENTS.(labelsEdit := [Event(id, LabelFields(a))]))
  }

  const LABEL_JID: Bytes := [0x6C, 0x61, 0x62, 0x65, 0x6C, 0x5F, 0x6A, 0x69, 0x64] // label_jid
  const LABEL_MESSAGE: Bytes :=
    [0x6C, 0x61, 0x62, 0x65, 0x6C, 0x5F, 0x6D, 0x65, 0x73, 0x73, 0x61, 0x67, 0x65] // label_message

  /** `push_label_association_sync_event` */
  function AssociationEvents(index: seq<Bytes>, labeled: Option<bool>): (r: Derived)
    ensures r.Ok? ==> r.value.chatsDelete == []
  {
    var kind :- IndexValue(index, 0);
    var labelId :- IndexValue(index, 1);
    var chat :- IndexJid(index, 2);
    if kind == LABEL_JID then
      Ok(NO_EVENTS.(labelsAssociation := [AssociationEvent(labelId, chat, None, OrFalse(labeled))]))
    else if kind == LABEL_MESSAGE then
      var message :- IndexValue(index, 3);
      Ok(NO_EVENTS.(labelsAssociation := [AssociationEvent(labelId, chat, Some(message), OrFalse(labeled))]))
    else Err(UnknownAssociation)
  }

  function ChatUpdate(index: seq<Bytes>, fields: Fields): (r: Derived)
    ensures r.Ok? ==> r.value.chatsDelete == []
  {
    var chat :- IndexJid(index, 1);
    Ok(NO_EVENTS.(chatsUpdate := [Event(chat, fields)]))
  }

  function PinnedValue(pinned: bool, timestamp: Option<int>): FieldValue {
    if !pinned then Flag(false) else if timestamp.Some? then Number(timestamp.value) else Flag(true)
  }

  function StarEvents(index: seq<Bytes>, starred: Option<bool>): (r: Derived)
    ensures r.Ok? ==> r.value.chatsDelete == []
  {
    var chat :- IndexJid(index, 1);
    var message :- IndexValue(index, 2);
    Ok(NO_EVENTS.(messagesUpdate := [StarEvent(chat, message, map[Starred := Flag(OrFalse(starred))])]))
  }

  /** The actions that come last, where deletion is not reported during the initial sync. */
  function DeleteOrStarEvents(index: seq<Bytes>, v: ActionValue, initial: bool): Derived {
    if v.deleteChat && !initial then
      var chat :- IndexJid(index, 1);
      Ok(NO_EVENTS.(chatsDelete := [chat]))
    else if v.star.Some? then StarEvents(index, v.star.value)
    else Ok(NO_EVENTS)
  }

  /** An action that is looked at before chat deletion. */
  predicate HasEarlierAction(v: ActionValue) {
    || v.contact.Some? || v.quickReply.Some? || v.labelEdit.Some? || v.labelAssociation.Some?
    || v.archive.Some? || v.markRead.Some? || v.mute.Some? || v.pin.Some?
  }

  function EarlierEvents(op: Operation, index: seq<Bytes>, v: ActionValue): (r: Derived)
    requires HasEarlierAction(v)
    ensures r.Ok? ==> r.value.chatsDelete == []
  {
    if v.contact.Some? then ContactEvents(op, index, v.contact.value)
    else if v.quickReply.Some? then QuickReplyEvents(index, v.quickReply.value)
    else if v.labelEdit.Some? then LabelEditEvents(index, v.labelEdit.value)
    else if v.labelAssociation.Some? then AssociationEvents(index, v.labelAssociation.value)
    else if v.archive.Some? then ChatUpdate(index, map[Archived := Flag(OrFalse(v.archive.value))])
    else if v.markRead.Some? then
      ChatUpdate(index, map[UnreadCount := Number(if OrFalse(v.markRead.value) then 0 else -1)])
    else if v.mute.Some? then
      ChatUpdate(index, With(map[Muted := Flag(OrFalse(v.mute.value.muted))],
                             MuteEndTimestamp, v.mute.value.muteEndTimestamp, n => Number(n)))
    else ChatUpdate(index, map[Pinned := PinnedValue(OrFalse(v.pin.value), v.timestamp)])
  }

  /** `push_app_state_mutation_event`: what it adds to the batch */
  function EventsOf(op: Operation, index: seq<Bytes>, action: ActionData, initial: bool): Derived {
    match action.value
    case None => Err(MissingActionValue)
    case Some(v) =>
      if HasEarlierAction(v) then EarlierEvents(op, index, v) else DeleteOrStarEvents(index, v, initial)
  }

  /** How many events a batch holds. */
  function Size(b: Batch): nat {
    |b.chatsUpdate| + |b.chatsDelete| + |b.contactsUpsert| + |b.contactsDelete| + |b.quickReplies| + |b.labelsEdit|
    + |b.labelsAssociation| + |b.messagesUpdate|
  }

  /** A non-blank part of the index that is a JID. */
  predicate NamesJid(index: seq<Bytes>, position: nat, jid: Bytes) {
    IndexValue(index, position) == Ok(jid) && Jid.Parse(jid).Some?
  }

  /** Every event of the batch is about what the index names. */
  predicate AboutIndex(b: Batch, index: seq<Bytes>) {
    && (forall e :: e in b.chatsUpdate ==> NamesJid(index, 1, e.id))
    && (forall j :: j in b.chatsDelete ==> NamesJid(index, 1, j))
    && (forall e :: e in b.contactsUpsert ==> NamesJid(index, 1, e.id))
    && (forall j :: j in b.contactsDelete ==> NamesJid(index, 1, j))
    && (forall e :: e in b.quickReplies ==> IndexValue(index, 1) == Ok(e.id))
    && (forall e :: e in b.labelsEdit ==> IndexValue(index, 1) == Ok(e.id))
    && (forall e :: e in b.labelsAssociation ==>
          && IndexValue(index, 1) == Ok(e.labelId) && NamesJid(index, 2, e.chat)
          && (e.message.Some? ==> IndexValue(index, 3) == Ok(e.message.value)))
    && (forall e :: e in b.messagesUpdate ==> NamesJid(index, 1, e.chat) && IndexValue(index, 2) == Ok(e.message))
  }

  ghost predicate Sensible(d: Derived, index: seq<Bytes>) {
    d.Ok? ==> Size(d.value) <= 1 && AboutIndex(d.value, index)
  }

  lemma OneContact(index: seq<Bytes>, jid: Bytes, fields: Fields)
    requires NamesJid(index, 1, jid)
    ensures Sensible(Ok(NO_EVENTS.(contactsUpsert := [Event(jid, fields)])), index)
    ensures Sensible(Ok(NO_EVENTS.(contactsDelete := [jid])), index)
  {
  }

  lemma OneChat(index: seq<Bytes>, jid: Bytes, fields: Fields)
    requires NamesJid(index, 1, jid)
    ensures Sensible(Ok(NO_EVENTS.(chatsUpdate := [Event(jid, fields)])), index)
    ensures Sensible(Ok(NO_EVENTS.(chatsDelete := [jid])), index)
  {
  }

  lemma OneStar(index: seq<Bytes>, jid: Bytes, message: Bytes, fields: Fields)
    requires NamesJid(index, 1, jid) && IndexValue(index, 2) == Ok(message)
    ensures Sensible(Ok(NO_EVENTS.(messagesUpdate := [StarEvent(jid, message, fields)])), index)
  {
  }

  lemma OneAssociation(index: seq<Bytes>, e: AssociationEvent)
    requires IndexValue(index, 1) == Ok(e.labelId) && NamesJid(index, 2, e.chat)
    requires e.message.Some? ==> IndexValue(index, 3) == Ok(e.message.value)
    ensures Sensible(Ok(NO_EVENTS.(labelsAssociation := [e])), index)
  {
  }

  lemma ContactSensible(op: Operation, index: seq<Bytes>, a: ContactAction)
    ensures Sensible(ContactEvents(op, index, a), index)
  {
    var r := ContactEvents(op, index, a);
    if r.Ok? {
      OneContact(index, IndexJid(index, 1).value, if op.Remove? then map[] else r.value.contactsUpsert[0].fields);
    }
  }

  lemma ReplySensible(index: seq<Bytes>, a: QuickReplyAction)
    ensures Sensible(QuickReplyEvents(index, a), index)
  {
  }

  lemma LabelSensible(index: seq<Bytes>, a: LabelEditAction)
    ensures Sensible(LabelEditEvents(index, a), index)
  {
  }

  lemma AssociationSensible(index: seq<Bytes>, labeled: Option<bool>)
    ensures Sensible(AssociationEvents(index, labeled), index)
  {
    var r := AssociationEvents(index, labeled);
    if r.Ok? {
      OneAssociation(index, r.value.labelsAssociation[0]);
    }
  }

  lemma ChatSensible(index: seq<Bytes>, fields: Fields)
    ensures Sensible(ChatUpdate(index, fields), index)
  {
    if IndexJid(index, 1).Ok? {
      OneChat(index, IndexJid(index, 1).value, fields);
    }
  }

  lemma StarSensible(index: seq<Bytes>, starred: Option<bool>)
    ensures Sensible(StarEvents(index, starred), index)
  {
    var r := StarEvents(index, starred);
    if r.Ok? {
      OneStar(index, IndexJid(index, 1).value, IndexValue(index, 2).value, r.value.messagesUpdate[0].fields);
    }
  }

  lemma DeleteOrStarSensible(index: seq<Bytes>, v: ActionValue, initial: bool)
    ensures Sensible(DeleteOrStarEvents(index, v, initial), index)
  {
    if v.deleteChat && !initial {
      if IndexJid(index, 1).Ok? {
        OneChat(index, IndexJid(index, 1).value, map[]);
      }
    } else if v.star.Some? {
      StarSensible(index, v.star.value);
    }
  }

  lemma EarlierSensible(op: Operation, index: seq<Bytes>, v: ActionValue)
    requires HasEarlierAction(v)
    ensures Sensible(EarlierEvents(op, index, v), index)
  {
    if v.contact.Some? {
      ContactSensible(op, index, v.contact.value);
    } else if v.quickReply.Some? {
      ReplySensible(index, v.quickReply.value);
    } else if v.labelEdit.Some? {
      LabelSensible(index, v.labelEdit.value);
    } else if v.labelAssociation.Some? {
      AssociationSensible(index, v.labelAssociation.value);
    } else if v.archive.Some? {
      ChatSensible(index, map[Archived := Flag(OrFalse(v.archive.value))]);
    } else if v.markRead.Some? {
      ChatSensible(index, map[UnreadCount := Number(if OrFalse(v.markRead.value) then 0 else -1)]);
    } else if v.mute.Some? {
      ChatSensible(index, With(map[Muted := Flag(OrFalse(v.mute.value.muted))],
                               MuteEndTimestamp, v.mute.value.muteEndTimestamp, n => Number(n)));
    } else {
      ChatSensible(index, map[Pinned := PinnedValue(OrFalse(v.pin.value), v.timestamp)]);
    }
  }

  /** A mutation reports at most one event, and it is about the chat, contact, label or message that its index names. */
  lemma EventsSensible(op: Operation, index: seq<Bytes>, action: ActionData, initial: bool)
    ensures Sensible(EventsOf(op, index, action, initial), index)
  {
    if action.value.Some? {
      var v := action.value.value;
      if HasEarlierAction(v) {
        EarlierSensible(op, index, v);
      } else {
        DeleteOrStarSensible(index, v, initial);
      }
    }
  }

  // ----- Batches -------------------------------------------------------------

  /** What a decoded mutation reports. */
  datatype Reported = Reported(op: Operation, index: seq<Bytes>, action: ActionData)

  /** `event_batch_from_decoded_app_state_mutations`, onto a batch already begun */
  function BatchOnto(batch: Batch, ms: seq<Reported>, initial: bool): Derived
    decreases |ms|
  {
    if ms == [] then Ok(batch)
    else
      var e :- EventsOf(ms[0].op, ms[0].index, ms[0].action, initial);
      BatchOnto(Join(batch, e), ms[1..], initial)
  }

  function BatchOf(ms: seq<Reported>, initial: bool): Derived {
    BatchOnto(NO_EVENTS, ms, initial)
  }

  lemma JoinAssoc(a: Batch, b: Batch, c: Batch)
    ensures Join(Join(a, b), c) == Join(a, Join(b, c))
  {
    Assoc(a.chatsUpdate, b.chatsUpdate, c.chatsUpdate);
    Assoc(a.chatsDelete, b.chatsDelete, c.chatsDelete);
    Assoc(a.contactsUpsert, b.contactsUpsert, c.contactsUpsert);
    Assoc(a.contactsDelete, b.contactsDelete, c.contactsDelete);
    Assoc(a.quickReplies, b.quickReplies, c.quickReplies);
    Assoc(a.labelsEdit, b.labelsEdit, c.labelsEdit);
    Assoc(a.labelsAssociation, b.labelsAssociation, c.labelsAssociation);
    Assoc(a.messagesUpdate, b.messagesUpdate, c.messagesUpdate);
  }

  lemma JoinNothing(a: Batch)
    ensures Join(NO_EVENTS, a) == a && Join(a, NO_EVENTS) == a
  {
    Neutral(a.chatsUpdate);
    Neutral(a.chatsDelete);
    Neutral(a.contactsUpsert);
    Neutral(a.contactsDelete);
    Neutral(a.quickReplies);
    Neutral(a.labelsEdit);
    Neutral(a.labelsAssociation);
    Neutral(a.messagesUpdate);
  }

  /** The mutation reaches chat deletion in the chain of actions, and also stars a message. */
  predicate HidesStar(action: ActionData) {
    && action.value.Some?
    && var v := action.value.value;
       !HasEarlierAction(v) && v.deleteChat && v.star.Some?
  }

  /** How many of the mutations do. */
  function HiddenStars(ms: seq<Reported>): nat {
    if ms == [] then 0 else (if HidesStar(ms[0].action) then 1 else 0) + HiddenStars(ms[1..])
  }

  lemma {:induction false} NoHiddenStars(ms: seq<Reported>)
    ensures HiddenStars(ms) == 0 <==> forall i :: 0 <= i < |ms| ==> !HidesStar(ms[i].action)
    decreases |ms|
  {
    if ms != [] {
      NoHiddenStars(ms[1..]);
      assert forall i :: 0 < i < |ms| ==> ms[i] == ms[1..][i - 1];
      assert forall i :: 0 <= i < |ms[1..]| ==> ms[1..][i] == ms[i + 1];
    }
  }

  function WithoutDeletes(b: Batch): Batch {
    b.(chatsDelete := [])
  }

  lemma InitialEvents(m: Reported)
    requires !HidesStar(m.action) && EventsOf(m.op, m.index, m.action, false).Ok?
    ensures EventsOf(m.op, m.index, m.action, true)
         == Ok(WithoutDeletes(EventsOf(m.op, m.index, m.action, false).value))
  {
    var v := m.action.value.value;
    if HasEarlierAction(v) {
      WithoutNone(EarlierEvents(m.op, m.index, v));
    } else if !v.deleteChat && v.star.Some? {
      WithoutNone(StarEvents(m.index, v.star.value));
    }
  }

  lemma WithoutNone(d: Derived)
    requires d.Ok? && d.value.chatsDelete == []
    ensures WithoutDeletes(d.value) == d.value
  {
  }

  /** A hidden star comes out during the initial sync, unless it cannot be reported at all. */
  lemma StarComesOut(m: Reported)
    requires HidesStar(m.action) && EventsOf(m.op, m.index, m.action, false).Ok?
    ensures |EventsOf(m.op, m.index, m.action, false).value.messagesUpdate| == 0
    ensures EventsOf(m.op, m.index, m.action, true).Ok? ==>
              |EventsOf(m.op, m.index, m.action, true).value.messagesUpdate| == 1
  {
  }

  lemma {:induction false} InitialBatch(batch: Batch, ms: seq<Reported>)
    requires HiddenStars(ms) == 0 && BatchOnto(batch, ms, false).Ok?
    ensures BatchOnto(WithoutDeletes(batch), ms, true) == Ok(WithoutDeletes(BatchOnto(batch, ms, false).value))
    decreases |ms|
  {
    if ms != [] {
      InitialEvents(ms[0]);
      var e := EventsOf(ms[0].op, ms[0].index, ms[0].action, false).value;
      InitialBatch(Join(batch, e), ms[1..]);
      assert WithoutDeletes(Join(batch, e)) == Join(WithoutDeletes(batch), WithoutDeletes(e));
    }
  }

  /** The message updates of the initial sync are those of any other, and one for each hidden star. */
  lemma {:induction false} StarsCounted(a: Batch, b: Batch, ms: seq<Reported>)
    requires BatchOnto(a, ms, false).Ok? && BatchOnto(b, ms, true).Ok?
    ensures |BatchOnto(b, ms, true).value.messagesUpdate| - |b.messagesUpdate|
         == |BatchOnto(a, ms, false).value.messagesUpdate| - |a.messagesUpdate| + HiddenStars(ms)
    decreases |ms|
  {
    if ms != [] {
      var m := ms[0];
      if HidesStar(m.action) {
        StarComesOut(m);
      } else {
        InitialEvents(m);
      }
      StarsCounted(Join(a, EventsOf(m.op, m.index, m.action, false).value),
                   Join(b, EventsOf(m.op, m.index, m.action, true).value), ms[1..]);
    }
  }

  /**
   A batch reported during the initial sync is the ordinary one without its chat
   deletions if and only if no mutation reaches chat deletion in the chain of
   actions and also stars a message.
   */
  lemma InitialSyncOmitsDeletes(ms: seq<Reported>)
    requires BatchOf(ms, false).Ok?
    ensures BatchOf(ms, true) == Ok(WithoutDeletes(BatchOf(ms, false).value))
       <==> forall i :: 0 <= i < |ms| ==> !HidesStar(ms[i].action)
  {
    NoHiddenStars(ms);
    if HiddenStars(ms) == 0 {
      InitialBatch(NO_EVENTS, ms);
      assert WithoutDeletes(NO_EVENTS) == NO_EVENTS;
    } else if BatchOf(ms, true).Ok? {
      StarsCounted(NO_EVENTS, NO_EVENTS, ms);
    }
  }

  /** A mutation that is reported as a deleted chat, and during the initial sync as a starred message instead. */
  lemma StarInsteadOfDelete(op: Operation) returns (m: Reported)
    ensures BatchOf([m], false).Ok? && BatchOf([m], true).Ok?
    ensures |BatchOf([m], false).value.chatsDelete| == 1 && BatchOf([m], false).value.messagesUpdate == []
    ensures |BatchOf([m], true).value.messagesUpdate| == 1
  {
    var index: seq<Bytes> := [[0x64], [0x61, AT, 0x62], [0x31]];
    var v := ActionValue(None, None, None, None, None, None, None, None, None, true, Some(Some(true)));
    var action := ActionData(None, Some(v), None, None);
    m := Reported(op, index, action);
    assert IndexJid(index, 1) == Ok(index[1]) && IndexValue(index, 2) == Ok(index[2]);
    OneOf(m, false);
    OneOf(m, true);
  }

  /** A batch of one mutation is its events. */
  lemma OneOf(m: Reported, initial: bool)
    ensures BatchOf([m], initial) == EventsOf(m.op, m.index, m.action, initial)
  {
    var d := EventsOf(m.op, m.index, m.action, initial);
    var ms := [m];
    assert ms[0] == m && ms[1..] == [];
    if d.Ok? {
      JoinNothing(d.value);
      assert BatchOnto(d.value, ms[1..], initial) == Ok(d.value);
    }
  }
}
