/**
 Every event that an app-state mutation can report, with the value under each of its
 fields, told from the action (crates/wa-core/src/app_state.rs).
 */
module EventFields {
  import opened Prelude
  import opened Text
  import opened TextMeaning
  import opened AppCrypto
  import opened Events

  // ----- The index -----------------------------------------------------------------

  /** The white space of Unicode. */
  predicate White(cp: nat) {
    || 0x09 <= cp <= 0x0D || cp == 0x20 || cp == 0x85 || cp == 0xA0 || cp == 0x1680
    || 0x2000 <= cp <= 0x200A || cp == 0x2028 || cp == 0x2029 || cp == 0x202F || cp == 0x205F || cp == 0x3000
  }

  lemma SpaceFound(s: Bytes) returns (cp: nat)
    requires SpaceLength(s) > 0
    ensures Scalar(cp) && White(cp) && CharBytes(cp) == s[..SpaceLength(s)]
  {
    if SpaceLength(s) == 1 {
      cp := s[0] as nat;
    } else if SpaceLength(s) == 2 {
      cp := s[1] as nat;
    } else if s[0] == 0xE1 {
      cp := 0x1680;
    } else if s[0] == 0xE3 {
      cp := 0x3000;
    } else if s[1] == 0x81 {
      cp := 0x205F;
    } else {
      cp := 0x2000 + (s[2] as nat - 0x80);
    }
  }

  lemma SpaceRead(cp: nat, rest: Bytes)
    requires Scalar(cp) && White(cp)
    ensures SpaceLength(CharBytes(cp) + rest) == |CharBytes(cp)|
  {
    var s := CharBytes(cp) + rest;
    if cp >= 0x800 {
      assert s[0] == CharBytes(cp)[0] && s[1] == CharBytes(cp)[1] && s[2] == CharBytes(cp)[2];
    }
  }

  predicate AllWhite(cps: seq<nat>) {
    Scalars(cps) && forall i :: 0 <= i < |cps| ==> White(cps[i])
  }

  lemma {:induction false} BlankIsWhite(s: Bytes) returns (cps: seq<nat>)
    requires Blank(s)
    ensures AllWhite(cps) && TextBytes(cps) == s
    decreases |s|
  {
    if s == [] {
      cps := [];
    } else {
      var cp := SpaceFound(s);
      var rest := BlankIsWhite(s[SpaceLength(s)..]);
      cps := [cp] + rest;
      assert s == s[..SpaceLength(s)] + s[SpaceLength(s)..];
    }
  }

  lemma {:induction false} WhiteIsBlank(cps: seq<nat>)
    requires AllWhite(cps)
    ensures Blank(TextBytes(cps))
    decreases |cps|
  {
    if cps != [] {
      WhiteIsBlank(cps[1..]);
      SpaceRead(cps[0], TextBytes(cps[1..]));
      DropPrefix(CharBytes(cps[0]), TextBytes(cps[1..]));
    }
  }

  /** A string is blank if and only if it is made of white space. */
  lemma BlankIff(s: Bytes)
    ensures Blank(s) <==> exists cps :: AllWhite(cps) && TextBytes(cps) == s
  {
    if Blank(s) {
      var cps := BlankIsWhite(s);
    }
    if cps :| AllWhite(cps) && TextBytes(cps) == s {
      WhiteIsBlank(cps);
    }
  }

  /** What is wrong with a part of the index that must be there, and perhaps be a JID. */
  function Trouble(index: seq<Bytes>, position: nat, jid: bool): Option<EventError> {
    if position >= |index| then Some(MissingIndexPart)
    else if Blank(index[position]) then Some(BlankIndexPart)
    else if jid && AT !in index[position] then Some(InvalidJid)
    else None
  }

  lemma PartIs(index: seq<Bytes>, position: nat)
    ensures IndexValue(index, position)
         == (if Trouble(index, position, false).Some? then Err(Trouble(index, position, false).value) else Ok(index[position]))
    ensures IndexJid(index, position)
         == (if Trouble(index, position, true).Some? then Err(Trouble(index, position, true).value) else Ok(index[position]))
  {
  }

  // ----- Chats ---------------------------------------------------------------------

  /** One chat event with these fields, about the chat in the second part of the index. */
  function OfChat(index: seq<Bytes>, fields: Fields): Derived {
    match Trouble(index, 1, true)
    case Some(e) => Err(e)
    case None => Ok(NO_EVENTS.(chatsUpdate := [Event(index[1], fields)]))
  }

  /** Nothing about contacts, quick replies or labels. */
  predicate OnlyChats(v: ActionValue) {
    v.contact.None? && v.quickReply.None? && v.labelEdit.None? && v.labelAssociation.None?
  }

  /** The chat is archived exactly if the action says so. */
  lemma ArchiveReported(op: Operation, index: seq<Bytes>, a: ActionData, v: ActionValue, initial: bool)
    requires a.value == Some(v) && OnlyChats(v) && v.archive.Some?
    ensures EventsOf(op, index, a, initial) == OfChat(index, map[Archived := Flag(v.archive.value == Some(true))])
  {
    PartIs(index, 1);
  }

  /** A chat marked as read has no unread messages, and one marked as unread has -1. */
  lemma ReadReported(op: Operation, index: seq<Bytes>, a: ActionData, v: ActionValue, initial: bool)
    requires a.value == Some(v) && OnlyChats(v) && v.archive.None? && v.markRead.Some?
    ensures EventsOf(op, index, a, initial)
         == OfChat(index, map[UnreadCount := Number(if v.markRead.value == Some(true) then 0 else -1)])
  {
    PartIs(index, 1);
  }

  /** Muting, and until when, if the action says until when. */
  lemma MuteReported(op: Operation, index: seq<Bytes>, a: ActionData, v: ActionValue, initial: bool)
    requires a.value == Some(v) && OnlyChats(v) && v.archive.None? && v.markRead.None? && v.mute.Some?
    ensures var muted, until := v.mute.value.muted == Some(true), v.mute.value.muteEndTimestamp;
            EventsOf(op, index, a, initial)
            == OfChat(index, if until.Some? then map[Muted := Flag(muted), MuteEndTimestamp := Number(until.value)]
                             else map[Muted := Flag(muted)])
  {
    PartIs(index, 1);
  }

  /** A pinned chat is reported with the time of the action, if it has one. */
  lemma PinReported(op: Operation, index: seq<Bytes>, a: ActionData, v: ActionValue, initial: bool)
    requires a.value == Some(v) && OnlyChats(v) && v.archive.None? && v.markRead.None? && v.mute.None? && v.pin.Some?
    ensures EventsOf(op, index, a, initial)
         == OfChat(index, map[Pinned := if v.pin.value != Some(true) then Flag(false)
                                        else if v.timestamp.Some? then Number(v.timestamp.value) else Flag(true)])
  {
    PartIs(index, 1);
  }

  /** Nothing about a chat but that it is deleted, or that a message is starred. */
  predicate OnlyDeleteOrStar(v: ActionValue) {
    OnlyChats(v) && v.archive.None? && v.markRead.None? && v.mute.None? && v.pin.None?
  }

  /** Outside the initial sync the chat is deleted, and a star in the same action is not reported. */
  lemma DeleteReported(op: Operation, index: seq<Bytes>, a: ActionData, v: ActionValue)
    requires a.value == Some(v) && OnlyDeleteOrStar(v) && v.deleteChat
    ensures EventsOf(op, index, a, false)
         == (match Trouble(index, 1, true)
             case Some(e) => Err(e)
             case None => Ok(NO_EVENTS.(chatsDelete := [index[1]])))
  {
    PartIs(index, 1);
  }

  /** A star is reported of the message in the third part of the index. */
  lemma StarReported(op: Operation, index: seq<Bytes>, a: ActionData, v: ActionValue, initial: bool)
    requires a.value == Some(v) && OnlyDeleteOrStar(v) && (v.deleteChat ==> initial) && v.star.Some?
    ensures var chat, message := Trouble(index, 1, true), Trouble(index, 2, false);
            EventsOf(op, index, a, initial)
            == (if chat.Some? then Err(chat.value)
                else if message.Some? then Err(message.value)
                else Ok(NO_EVENTS.(messagesUpdate :=
                                     [StarEvent(index[1], index[2], map[Starred := Flag(v.star.value == Some(true))])])))
  {
    PartIs(index, 1);
    PartIs(index, 2);
  }

  /** Nothing is reported when there is nothing to report, and no value is an error. */
  lemma NothingReported(op: Operation, index: seq<Bytes>, a: ActionData, initial: bool)
    ensures a.value.None? ==> EventsOf(op, index, a, initial) == Err(MissingActionValue)
    ensures a.value.Some? && OnlyDeleteOrStar(a.value.value) && (a.value.value.deleteChat ==> initial) && a.value.value.star.None? ==>
              EventsOf(op, index, a, initial) == Ok(NO_EVENTS)
  {
  }

  // ----- Labels and quick replies ----------------------------------------------------

  function At(fields: Fields, f: Field): Option<FieldValue> {
    if f in fields then Some(fields[f]) else None
  }

  function Texts(s: Option<Bytes>): Option<FieldValue> {
    if s.Some? then Some(TextValue(s.value)) else None
  }

  function Numbers(n: Option<int>): Option<FieldValue> {
    if n.Some? then Some(Number(n.value)) else None
  }

  function Flags(b: Option<bool>): Option<FieldValue> {
    if b.Some? then Some(Flag(b.value)) else None
  }

  /** The fields of a quick reply, and no others. */
  predicate ShowsReply(fields: Fields, q: QuickReplyAction) {
    && fields.Keys <= {Shortcut, MessageText, Keywords, CountField, Deleted}
    && At(fields, Shortcut) == Texts(q.shortcut)
    && At(fields, MessageText) == Texts(q.message)
    && At(fields, Keywords) == (if q.keywords == [] then None else Some(Words(q.keywords)))
    && At(fields, CountField) == Numbers(q.count)
    && At(fields, Deleted) == Flags(q.deleted)
  }

  lemma ReplyShown(q: QuickReplyAction)
    ensures ShowsReply(ReplyFields(q), q)
  {
  }

  /** A quick reply is reported of the id in the second part of the index, with all that the action holds. */
  lemma ReplyReported(op: Operation, index: seq<Bytes>, a: ActionData, v: ActionValue, initial: bool)
    requires a.value == Some(v) && v.contact.None? && v.quickReply.Some?
    ensures var r := EventsOf(op, index, a, initial);
            match Trouble(index, 1, false)
            case Some(e) => r == Err(e)
            case None =>
              && r.Ok? && |r.value.quickReplies| == 1 && r.value.quickReplies[0].id == index[1]
              && r.value == NO_EVENTS.(quickReplies := r.value.quickReplies)
              && ShowsReply(r.value.quickReplies[0].fields, v.quickReply.value)
  {
    ReplyShown(v.quickReply.value);
    PartIs(index, 1);
  }

  /** The name, the look and the place of a label. */
  predicate ShowsLook(fields: Fields, l: LabelEditAction) {
    && At(fields, Name) == Texts(l.name)
    && At(fields, Color) == Numbers(l.color)
    && At(fields, PredefinedId) == Numbers(l.predefinedId)
    && At(fields, Deleted) == Flags(l.deleted)
    && At(fields, OrderIndex) == Numbers(l.orderIndex)
  }

  /** The fields of a label, and no others. */
  predicate ShowsLabel(fields: Fields, l: LabelEditAction) {
    && fields.Keys
       <= {Name, Color, PredefinedId, Deleted, OrderIndex, IsActive, ListType, IsImmutable, MuteEndTimeMs}
    && ShowsLook(fields, l)
    && At(fields, IsActive) == Flags(l.isActive)
    && At(fields, ListType) == Numbers(l.listType)
    && At(fields, IsImmutable) == Flags(l.isImmutable)
    && At(fields, MuteEndTimeMs) == Numbers(l.muteEndTimeMs)
  }

  lemma LookShown(l: LabelEditAction)
    ensures LabelLook(l).Keys <= {Name, Color, PredefinedId, Deleted, OrderIndex}
    ensures ShowsLook(LabelLook(l), l)
  {
  }

  lemma LabelShown(l: LabelEditAction)
    ensures ShowsLabel(LabelFields(l), l)
  {
    LookShown(l);
  }

  /** A label is reported of the id in the second part of the index, with all that the action holds. */
  lemma LabelReported(op: Operation, index: seq<Bytes>, a: ActionData, v: ActionValue, initial: bool)
    requires a.value == Some(v) && v.contact.None? && v.quickReply.None? && v.labelEdit.Some?
    ensures var r := EventsOf(op, index, a, initial);
            match Trouble(index, 1, false)
            case Some(e) => r == Err(e)
            case None =>
              && r.Ok? && |r.value.labelsEdit| == 1 && r.value.labelsEdit[0].id == index[1]
              && r.value == NO_EVENTS.(labelsEdit := r.value.labelsEdit)
              && ShowsLabel(r.value.labelsEdit[0].fields, v.labelEdit.value)
  {
    LabelShown(v.labelEdit.value);
    PartIs(index, 1);
  }

  /** The first thing wrong with the index of a label association. */
  function AssociationTrouble(index: seq<Bytes>): Option<EventError> {
    if Trouble(index, 0, false).Some? then Trouble(index, 0, false)
    else if Trouble(index, 1, false).Some? then Trouble(index, 1, false)
    else if Trouble(index, 2, true).Some? then Trouble(index, 2, true)
    else if index[0] == Ascii("label_jid") then None
    else if index[0] == Ascii("label_message") then Trouble(index, 3, false)
    else Some(UnknownAssociation)
  }

  /** A label is put on, or taken off, the chat or the message that the index names. */
  lemma AssociationReported(op: Operation, index: seq<Bytes>, a: ActionData, v: ActionValue, initial: bool)
    requires a.value == Some(v) && v.contact.None? && v.quickReply.None? && v.labelEdit.None? && v.labelAssociation.Some?
    ensures EventsOf(op, index, a, initial)
         == (match AssociationTrouble(index)
             case Some(e) => Err(e)
             case None =>
               var message := if index[0] == Ascii("label_message") then Some(index[3]) else None;
               Ok(NO_EVENTS.(labelsAssociation :=
                               [AssociationEvent(index[1], index[2], message, v.labelAssociation.value == Some(true))])))
  {
    PartIs(index, 0);
    PartIs(index, 1);
    PartIs(index, 2);
    PartIs(index, 3);
    KindsSpelled();
  }

  lemma KindsSpelled()
    ensures LABEL_JID == Ascii("label_jid") && LABEL_MESSAGE == Ascii("label_message")
    ensures LABEL_JID != LABEL_MESSAGE
  {
    Jid.SpelledAs(LABEL_JID, "label_jid");
    Jid.SpelledAs(LABEL_MESSAGE, "label_message");
    assert |LABEL_JID| != |LABEL_MESSAGE|;
  }

  // ----- Contacts --------------------------------------------------------------------

  predicate Usable(s: Option<Bytes>) {
    s.Some? && !Blank(s.value)
  }

  /** The contact's own address is a phone number. */
  predicate ByPhone(jid: Bytes) {
    && Jid.Parse(jid).Some?
    && (Jid.Parse(jid).value.serverRaw == Ascii("s.whatsapp.net") || Jid.Parse(jid).value.serverRaw == Ascii("c.us"))
  }

  lemma ByPhoneIs(jid: Bytes)
    requires Jid.Parse(jid).Some?
    ensures var s := Jid.Parse(jid).value.server; s.SWhatsAppNet? || s.CUs? <==> ByPhone(jid)
  {
    var raw := Jid.Parse(jid).value.serverRaw;
    Jid.KnownIff(raw);
    Jid.ServersSpelled(0);
    Jid.ServersSpelled(3);
  }

  /** What is wrong with the addresses of a contact that is set. */
  predicate AddressesWrong(jid: Bytes, c: ContactAction) {
    || (c.lidJid.Some? && c.lidJid.value != [] && AT !in c.lidJid.value)
    || (!ByPhone(jid) && Usable(c.pnJid) && AT !in c.pnJid.value)
  }

  /** The first usable one of full name, first name and user name. */
  function NameChosen(c: ContactAction): Option<Bytes> {
    if Usable(c.fullName) then c.fullName
    else if Usable(c.firstName) then c.firstName
    else if Usable(c.username) then c.username
    else None
  }

  /** The fields of a contact, and no others. */
  predicate ShowsContact(fields: Fields, jid: Bytes, c: ContactAction) {
    && fields.Keys <= {Name, Username, LidField, PhoneNumber}
    && At(fields, Name) == Texts(NameChosen(c))
    && At(fields, Username) == Texts(if c.username == Some([]) then None else c.username)
    && At(fields, LidField) == Texts(if c.lidJid == Some([]) then None else c.lidJid)
    && At(fields, PhoneNumber) == Texts(if ByPhone(jid) then Some(jid) else if Usable(c.pnJid) then c.pnJid else None)
  }

  lemma NameIs(c: ContactAction)
    ensures FirstNonBlank([c.fullName, c.firstName, c.username]) == NameChosen(c)
  {
    var values := [c.fullName, c.firstName, c.username];
    assert values[1..] == [c.firstName, c.username] && [c.firstName, c.username][1..] == [c.username];
    assert [c.username][1..] == [];
    assert FirstNonBlank([c.username]) == (if Usable(c.username) then c.username else None);
  }

  lemma PhoneIs(jid: Bytes, c: ContactAction)
    requires Jid.Parse(jid).Some?
    ensures PhoneNumberOf(jid, c.pnJid)
         == (if ByPhone(jid) then Ok(Some(jid))
             else if !Usable(c.pnJid) then Ok(None)
             else if AT in c.pnJid.value then Ok(c.pnJid) else Err(InvalidJid))
  {
    ByPhoneIs(jid);
  }

  lemma FieldsOfContact(name: Option<Bytes>, username: Option<Bytes>, lid: Option<Bytes>, phone: Option<Bytes>)
    ensures var f := ContactFields(name, username, lid, phone);
            && f.Keys <= {Name, Username, LidField, PhoneNumber}
            && At(f, Name) == Texts(name) && At(f, Username) == Texts(username)
            && At(f, LidField) == Texts(lid) && At(f, PhoneNumber) == Texts(phone)
  {
  }

  /** What comes of a contact that is set, once its address is known to be a JID. */
  lemma ContactSet(index: seq<Bytes>, c: ContactAction)
    requires Trouble(index, 1, true).None?
    ensures var r := ContactEvents(Set, index, c);
            if AddressesWrong(index[1], c) then r == Err(InvalidJid)
            else
              && r.Ok? && |r.value.contactsUpsert| == 1 && r.value.contactsUpsert[0].id == index[1]
              && r.value == NO_EVENTS.(contactsUpsert := r.value.contactsUpsert)
              && ShowsContact(r.value.contactsUpsert[0].fields, index[1], c)
  {
    PartIs(index, 1);
    NameIs(c);
    PhoneIs(index[1], c);
    var phone := PhoneNumberOf(index[1], c.pnJid);
    if phone.Ok? {
      FieldsOfContact(NameChosen(c), NonEmpty(c.username), NonEmpty(c.lidJid), phone.value);
    }
  }

  /**
   A contact is deleted when the mutation removes it, and otherwise reported with its
   name, user name, LID and phone number, unless an address is not a JID. It comes
   before every other action.
   */
  lemma ContactReported(op: Operation, index: seq<Bytes>, a: ActionData, v: ActionValue, initial: bool)
    requires a.value == Some(v) && v.contact.Some?
    ensures var r, c := EventsOf(op, index, a, initial), v.contact.value;
            match Trouble(index, 1, true)
            case Some(e) => r == Err(e)
            case None =>
              if op.Remove? then r == Ok(NO_EVENTS.(contactsDelete := [index[1]]))
              else if AddressesWrong(index[1], c) then r == Err(InvalidJid)
              else
                && r.Ok? && |r.value.contactsUpsert| == 1 && r.value.contactsUpsert[0].id == index[1]
                && r.value == NO_EVENTS.(contactsUpsert := r.value.contactsUpsert)
                && ShowsContact(r.value.contactsUpsert[0].fields, index[1], c)
  {
    PartIs(index, 1);
    assert EventsOf(op, index, a, initial) == ContactEvents(op, index, v.contact.value);
    if Trouble(index, 1, true).None? && op.Set? {
      ContactSet(index, v.contact.value);
    }
  }

  // ----- Batches ---------------------------------------------------------------------

  lemma {:induction false} OntoInitial(batch: Batch, ms: seq<Events.Reported>)
    requires BatchOnto(batch, ms, true).Ok? && batch.chatsDelete == []
    ensures BatchOnto(batch, ms, true).value.chatsDelete == []
    decreases |ms|
  {
    if ms != [] {
      var e := EventsOf(ms[0].op, ms[0].index, ms[0].action, true).value;
      NoDeletion(ms[0]);
      OntoInitial(Join(batch, e), ms[1..]);
    }
  }

  lemma NoDeletion(m: Events.Reported)
    requires EventsOf(m.op, m.index, m.action, true).Ok?
    ensures EventsOf(m.op, m.index, m.action, true).value.chatsDelete == []
  {
  }

  /** What is reported during the initial sync deletes no chat. */
  lemma InitialDeletesNothing(ms: seq<Events.Reported>)
    requires BatchOf(ms, true).Ok?
    ensures BatchOf(ms, true).value.chatsDelete == []
  {
    OntoInitial(NO_EVENTS, ms);
  }
}
