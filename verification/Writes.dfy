/** The single statements by which requests change the tables, when other requests may come in between. */
module Writes {
  import opened Collections
  import opened Models
  import opened Queries
  import opened PageMeaning
  import opened Store

  /** Inserting a chat after its existence check, saving a message, updating a watermark after its select, and
      deleting a chat. */
  datatype Write =
    | Insertion(initiator: UserId, recipient: UserId, now: Time)
    | Sending(author: UserId, chat: ChatId, content: string, createdAt: Time, now: Time)
    | Updating(ack: Ack)
    | Deletion(user: UserId, chat: ChatId)

  /** The update finds its row unless the chat was deleted since the select. */
  predicate RowIsThere(db: Database, a: Ack) {
    Filter(db.statuses, StatusOf(a.user, a.chat)) != []
  }

  function Written(db: Database, a: Ack): Database {
    db.(statuses := Map(db.statuses, Advance(a.user, a.chat, a.id)))
  }

  function Performed(db: Database, x: Write): Database {
    match x
    case Insertion(a, b, now) => CreateDirectChat(db, a, b, now)
    case Sending(u, c, content, createdAt, now) => Apply(db, SendMessage(u, c, content, createdAt, now))
    case Updating(a) => if RowIsThere(db, a) then Written(db, a) else db
    case Deletion(u, c) => DeleteChat(db, c)
  }

  /** A message that is still open to be acknowledged, unless its chat has been deleted. */
  ghost predicate IsOpen(db: Database, a: Ack) {
    && a.chat < db.nextChatId
    && (RowIsThere(db, a) ==> Participates(db, a.user, a.chat) && IsMessageOf(db, a.chat, a.id))
  }

  ghost predicate Possible(db: Database, x: Write) {
    match x
    case Insertion(a, b, now) => a != b
    case Sending(u, c, content, createdAt, now) => Expected(db, SendMessage(u, c, content, createdAt, now))
    case Updating(a) => IsOpen(db, a)
    case Deletion(u, c) => Participates(db, u, c)
  }

  predicate Touches(x: Write, c: ChatId) {
    match x
    case Insertion(_, _, _) => false
    case Sending(_, d, _, _, _) => c == d
    case Updating(a) => c == a.chat
    case Deletion(_, d) => c == d
  }

  lemma ParticipantHasRow(db: Database, a: Ack)
    requires RowsConsistent(db) && Participates(db, a.user, a.chat)
    ensures RowIsThere(db, a)
  {
    var chat :| chat in db.chats && chat.id == a.chat && a.user in chat.users;
    StatusLookupIsSingle(db, chat, a.user);
  }

  lemma NoPairFound(db: Database, a: UserId, b: UserId)
    requires DirectChatExists(db, a, b) == Ok(false)
    ensures forall chat :: chat in db.chats ==> !DirectPair(a, b)(chat)
  {
    forall chat | chat in db.chats && DirectPair(a, b)(chat) ensures Filter(db.chats, DirectPair(a, b)) != [] {
      FilterKeeps(db.chats, DirectPair(a, b), chat);
    }
  }

  lemma WrittenMark(db: Database, a: Ack, chat: Chat, u: UserId)
    requires RowsConsistent(db) && Participates(db, a.user, a.chat) && chat in db.chats && u in chat.users
    ensures Mark(Written(db, a), u, chat.id) == if u == a.user && chat.id == a.chat then a.id else Mark(db, u, chat.id)
  {
    var read :| read in db.chats && read.id == a.chat && a.user in read.users;
    AdvanceSetsMark(db, read, a.user, a.id);
    if chat.id == a.chat {
      ChatIdsAreUnique(db, chat, read);
    }
  }

  lemma WrittenElsewhere(db: Database, b: Ack, a: Ack)
    requires RowsConsistent(db) && Participates(db, b.user, b.chat) && Participates(db, a.user, a.chat)
    ensures Participates(Written(db, b), a.user, a.chat)
    ensures Mark(Written(db, b), a.user, a.chat) ==
            if a.user == b.user && a.chat == b.chat then b.id else Mark(db, a.user, a.chat)
  {
    var chat :| chat in db.chats && chat.id == a.chat && a.user in chat.users;
    WrittenMark(db, b, chat, a.user);
    assert chat in Written(db, b).chats;
  }

  lemma WrittenKeepsRows(db: Database, a: Ack)
    requires RowsConsistent(db) && Participates(db, a.user, a.chat) && IsMessageOf(db, a.chat, a.id)
    ensures RowsConsistent(Written(db, a))
  {
    var read :| read in db.chats && read.id == a.chat && a.user in read.users;
    AdvanceKeepsRows(db, read, a.user, a.id);
  }

  lemma WholeKeepsStatuses(db: Database, t: Transaction, a: Ack)
    requires Expected(db, t) && (t.SendMessage? || t.RemoveChat?)
    ensures if t.RemoveChat? && t.chat == a.chat then !RowIsThere(Apply(db, t), a)
            else StatusesOf(Apply(db, t), a.chat) == StatusesOf(db, a.chat) &&
                 (RowIsThere(Apply(db, t), a) <==> RowIsThere(db, a))
  {
    match t
    case SendMessage(v, c, content, createdAt, now) => SendSucceeds(db, v, c, content, createdAt, now);
    case RemoveChat(v, c) =>
      if c == a.chat {
        FilterFilter(db.statuses, (r: ReadStatus) => r.chatId != c, StatusOf(a.user, c), (r: ReadStatus) => false);
        FilterNone(db.statuses, (r: ReadStatus) => false);
      } else {
        DeleteKeepsRows(db, c, a.chat);
        FilterFilter(db.statuses, (r: ReadStatus) => r.chatId != c, StatusOf(a.user, a.chat),
                     StatusOf(a.user, a.chat));
      }
  }

  lemma WholeKeepsTalk(db: Database, t: Transaction, a: Ack)
    requires Expected(db, t) && (t.SendMessage? || t.RemoveChat?) && !(t.RemoveChat? && t.chat == a.chat)
    requires Participates(db, a.user, a.chat) && IsMessageOf(db, a.chat, a.id)
    ensures Participates(Apply(db, t), a.user, a.chat) && IsMessageOf(Apply(db, t), a.chat, a.id)
  {
    var chat :| chat in db.chats && chat.id == a.chat && a.user in chat.users;
    var m :| m in db.messages && m.chatId == a.chat && m.id == a.id;
    match t
    case SendMessage(v, c, content, createdAt, now) =>
      SendSucceeds(db, v, c, content, createdAt, now);
      TouchKeepsLookups(db, c, now);
      assert Touch(c, now)(chat) in Apply(db, t).chats && m in Apply(db, t).messages;
    case RemoveChat(v, c) =>
      FilterKeeps(db.chats, (x: Chat) => x.id != c, chat);
      FilterKeeps(db.messages, (x: Message) => x.chatId != c, m);
  }

  lemma InsertKeepsTalk(db: Database, x: UserId, y: UserId, now: Time, a: Ack)
    requires RowsConsistent(db) && a.chat < db.nextChatId
    ensures var db' := CreateDirectChat(db, x, y, now);
            && StatusesOf(db', a.chat) == StatusesOf(db, a.chat) && (RowIsThere(db', a) <==> RowIsThere(db, a))
            && (Participates(db, a.user, a.chat) ==> Participates(db', a.user, a.chat))
  {
    var c := db.nextChatId;
    var added := [ReadStatus(x, c, Some(0)), ReadStatus(y, c, Some(0))];
    FilterAppend(db.statuses, added, OfChat(a.chat));
    FilterNone(added, OfChat(a.chat));
    FilterAppend(db.statuses, added, StatusOf(a.user, a.chat));
    FilterNone(added, StatusOf(a.user, a.chat));
    if Participates(db, a.user, a.chat) {
      var chat :| chat in db.chats && chat.id == a.chat && a.user in chat.users;
      assert chat in CreateDirectChat(db, x, y, now).chats;
    }
  }

  lemma UpdateKeepsTalk(db: Database, b: Ack, a: Ack)
    ensures RowIsThere(Written(db, b), a) <==> RowIsThere(db, a)
  {
    FilterMap(db.statuses, Advance(b.user, b.chat, b.id), StatusOf(a.user, a.chat), StatusOf(a.user, a.chat));
  }

  lemma WriteKeepsRows(db: Database, x: Write)
    requires RowsConsistent(db) && Possible(db, x)
    ensures RowsConsistent(Performed(db, x)) && db.nextChatId <= Performed(db, x).nextChatId
  {
    match x
    case Insertion(a, b, now) => CreateKeepsRows(db, a, b, now);
    case Sending(u, c, content, createdAt, now) => SendKeepsConsistent(db, u, c, content, createdAt, now);
    case Updating(a) =>
      if RowIsThere(db, a) {
        WrittenKeepsRows(db, a);
      }
    case Deletion(u, c) => DeleteKeepsConsistent(db, c);
  }

  lemma WholeStaysOpen(db: Database, t: Transaction, a: Ack)
    requires Expected(db, t) && (t.SendMessage? || t.RemoveChat?) && IsOpen(db, a)
    ensures IsOpen(Apply(db, t), a)
  {
    WholeKeepsStatuses(db, t, a);
    if RowIsThere(Apply(db, t), a) {
      WholeKeepsTalk(db, t, a);
    }
  }

  /** Whatever is written, an acknowledgement that was open stays open. */
  lemma StaysOpen(db: Database, x: Write, a: Ack)
    requires RowsConsistent(db) && Possible(db, x) && IsOpen(db, a)
    ensures IsOpen(Performed(db, x), a)
  {
    match x
    case Insertion(u, v, now) => InsertKeepsTalk(db, u, v, now, a);
    case Sending(u, c, content, createdAt, now) =>
      WholeStaysOpen(db, SendMessage(u, c, content, createdAt, now), a);
    case Updating(b) =>
      if RowIsThere(db, b) {
        UpdateKeepsTalk(db, b, a);
        if RowIsThere(db, a) {
          WrittenElsewhere(db, b, a);
        }
      }
    case Deletion(u, c) => WholeStaysOpen(db, RemoveChat(u, c), a);
  }

  /** What a select finds to be an advance is open. */
  lemma SelectedIsOpen(db: Database, a: Ack)
    requires RowsConsistent(db) && Expected(db, ReadMessage(a.user, a.chat, a.id))
    ensures IsOpen(db, a) && RowIsThere(db, a)
    ensures MarkLastRead(db, a.user, a.chat, a.id) ==
            Ok(if a.id > Mark(db, a.user, a.chat) then (Written(db, a), true) else (db, false))
  {
    var chat :| chat in db.chats && chat.id == a.chat && a.user in chat.users;
    var m :| m in ActiveMessages(db, a.chat) && m.id == a.id;
    assert m in db.messages && ChatConsistent(db, chat);
    ParticipantHasRow(db, a);
    ReadIsOneMap(db, chat, a.user, a.id);
  }

  // ---- chats that a write does not touch ----

  lemma MarkOfUntouched(db: Database, x: Write, chat: Chat, u: UserId)
    requires RowsConsistent(db) && Possible(db, x) && chat in db.chats && u in chat.users && !Touches(x, chat.id)
    ensures MessageById(Performed(db, x), Mark(db, u, chat.id)) == MessageById(db, Mark(db, u, chat.id))
  {
    var mark := Mark(db, u, chat.id);
    MarkedMessage(db, chat, u);
    match x
    case Insertion(_, _, _) =>
    case Sending(v, c, content, createdAt, now) =>
      var added := [Message(db.nextMessageId, c, v, content, createdAt, false)];
      SendSucceeds(db, v, c, content, createdAt, now);
      FilterAppend(db.messages, added, IdIs(mark));
      FilterNone(added, IdIs(mark));
    case Updating(_) =>
    case Deletion(v, c) =>
      forall m | m in db.messages && m.id == mark ensures m.chatId != c {
        var marked :| marked in db.messages && marked.chatId == chat.id && marked.id == mark;
        MessageIdsAreUnique(db, m, marked);
      }
      FilterFilter(db.messages, (m: Message) => m.chatId != c, IdIs(mark), IdIs(mark));
  }

  lemma SendElsewhere(db: Database, u: UserId, c: ChatId, content: string, createdAt: Time, now: Time, d: ChatId)
    requires SaveMessage(db, u, c, content, createdAt, now).Ok? && d != c
    ensures ActiveMessages(SaveMessage(db, u, c, content, createdAt, now).value, d) == ActiveMessages(db, d)
  {
    var m := Message(db.nextMessageId, c, u, content, createdAt, false);
    FilterAppend(db.messages, [m], ActiveIn(d));
    assert Filter([m], ActiveIn(d)) == [];
  }

  /** Neither the messages nor the read statuses of an untouched chat change. */
  lemma UntouchedRows(db: Database, x: Write, c: ChatId)
    requires RowsConsistent(db) && Possible(db, x) && c < db.nextChatId && !Touches(x, c)
    ensures ActiveMessages(Performed(db, x), c) == ActiveMessages(db, c)
    ensures StatusesOf(Performed(db, x), c) == StatusesOf(db, c)
  {
    match x
    case Insertion(a, b, now) => InsertKeepsTalk(db, a, b, now, Ack(a, c, 0));
    case Sending(v, d, content, createdAt, now) =>
      SendSucceeds(db, v, d, content, createdAt, now);
      SendElsewhere(db, v, d, content, createdAt, now, c);
    case Updating(a) =>
      AdvancedStatuses(db, a.user, a.chat, a.id, c);
      UntouchedByAdvance(StatusesOf(db, c), a.user, a.chat, a.id);
    case Deletion(v, d) => DeleteKeepsRows(db, d, c);
  }

  lemma UntouchedChat(db: Database, x: Write, chat': Chat) returns (chat: Chat)
    requires RowsConsistent(db) && Possible(db, x)
    requires chat' in Performed(db, x).chats && chat'.id < db.nextChatId && !Touches(x, chat'.id)
    ensures chat in db.chats && chat == chat' && |chat.users| == 2
    ensures ActiveMessages(Performed(db, x), chat.id) == ActiveMessages(db, chat.id)
    ensures StatusesOf(Performed(db, x), chat.id) == StatusesOf(db, chat.id)
  {
    UntouchedRows(db, x, chat'.id);
    chat := chat';
    if x.Sending? {
      SendSucceeds(db, x.author, x.chat, x.content, x.createdAt, x.now);
      TouchKeepsLookups(db, x.chat, x.now);
    }
    assert chat in db.chats;
    assert ChatConsistent(db, chat);
  }

  lemma NewChatHasNoMessages(db: Database, x: Write, chat': Chat)
    requires RowsConsistent(db) && Possible(db, x) && chat' in Performed(db, x).chats && chat'.id >= db.nextChatId
    ensures x.Insertion? && |chat'.users| == 2 && ActiveMessages(Performed(db, x), chat'.id) == []
  {
    if x.Sending? {
      SendSucceeds(db, x.author, x.chat, x.content, x.createdAt, x.now);
      TouchKeepsLookups(db, x.chat, x.now);
    }
    assert forall chat :: chat in db.chats ==> chat.id < db.nextChatId;
    FilterNone(db.messages, ActiveIn(chat'.id));
  }

  /** What a write does to a watermark. */
  lemma {:induction false} MarkAfterWrite(db: Database, x: Write, u: UserId, chat: Chat)
    requires RowsConsistent(db) && Possible(db, x) && chat in db.chats && u in chat.users
    requires !(x.Deletion? && x.chat == chat.id)
    ensures Mark(Performed(db, x), u, chat.id) ==
            if x.Updating? && x.ack.user == u && x.ack.chat == chat.id && RowIsThere(db, x.ack) then x.ack.id
            else Mark(db, u, chat.id)
  {
    match x
    case Sending(v, c, content, createdAt, now) => SendSucceeds(db, v, c, content, createdAt, now);
    case Updating(a) =>
      if RowIsThere(db, a) {
        WrittenMark(db, a, chat, u);
      }
    case _ => UntouchedRows(db, x, chat.id);
  }
}
