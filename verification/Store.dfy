/** The transactions that change the tables, and what every run of them keeps true. */
module Store {
  import opened Collections
  import opened Models
  import opened Queries

  datatype ViewError = NotFound | Conflict | Database(error: DbError)

  function DirectPair(a: UserId, b: UserId): Chat -> bool {
    (chat: Chat) => ActiveDirect(chat) && a in chat.users && b in chat.users
  }

  /** direct_chat_exists. */
  function DirectChatExists(db: Database, a: UserId, b: UserId): Result<bool, DbError> {
    match ScalarOneOrNone(Filter(db.chats, DirectPair(a, b)))
    case Ok(found) => Ok(found.Some?)
    case Err(e) => Err(e)
  }

  /** create_direct_chat: a chat row, its two participants, and an empty read status for each. */
  function CreateDirectChat(db: Database, initiator: UserId, recipient: UserId, now: Time): Database {
    var c := db.nextChatId;
    db.(chats := db.chats + [Chat(c, Direct, [initiator, recipient], now, false)],
        statuses := db.statuses + [ReadStatus(initiator, c, Some(0)), ReadStatus(recipient, c, Some(0))],
        nextChatId := c + 1)
  }

  /** create_direct_chat_view. */
  function CreateChatView(db: Database, initiator: UserId, recipient: UserId, now: Time)
    : (Database, Result<ChatId, ViewError>)
  {
    if recipient !in db.users then (db, Err(NotFound))
    else
      match DirectChatExists(db, initiator, recipient)
      case Err(e) => (db, Err(ViewError.Database(e)))
      case Ok(true) => (db, Err(Conflict))
      case Ok(false) => (CreateDirectChat(db, initiator, recipient, now), Ok(db.nextChatId))
  }

  function Touch(c: ChatId, now: Time): Chat -> Chat {
    (chat: Chat) => if chat.id == c then chat.(updatedAt := now) else chat
  }

  /** The transaction of new_message_handler; the foreign key refuses a chat that is gone. */
  function SaveMessage(db: Database, author: UserId, c: ChatId, content: string, createdAt: Time, now: Time)
    : Result<Database, DbError>
  {
    if Filter(db.chats, HasId(c)) == [] then Err(IntegrityError)
    else
      Ok(db.(messages := db.messages + [Message(db.nextMessageId, c, author, content, createdAt, false)],
             nextMessageId := db.nextMessageId + 1,
             chats := Map(db.chats, Touch(c, now))))
  }

  function StatusOf(u: UserId, c: ChatId): ReadStatus -> bool {
    (r: ReadStatus) => r.userId == u && r.chatId == c
  }

  function Advance(u: UserId, c: ChatId, id: MessageId): ReadStatus -> ReadStatus {
    (r: ReadStatus) => if r.userId == u && r.chatId == c then r.(lastRead := Some(id)) else r
  }

  /** mark_last_read_message: the new tables, and whether a read status is returned. */
  function MarkLastRead(db: Database, u: UserId, c: ChatId, id: MessageId): Result<(Database, bool), DbError> {
    match ScalarOneOrNone(Filter(db.statuses, StatusOf(u, c)))
    case Err(e) => Err(e)
    case Ok(None) =>
      // the foreign key refuses a status of a chat that is gone
      if Filter(db.chats, HasId(c)) == [] then Err(IntegrityError)
      else Ok((db.(statuses := db.statuses + [ReadStatus(u, c, Some(id))]), true))
    case Ok(Some(row)) =>
      if row.lastRead.None? then Err(NullWatermark)
      else if row.lastRead.value >= id then Ok((db, false))
      else Ok((db.(statuses := Map(db.statuses, Advance(u, c, id))), true))
  }

  /** delete_direct_chat_view's transaction: messages and read statuses cascade. */
  function DeleteChat(db: Database, c: ChatId): Database {
    db.(chats := Filter(db.chats, (chat: Chat) => chat.id != c),
        messages := Filter(db.messages, (m: Message) => m.chatId != c),
        statuses := Filter(db.statuses, (r: ReadStatus) => r.chatId != c))
  }

  // ---- runs of transactions ----

  /** An acknowledgement, as a client sends it and as the server broadcasts it. */
  datatype Ack = Ack(user: UserId, chat: ChatId, id: MessageId)

  datatype Transaction =
    | CreateChat(initiator: UserId, recipient: UserId, now: Time)
    | SendMessage(author: UserId, chat: ChatId, content: string, createdAt: Time, now: Time)
    | ReadMessage(user: UserId, chat: ChatId, id: MessageId)
    | RemoveChat(user: UserId, chat: ChatId)

  ghost predicate Participates(db: Database, u: UserId, c: ChatId) {
    exists chat :: chat in db.chats && chat.id == c && u in chat.users
  }

  /** What the server expects of its clients and of the clock. */
  ghost predicate Expected(db: Database, t: Transaction) {
    match t
    case CreateChat(a, b, now) => a != b
    case SendMessage(u, c, _, createdAt, _) =>
      && Participates(db, u, c)
      && forall m :: m in db.messages && m.chatId == c ==> m.createdAt < createdAt
    case ReadMessage(u, c, id) =>
      Participates(db, u, c) && exists m :: m in ActiveMessages(db, c) && m.id == id
    case RemoveChat(u, c) => Participates(db, u, c)
  }

  function Apply(db: Database, t: Transaction): Database {
    match t
    case CreateChat(a, b, now) => CreateChatView(db, a, b, now).0
    case SendMessage(u, c, content, createdAt, now) =>
      var r := SaveMessage(db, u, c, content, createdAt, now);
      if r.Ok? then r.value else db
    case ReadMessage(u, c, id) =>
      var r := MarkLastRead(db, u, c, id);
      if r.Ok? then r.value.0 else db
    case RemoveChat(u, c) => DeleteChat(db, c)
  }

  function Empty(users: set<UserId>): Database {
    Models.Database(users, [], [], [], 1, 1)
  }

  // ---- creating a chat ----

  lemma PairIsUnique(db: Database, a: UserId, b: UserId, x: nat, y: nat)
    requires Consistent(db) && a != b && x < |db.chats| && y < |db.chats|
    requires DirectPair(a, b)(db.chats[x]) && DirectPair(a, b)(db.chats[y])
    ensures x == y
  {
    assert db.chats[x] in db.chats && db.chats[y] in db.chats;
    assert SamePair(db.chats[x], db.chats[y]) && SamePair(db.chats[y], db.chats[x]);
  }

  /** The existence check never raises, and a negative answer means the pair has no active direct chat. */
  lemma PairLookupIsSingle(db: Database, a: UserId, b: UserId)
    requires Consistent(db) && a != b
    ensures DirectChatExists(db, a, b).Ok?
    ensures DirectChatExists(db, a, b).value <==> exists chat :: chat in db.chats && DirectPair(a, b)(chat)
  {
    var p := DirectPair(a, b);
    var rows := Filter(db.chats, p);
    FilterIncreasing(db.chats, p, CHAT_ID);
    forall i, j | 0 <= i < |rows| && 0 <= j < |rows| ensures rows[i] == rows[j] {
      assert rows[i] in rows && rows[j] in rows;
      var x :| 0 <= x < |db.chats| && db.chats[x] == rows[i];
      var y :| 0 <= y < |db.chats| && db.chats[y] == rows[j];
      PairIsUnique(db, a, b, x, y);
    }
    if |rows| > 1 {
      IncreasingIsInjective(rows, CHAT_ID, 0, 1);
    }
    forall chat | chat in db.chats && p(chat) ensures rows != [] {
      FilterKeeps(db.chats, p, chat);
    }
    assert rows != [] ==> rows[0] in rows;
  }

  lemma CreateKeepsOthers(db: Database, a: UserId, b: UserId, now: Time, chat: Chat)
    requires RowsConsistent(db) && chat in db.chats
    ensures StatusesOf(CreateDirectChat(db, a, b, now), chat.id) == StatusesOf(db, chat.id)
    ensures ChatConsistent(CreateDirectChat(db, a, b, now), chat)
  {
    var db' := CreateDirectChat(db, a, b, now);
    var added := [ReadStatus(a, db.nextChatId, Some(0)), ReadStatus(b, db.nextChatId, Some(0))];
    FilterAppend(db.statuses, added, OfChat(chat.id));
    FilterNone(added, OfChat(chat.id));
  }

  lemma CreateMakesConsistentChat(db: Database, a: UserId, b: UserId, now: Time)
    requires RowsConsistent(db) && a != b
    ensures ChatConsistent(CreateDirectChat(db, a, b, now), Chat(db.nextChatId, Direct, [a, b], now, false))
  {
    var c := db.nextChatId;
    var added := [ReadStatus(a, c, Some(0)), ReadStatus(b, c, Some(0))];
    FilterAppend(db.statuses, added, OfChat(c));
    FilterNone(db.statuses, OfChat(c));
    FilterAll(added, OfChat(c));
  }

  lemma CreateKeepsRows(db: Database, a: UserId, b: UserId, now: Time)
    requires RowsConsistent(db) && a != b
    ensures RowsConsistent(CreateDirectChat(db, a, b, now))
  {
    var db' := CreateDirectChat(db, a, b, now);
    forall chat | chat in db'.chats ensures ChatConsistent(db', chat) {
      if chat in db.chats {
        CreateKeepsOthers(db, a, b, now, chat);
      } else {
        CreateMakesConsistentChat(db, a, b, now);
      }
    }
    var n := |db.chats|;
    assert Increasing(db'.chats, CHAT_ID) by {
      forall i | 0 <= i < n ensures CHAT_ID(db'.chats[i]) < CHAT_ID(db'.chats[n]) {
        assert db.chats[i] in db.chats;
      }
    }
  }

  /** Another chat of the pair keeps the pair unique exactly when there is none yet. */
  lemma CreateKeepsUnique(db: Database, a: UserId, b: UserId, now: Time)
    requires RowsConsistent(db) && OneDirectChatPerPair(db) && a != b
    ensures OneDirectChatPerPair(CreateDirectChat(db, a, b, now))
       <==> forall chat :: chat in db.chats ==> !DirectPair(a, b)(chat)
  {
    var chats, n := CreateDirectChat(db, a, b, now).chats, |db.chats|;
    assert a in chats[n].users && b in chats[n].users;
    forall i | 0 <= i < n
      ensures DirectPair(a, b)(chats[i]) <==> ActiveDirect(chats[i]) && SamePair(chats[i], chats[n])
    {
      assert chats[i] in db.chats;
    }
    if chat :| chat in db.chats && DirectPair(a, b)(chat) {
      var i :| 0 <= i < n && db.chats[i] == chat;
      assert SamePair(chats[i], chats[n]);
    }
  }

  lemma CreateKeepsConsistent(db: Database, a: UserId, b: UserId, now: Time)
    requires Consistent(db) && a != b && DirectChatExists(db, a, b) == Ok(false)
    ensures Consistent(CreateDirectChat(db, a, b, now))
  {
    PairLookupIsSingle(db, a, b);
    CreateKeepsRows(db, a, b, now);
    CreateKeepsUnique(db, a, b, now);
  }

  // ---- sending a message ----

  lemma TouchKeepsLookups(db: Database, c: ChatId, now: Time)
    ensures forall chat :: chat in db.chats ==> Touch(c, now)(chat) in Map(db.chats, Touch(c, now))
    ensures forall chat :: chat in Map(db.chats, Touch(c, now)) ==>
      exists was :: was in db.chats && chat == Touch(c, now)(was)
  {
    var chats := Map(db.chats, Touch(c, now));
    forall chat | chat in db.chats ensures Touch(c, now)(chat) in chats {
      var i :| 0 <= i < |db.chats| && db.chats[i] == chat;
      assert chats[i] == Touch(c, now)(chat);
    }
    forall chat | chat in chats ensures exists was :: was in db.chats && chat == Touch(c, now)(was) {
      var i :| 0 <= i < |chats| && chats[i] == chat;
      assert db.chats[i] in db.chats && chat == Touch(c, now)(db.chats[i]);
    }
  }

  lemma SendSucceeds(db: Database, u: UserId, c: ChatId, content: string, createdAt: Time, now: Time)
    requires Participates(db, u, c)
    ensures SaveMessage(db, u, c, content, createdAt, now).Ok?
  {
    var chat :| chat in db.chats && chat.id == c && u in chat.users;
    FilterKeeps(db.chats, HasId(c), chat);
  }

  lemma SendKeepsChatConsistent(db: Database, u: UserId, c: ChatId, content: string, createdAt: Time, now: Time,
                                was: Chat)
    requires RowsConsistent(db) && was in db.chats && (was.id == c ==> u in was.users)
    requires SaveMessage(db, u, c, content, createdAt, now).Ok?
    ensures ChatConsistent(SaveMessage(db, u, c, content, createdAt, now).value, Touch(c, now)(was))
  {
    var db' := SaveMessage(db, u, c, content, createdAt, now).value;
    forall id | IsMessageOf(db, was.id, id) ensures IsMessageOf(db', was.id, id) {
      var m :| m in db.messages && m.chatId == was.id && m.id == id;
      assert m in db'.messages;
    }
  }

  lemma ChatIdsAreUnique(db: Database, a: Chat, b: Chat)
    requires Increasing(db.chats, CHAT_ID) && a in db.chats && b in db.chats && a.id == b.id
    ensures a == b
  {
    var i :| 0 <= i < |db.chats| && db.chats[i] == a;
    var j :| 0 <= j < |db.chats| && db.chats[j] == b;
    assert i < j ==> CHAT_ID(db.chats[i]) < CHAT_ID(db.chats[j]);
    assert j < i ==> CHAT_ID(db.chats[j]) < CHAT_ID(db.chats[i]);
  }

  lemma ParticipantsOf(db: Database, u: UserId, c: ChatId, chat: Chat)
    requires RowsConsistent(db) && Participates(db, u, c) && chat in db.chats && chat.id == c
    ensures u in chat.users
  {
    var other :| other in db.chats && other.id == c && u in other.users;
    ChatIdsAreUnique(db, chat, other);
  }

  lemma AppendKeepsOrder(db: Database, m: Message)
    requires MessagesOrdered(db) && m.id == db.nextMessageId && 0 < m.id && m.chatId < db.nextChatId
    requires forall x :: x in db.messages && x.chatId == m.chatId ==> x.createdAt < m.createdAt
    ensures MessagesOrdered(db.(messages := db.messages + [m], nextMessageId := m.id + 1))
  {
    var n := |db.messages|;
    forall i | 0 <= i < n
      ensures MESSAGE_ID(db.messages[i]) < MESSAGE_ID(m)
      ensures db.messages[i].chatId == m.chatId ==> db.messages[i].createdAt < m.createdAt
    {
      assert db.messages[i] in db.messages;
    }
  }

  lemma SendKeepsOrder(db: Database, u: UserId, c: ChatId, content: string, createdAt: Time, now: Time)
    requires RowsConsistent(db) && Expected(db, SendMessage(u, c, content, createdAt, now))
    requires SaveMessage(db, u, c, content, createdAt, now).Ok?
    ensures MessagesOrdered(SaveMessage(db, u, c, content, createdAt, now).value)
  {
    var chat :| chat in db.chats && chat.id == c && u in chat.users;
    assert c < db.nextChatId;
    AppendKeepsOrder(db, Message(db.nextMessageId, c, u, content, createdAt, false));
  }

  lemma TouchKeepsChatTable(db: Database, c: ChatId, now: Time)
    requires Increasing(db.chats, CHAT_ID)
    ensures var db' := db.(chats := Map(db.chats, Touch(c, now)));
            Increasing(db'.chats, CHAT_ID) && (OneDirectChatPerPair(db) ==> OneDirectChatPerPair(db'))
  {
    var chats := Map(db.chats, Touch(c, now));
    forall i, j | 0 <= i < j < |chats| ensures CHAT_ID(chats[i]) < CHAT_ID(chats[j]) {
      assert CHAT_ID(db.chats[i]) < CHAT_ID(db.chats[j]);
    }
    forall i, j | 0 <= i < j < |chats|
      ensures ActiveDirect(chats[i]) == ActiveDirect(db.chats[i]) && ActiveDirect(chats[j]) == ActiveDirect(db.chats[j])
      ensures SamePair(chats[i], chats[j]) == SamePair(db.chats[i], db.chats[j])
    {
    }
  }

  lemma SendKeepsEachChat(db: Database, u: UserId, c: ChatId, content: string, createdAt: Time, now: Time, chat: Chat)
    requires RowsConsistent(db) && Expected(db, SendMessage(u, c, content, createdAt, now))
    requires SaveMessage(db, u, c, content, createdAt, now).Ok?
    requires chat in SaveMessage(db, u, c, content, createdAt, now).value.chats
    ensures ChatConsistent(SaveMessage(db, u, c, content, createdAt, now).value, chat)
  {
    TouchKeepsLookups(db, c, now);
    var was :| was in db.chats && chat == Touch(c, now)(was);
    if was.id == c {
      ParticipantsOf(db, u, c, was);
    }
    SendKeepsChatConsistent(db, u, c, content, createdAt, now, was);
  }

  lemma SendKeepsConsistent(db: Database, u: UserId, c: ChatId, content: string, createdAt: Time, now: Time)
    requires RowsConsistent(db) && Expected(db, SendMessage(u, c, content, createdAt, now))
    ensures SaveMessage(db, u, c, content, createdAt, now).Ok?
    ensures RowsConsistent(SaveMessage(db, u, c, content, createdAt, now).value)
    ensures Consistent(db) ==> Consistent(SaveMessage(db, u, c, content, createdAt, now).value)
  {
    SendSucceeds(db, u, c, content, createdAt, now);
    SendKeepsOrder(db, u, c, content, createdAt, now);
    TouchKeepsChatTable(db, c, now);
    var db' := SaveMessage(db, u, c, content, createdAt, now).value;
    forall chat | chat in db'.chats ensures ChatConsistent(db', chat) {
      SendKeepsEachChat(db, u, c, content, createdAt, now, chat);
    }
  }

  // ---- reading a message ----

  /** One status row per participant: the lookup never raises and finds the participant's watermark. */
  lemma StatusLookupIsSingle(db: Database, chat: Chat, u: UserId)
    requires ChatConsistent(db, chat) && u in chat.users
    ensures |Filter(db.statuses, StatusOf(u, chat.id))| == 1
    ensures Filter(db.statuses, StatusOf(u, chat.id))[0].lastRead == Some(Mark(db, u, chat.id))
  {
    MarksOfParticipants(db, chat, u);
    var rows := StatusesOf(db, chat.id);
    assert rows[0] in rows && rows[1] in rows;
    FilterFilter(db.statuses, OfChat(chat.id), StatusOf(u, chat.id), StatusOf(u, chat.id));
    assert rows[..|rows| - 1] == [rows[0]];
    assert OwnMark([rows[0]], u) == if rows[0].userId == u then rows[0].lastRead else None;
    assert Filter([rows[0]], StatusOf(u, chat.id)) == if rows[0].userId == u then [rows[0]] else [];
  }

  lemma AdvancedStatuses(db: Database, u: UserId, c: ChatId, id: MessageId, c': ChatId)
    ensures Filter(Map(db.statuses, Advance(u, c, id)), OfChat(c'))
         == Map(StatusesOf(db, c'), Advance(u, c, id))
  {
    FilterMap(db.statuses, Advance(u, c, id), OfChat(c'), OfChat(c'));
  }

  lemma {:induction false} AdvancedMark(rows: seq<ReadStatus>, u: UserId, c: ChatId, id: MessageId, v: UserId)
    requires forall r :: r in rows ==> r.chatId == c && r.lastRead.Some?
    ensures OwnMark(Map(rows, Advance(u, c, id)), v).Some? <==> OwnMark(rows, v).Some?
    ensures OwnMark(rows, v).Some? ==>
      OwnMark(Map(rows, Advance(u, c, id)), v) == if v == u then Some(id) else OwnMark(rows, v)
  {
    if rows != [] {
      var n := |rows| - 1;
      AdvancedMark(rows[..n], u, c, id, v);
      assert Map(rows, Advance(u, c, id))[..n] == Map(rows[..n], Advance(u, c, id));
      assert rows[n] in rows;
    }
  }

  lemma UntouchedByAdvance(rows: seq<ReadStatus>, u: UserId, c: ChatId, id: MessageId)
    requires forall r :: r in rows ==> r.chatId != c
    ensures Map(rows, Advance(u, c, id)) == rows
  {
    forall i | 0 <= i < |rows| ensures Advance(u, c, id)(rows[i]) == rows[i] {
      assert rows[i] in rows;
    }
  }

  /** Writing a watermark, whatever it was before, changes that watermark alone. */
  lemma AdvanceSetsMark(db: Database, chat: Chat, u: UserId, id: MessageId)
    requires RowsConsistent(db) && chat in db.chats && u in chat.users
    ensures var db' := db.(statuses := Map(db.statuses, Advance(u, chat.id, id)));
            && Mark(db', u, chat.id) == id
            && (forall v :: v in chat.users && v != u ==> Mark(db', v, chat.id) == Mark(db, v, chat.id))
            && (forall c :: c != chat.id ==> StatusesOf(db', c) == StatusesOf(db, c))
  {
    var db' := db.(statuses := Map(db.statuses, Advance(u, chat.id, id)));
    forall v | v in chat.users
      ensures Mark(db', v, chat.id) == if v == u then id else Mark(db, v, chat.id)
    {
      MarksOfParticipants(db, chat, v);
      AdvancedStatuses(db, u, chat.id, id, chat.id);
      var rows := StatusesOf(db, chat.id);
      assert rows == [rows[0], rows[1]];
      AdvancedMark(rows, u, chat.id, id, v);
    }
    forall c | c != chat.id ensures StatusesOf(db', c) == StatusesOf(db, c) {
      AdvancedStatuses(db, u, chat.id, id, c);
      UntouchedByAdvance(StatusesOf(db, c), u, chat.id, id);
    }
  }

  lemma ReadIsOneMap(db: Database, chat: Chat, u: UserId, id: MessageId)
    requires ChatConsistent(db, chat) && u in chat.users
    ensures MarkLastRead(db, u, chat.id, id) ==
            if id > Mark(db, u, chat.id) then Ok((db.(statuses := Map(db.statuses, Advance(u, chat.id, id))), true))
            else Ok((db, false))
  {
    StatusLookupIsSingle(db, chat, u);
  }

  /** The watermark becomes the larger of itself and the acknowledged id, a status is returned exactly on a
      strict advance, and every other watermark stays. */
  lemma ReadMovesOneWatermark(db: Database, chat: Chat, u: UserId, id: MessageId)
    requires RowsConsistent(db) && chat in db.chats && u in chat.users
    ensures MarkLastRead(db, u, chat.id, id).Ok?
    ensures MarkLastRead(db, u, chat.id, id).value.1 <==> id > Mark(db, u, chat.id)
    ensures var db' := MarkLastRead(db, u, chat.id, id).value.0;
            && db' == db.(statuses := db'.statuses)
            && Mark(db', u, chat.id) == Max(Mark(db, u, chat.id), id)
            && (forall v :: v in chat.users && v != u ==> Mark(db', v, chat.id) == Mark(db, v, chat.id))
            && (forall c :: c != chat.id ==> StatusesOf(db', c) == StatusesOf(db, c))
  {
    ReadIsOneMap(db, chat, u, id);
    AdvanceSetsMark(db, chat, u, id);
  }

  lemma AdvanceKeepsChatConsistent(db: Database, chat: Chat, u: UserId, id: MessageId, other: Chat)
    requires RowsConsistent(db) && chat in db.chats && u in chat.users && other in db.chats
    requires IsMessageOf(db, chat.id, id)
    ensures ChatConsistent(db.(statuses := Map(db.statuses, Advance(u, chat.id, id))), other)
  {
    AdvancedStatuses(db, u, chat.id, id, other.id);
    var rows := StatusesOf(db, other.id);
    assert rows[0] in rows && rows[1] in rows;
  }

  lemma AdvanceKeepsChatIds(db: Database, u: UserId, c: ChatId, id: MessageId)
    requires forall r :: r in db.statuses ==> r.chatId < db.nextChatId
    ensures forall r :: r in Map(db.statuses, Advance(u, c, id)) ==> r.chatId < db.nextChatId
  {
    var after := Map(db.statuses, Advance(u, c, id));
    forall r | r in after ensures r.chatId < db.nextChatId {
      var i :| 0 <= i < |after| && after[i] == r;
      assert db.statuses[i] in db.statuses;
    }
  }

  lemma AdvanceKeepsRows(db: Database, chat: Chat, u: UserId, id: MessageId)
    requires RowsConsistent(db) && chat in db.chats && u in chat.users && IsMessageOf(db, chat.id, id)
    ensures RowsConsistent(db.(statuses := Map(db.statuses, Advance(u, chat.id, id))))
  {
    var db' := db.(statuses := Map(db.statuses, Advance(u, chat.id, id)));
    forall other | other in db'.chats ensures ChatConsistent(db', other) {
      AdvanceKeepsChatConsistent(db, chat, u, id, other);
    }
    AdvanceKeepsChatIds(db, u, chat.id, id);
  }

  lemma ReadKeepsConsistent(db: Database, u: UserId, c: ChatId, id: MessageId)
    requires RowsConsistent(db) && Expected(db, ReadMessage(u, c, id))
    ensures MarkLastRead(db, u, c, id).Ok?
    ensures RowsConsistent(MarkLastRead(db, u, c, id).value.0)
    ensures Consistent(db) ==> Consistent(MarkLastRead(db, u, c, id).value.0)
  {
    var chat :| chat in db.chats && chat.id == c && u in chat.users;
    var m :| m in ActiveMessages(db, c) && m.id == id;
    assert m in db.messages;
    ReadIsOneMap(db, chat, u, id);
    AdvanceKeepsRows(db, chat, u, id);
  }

  // ---- deleting a chat ----

  lemma DeleteKeepsRows(db: Database, c: ChatId, c': ChatId)
    requires c != c'
    ensures StatusesOf(DeleteChat(db, c), c') == StatusesOf(db, c')
    ensures ActiveMessages(DeleteChat(db, c), c') == ActiveMessages(db, c')
  {
    FilterFilter(db.statuses, (r: ReadStatus) => r.chatId != c, OfChat(c'), OfChat(c'));
    FilterFilter(db.messages, (m: Message) => m.chatId != c, ActiveIn(c'), ActiveIn(c'));
  }

  lemma DeleteKeepsMessageOrder(db: Database, c: ChatId)
    requires MessagesOrdered(db)
    ensures MessagesOrdered(DeleteChat(db, c))
  {
    FilterIncreasing(db.messages, (m: Message) => m.chatId != c, MESSAGE_ID);
    var kept := DeleteChat(db, c).messages;
    forall i, j | 0 <= i < j < |kept| && kept[i].chatId == kept[j].chatId
      ensures kept[i].createdAt < kept[j].createdAt
    {
      assert kept[i] in kept && kept[j] in kept && MESSAGE_ID(kept[i]) < MESSAGE_ID(kept[j]);
      var x :| 0 <= x < |db.messages| && db.messages[x] == kept[i];
      var y :| 0 <= y < |db.messages| && db.messages[y] == kept[j];
      var kx, ky := MESSAGE_ID(db.messages[x]), MESSAGE_ID(db.messages[y]);
      assert x != y;
    }
  }

  lemma DeleteKeepsChatConsistent(db: Database, c: ChatId, chat: Chat)
    requires RowsConsistent(db) && chat in db.chats && chat.id != c
    ensures ChatConsistent(DeleteChat(db, c), chat)
  {
    DeleteKeepsRows(db, c, chat.id);
    forall id | IsMessageOf(db, chat.id, id) ensures IsMessageOf(DeleteChat(db, c), chat.id, id) {
      var m :| m in db.messages && m.chatId == chat.id && m.id == id;
      FilterKeeps(db.messages, (m: Message) => m.chatId != c, m);
    }
  }

  lemma DeleteKeepsPairs(db: Database, c: ChatId)
    requires Increasing(db.chats, CHAT_ID)
    ensures Increasing(DeleteChat(db, c).chats, CHAT_ID)
    ensures OneDirectChatPerPair(db) ==> OneDirectChatPerPair(DeleteChat(db, c))
  {
    FilterIncreasing(db.chats, (chat: Chat) => chat.id != c, CHAT_ID);
    var kept := DeleteChat(db, c).chats;
    forall i, j | 0 <= i < j < |kept| && ActiveDirect(kept[i]) && ActiveDirect(kept[j]) && OneDirectChatPerPair(db)
      ensures !SamePair(kept[i], kept[j])
    {
      assert kept[i] in kept && kept[j] in kept && CHAT_ID(kept[i]) < CHAT_ID(kept[j]);
      var x :| 0 <= x < |db.chats| && db.chats[x] == kept[i];
      var y :| 0 <= y < |db.chats| && db.chats[y] == kept[j];
      var kx, ky := CHAT_ID(db.chats[x]), CHAT_ID(db.chats[y]);
      assert x != y;
    }
  }

  lemma DeleteKeepsConsistent(db: Database, c: ChatId)
    requires RowsConsistent(db)
    ensures RowsConsistent(DeleteChat(db, c))
    ensures Consistent(db) ==> Consistent(DeleteChat(db, c))
  {
    DeleteKeepsMessageOrder(db, c);
    DeleteKeepsPairs(db, c);
    var db' := DeleteChat(db, c);
    forall chat | chat in db'.chats ensures ChatConsistent(db', chat) {
      DeleteKeepsChatConsistent(db, c, chat);
    }
  }

  // ---- every run ----

  lemma ApplyKeepsConsistent(db: Database, t: Transaction)
    requires Consistent(db) && Expected(db, t)
    ensures Consistent(Apply(db, t))
  {
    match t
    case CreateChat(a, b, now) =>
      PairLookupIsSingle(db, a, b);
      if b in db.users && DirectChatExists(db, a, b) == Ok(false) {
        CreateKeepsConsistent(db, a, b, now);
      }
    case SendMessage(u, c, content, createdAt, now) =>
      SendKeepsConsistent(db, u, c, content, createdAt, now);
    case ReadMessage(u, c, id) =>
      ReadKeepsConsistent(db, u, c, id);
    case RemoveChat(u, c) =>
      DeleteKeepsConsistent(db, c);
  }

  function Run(db: Database, ts: seq<Transaction>): Database {
    if ts == [] then db else Apply(Run(db, ts[..|ts| - 1]), ts[|ts| - 1])
  }

  ghost predicate ExpectedRun(db: Database, ts: seq<Transaction>) {
    forall i :: 0 <= i < |ts| ==> Expected(Run(db, ts[..i]), ts[i])
  }

  lemma PastIsExpected(db: Database, ts: seq<Transaction>)
    requires ts != [] && ExpectedRun(db, ts)
    ensures ExpectedRun(db, ts[..|ts| - 1]) && Expected(Run(db, ts[..|ts| - 1]), ts[|ts| - 1])
  {
    var n := |ts| - 1;
    assert forall i :: 0 <= i < n ==> ts[..n][..i] == ts[..i];
  }

  lemma {:induction false} RunKeepsConsistent(db: Database, ts: seq<Transaction>)
    requires Consistent(db) && ExpectedRun(db, ts)
    ensures Consistent(Run(db, ts))
  {
    if ts != [] {
      var n := |ts| - 1;
      PastIsExpected(db, ts);
      RunKeepsConsistent(db, ts[..n]);
      ApplyKeepsConsistent(Run(db, ts[..n]), ts[n]);
    }
  }

  /** In every run of the server from an empty database the tables stay consistent. */
  lemma {:induction false} EveryRunIsConsistent(users: set<UserId>, ts: seq<Transaction>)
    requires ExpectedRun(Empty(users), ts)
    ensures Consistent(Run(Empty(users), ts))
  {
    RunKeepsConsistent(Empty(users), ts);
  }
}
