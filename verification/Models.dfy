/** The rows of src/models.py and the facts that every run of the server keeps true of them. */
module Models {
  import opened Collections

  type UserId = nat
  type ChatId = nat
  type MessageId = nat
  type Time = int

  datatype ChatType = Direct | Group

  // A row's guid is a second name for its id, so one name is modelled for both.
  datatype Message = Message(id: MessageId, chatId: ChatId, author: UserId, content: string,
                             createdAt: Time, isDeleted: bool)

  // The column last_read_message_id is nullable.
  datatype ReadStatus = ReadStatus(userId: UserId, chatId: ChatId, lastRead: Option<MessageId>)

  datatype Chat = Chat(id: ChatId, chatType: ChatType, users: seq<UserId>, updatedAt: Time, isDeleted: bool)

  datatype Database = Database(users: set<UserId>, chats: seq<Chat>, messages: seq<Message>,
                               statuses: seq<ReadStatus>, nextChatId: ChatId, nextMessageId: MessageId)

  datatype DbError = MultipleResultsFound | IntegrityError | UnboundWatermark | NullWatermark

  const MESSAGE_ID: Message -> int := (m: Message) => m.id
  const CREATED_AT: Message -> int := (m: Message) => m.createdAt
  const CHAT_ID: Chat -> int := (c: Chat) => c.id
  const UPDATED_AT: Chat -> int := (c: Chat) => c.updatedAt

  function ActiveIn(c: ChatId): Message -> bool {
    (m: Message) => m.chatId == c && !m.isDeleted
  }

  function OfChat(c: ChatId): ReadStatus -> bool {
    (r: ReadStatus) => r.chatId == c
  }

  function HasId(c: ChatId): Chat -> bool {
    (chat: Chat) => chat.id == c
  }

  /** The relationship chat.read_statuses. */
  function StatusesOf(db: Database, c: ChatId): seq<ReadStatus> {
    Filter(db.statuses, OfChat(c))
  }

  ghost predicate IsMessageOf(db: Database, c: ChatId, id: MessageId) {
    exists m :: m in db.messages && m.chatId == c && m.id == id
  }

  ghost predicate IsWatermark(db: Database, c: ChatId, mark: Option<MessageId>) {
    mark.Some? && (mark.value == 0 || IsMessageOf(db, c, mark.value))
  }

  /** Two distinct participants, one non-null watermark for each, and no messages by anyone else. */
  ghost predicate ChatConsistent(db: Database, chat: Chat) {
    && |chat.users| == 2 && chat.users[0] != chat.users[1]
    && chat.id < db.nextChatId
    && (var rows := StatusesOf(db, chat.id);
        && |rows| == 2 && rows[0].userId == chat.users[0] && rows[1].userId == chat.users[1]
        && IsWatermark(db, chat.id, rows[0].lastRead) && IsWatermark(db, chat.id, rows[1].lastRead))
    && forall m :: m in db.messages && m.chatId == chat.id ==> m.author in chat.users
  }

  /** Ids are handed out in order, and within a chat the timestamps follow the ids. */
  ghost predicate MessagesOrdered(db: Database) {
    && Increasing(db.messages, MESSAGE_ID)
    && (forall m :: m in db.messages ==> 0 < m.id < db.nextMessageId && m.chatId < db.nextChatId)
    && (forall i, j :: 0 <= i < j < |db.messages| && db.messages[i].chatId == db.messages[j].chatId ==>
          db.messages[i].createdAt < db.messages[j].createdAt)
  }

  lemma MessageIdsAreUnique(db: Database, a: Message, b: Message)
    requires MessagesOrdered(db) && a in db.messages && b in db.messages
    ensures a.id == b.id ==> a == b
  {
    var i :| 0 <= i < |db.messages| && db.messages[i] == a;
    var j :| 0 <= j < |db.messages| && db.messages[j] == b;
    if a.id == b.id {
      IncreasingIsInjective(db.messages, MESSAGE_ID, i, j);
    }
  }

  predicate ActiveDirect(chat: Chat) {
    chat.chatType.Direct? && !chat.isDeleted
  }

  predicate SamePair(a: Chat, b: Chat) {
    (forall u :: u in a.users ==> u in b.users) && (forall u :: u in b.users ==> u in a.users)
  }

  ghost predicate OneDirectChatPerPair(db: Database) {
    forall i, j :: 0 <= i < j < |db.chats| && ActiveDirect(db.chats[i]) && ActiveDirect(db.chats[j]) ==>
      !SamePair(db.chats[i], db.chats[j])
  }

  /** Everything but the uniqueness of direct chats, which needs requests that do not race. */
  ghost predicate RowsConsistent(db: Database) {
    && MessagesOrdered(db)
    && Increasing(db.chats, CHAT_ID)
    && (forall chat :: chat in db.chats ==> ChatConsistent(db, chat))
    && (forall r :: r in db.statuses ==> r.chatId < db.nextChatId)
    && 0 < db.nextMessageId
  }

  ghost predicate Consistent(db: Database) {
    RowsConsistent(db) && OneDirectChatPerPair(db)
  }

  /** SQLAlchemy's scalar_one_or_none. */
  function ScalarOneOrNone<T>(rows: seq<T>): Result<Option<T>, DbError> {
    if |rows| == 0 then Ok(None)
    else if |rows| == 1 then Ok(Some(rows[0]))
    else Err(MultipleResultsFound)
  }

  /** get_chat_by_guid, src/chat/services.py:52-61. */
  function ChatByGuid(db: Database, c: ChatId): Result<Option<Chat>, DbError> {
    ScalarOneOrNone(Filter(db.chats, HasId(c)))
  }

  /** A lookup by guid never raises, and finds exactly the row that has the guid. */
  lemma ChatLookupIsSingle(db: Database, c: ChatId)
    requires RowsConsistent(db)
    ensures ChatByGuid(db, c).Ok?
    ensures forall chat :: ChatByGuid(db, c).value == Some(chat) <==> chat in db.chats && chat.id == c
  {
    var rows := Filter(db.chats, HasId(c));
    FilterIncreasing(db.chats, HasId(c), CHAT_ID);
    assert |rows| > 1 ==> CHAT_ID(rows[0]) < CHAT_ID(rows[1]);
    assert forall i :: 0 <= i < |rows| ==> rows[i] in rows;
    forall chat | chat in db.chats && chat.id == c ensures rows == [chat] {
      FilterKeeps(db.chats, HasId(c), chat);
    }
    if |rows| == 1 {
      assert rows[0] in rows;
    }
  }
}
