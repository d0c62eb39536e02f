/** The queries of src/chat/services.py, as functions of the tables. */
module Queries {
  import opened Collections
  import opened Models

  /** GetMessageSchema. */
  datatype MessageView = MessageView(id: MessageId, chatId: ChatId, author: UserId, content: string,
                                     createdAt: Time, isRead: bool)

  /** GetOldMessagesSchema, and GetMessagesSchema without its last read message. */
  datatype Page = Page(messages: seq<MessageView>, hasMore: bool)

  datatype FirstPage = FirstPage(page: Page, lastReadMessage: Option<Message>)

  function ActiveMessages(db: Database, c: ChatId): seq<Message> {
    Filter(db.messages, ActiveIn(c))
  }

  function CreatedBefore(t: Time): Message -> bool {
    (m: Message) => m.createdAt < t
  }

  function IdAbove(mark: MessageId): Message -> bool {
    (m: Message) => m.id > mark
  }

  function IdIs(id: MessageId): Message -> bool {
    (m: Message) => m.id == id
  }

  function NewFor(u: UserId, mark: MessageId): Message -> bool {
    (m: Message) => m.author != u && m.id > mark
  }

  /** The loop over chat.read_statuses: the last row of the viewer wins, as does the last row of anyone else. */
  function OwnMark(rows: seq<ReadStatus>, u: UserId): Option<MessageId> {
    if rows == [] then None
    else if rows[|rows| - 1].userId == u then rows[|rows| - 1].lastRead
    else OwnMark(rows[..|rows| - 1], u)
  }

  function OtherMark(rows: seq<ReadStatus>, u: UserId): Option<MessageId> {
    if rows == [] then None
    else if rows[|rows| - 1].userId != u then rows[|rows| - 1].lastRead
    else OtherMark(rows[..|rows| - 1], u)
  }

  function OrZero(mark: Option<MessageId>): MessageId {
    if mark.None? then 0 else mark.value
  }

  function View(m: Message, u: UserId, own: MessageId, other: MessageId): MessageView {
    MessageView(m.id, m.chatId, m.author, m.content, m.createdAt, m.id <= if m.author == u then other else own)
  }

  function Views(rows: seq<Message>, u: UserId, own: MessageId, other: MessageId): seq<MessageView> {
    Map(rows, (m: Message) => View(m, u, own, other))
  }

  function PageOf(rows: seq<Message>, limit: nat, u: UserId, own: MessageId, other: MessageId): Page {
    Page(Views(Take(rows, limit), u, own, other), |rows| > limit)
  }

  /** Session.get: lookup by primary key, deleted rows included. */
  function MessageById(db: Database, id: MessageId): Option<Message> {
    var rows := Filter(db.messages, IdIs(id));
    if rows == [] then None else Some(rows[0])
  }

  /** get_chat_messages. */
  function ChatMessages(db: Database, u: UserId, c: ChatId, size: nat): FirstPage {
    var rows := Take(OrderDescending(ActiveMessages(db, c), CREATED_AT), size + 1);
    var own := OrZero(OwnMark(StatusesOf(db, c), u));
    var other := OrZero(OtherMark(StatusesOf(db, c), u));
    FirstPage(PageOf(rows, size, u, own, other), MessageById(db, other))
  }

  /** The watermark that each message of a page is compared with is bound and not null. */
  predicate MarksKnown(rows: seq<Message>, u: UserId, own: Option<MessageId>, other: Option<MessageId>) {
    forall m :: m in rows ==> if m.author == u then other.Some? else own.Some?
  }

  /** get_older_chat_messages: unlike the first page it has no default for a missing watermark. */
  function OlderMessages(db: Database, u: UserId, c: ChatId, limit: nat, before: Time): Result<Page, DbError> {
    var rows := Take(OrderDescending(Filter(ActiveMessages(db, c), CreatedBefore(before)), CREATED_AT), limit + 1);
    var own, other := OwnMark(StatusesOf(db, c), u), OtherMark(StatusesOf(db, c), u);
    if MarksKnown(Take(rows, limit), u, own, other) then
      Ok(PageOf(rows, limit, u, OrZero(own), OrZero(other)))
    else
      Err(UnboundWatermark)
  }

  /** get_unread_messages_count: the first own row decides, comparing with a null watermark raises,
      and messages by the user count as well. */
  function UnreadCount(db: Database, u: UserId, c: ChatId): Result<nat, DbError> {
    var rows := Filter(StatusesOf(db, c), (r: ReadStatus) => r.userId == u);
    if rows == [] then Ok(0)
    else if rows[0].lastRead.None? then Err(NullWatermark)
    else Ok(|Filter(ActiveMessages(db, c), IdAbove(rows[0].lastRead.value))|)
  }

  /** max(size, unread_messages_count) in get_user_messages_in_chat. */
  function PageSize(db: Database, u: UserId, c: ChatId, requested: nat): Result<nat, DbError> {
    match UnreadCount(db, u, c)
    case Err(e) => Err(e)
    case Ok(unread) => Ok(Max(requested, unread))
  }

  /** add_new_messages_stats_to_direct_chat. */
  function ChatStats(db: Database, u: UserId, c: ChatId): Result<nat, DbError> {
    var own := OwnMark(StatusesOf(db, c), u);
    if own.None? then Err(UnboundWatermark)
    else Ok(|Filter(ActiveMessages(db, c), NewFor(u, own.value))|)
  }

  // ---- what the queries mean ----

  /** The watermark of a participant. */
  function Mark(db: Database, u: UserId, c: ChatId): MessageId {
    OrZero(OwnMark(StatusesOf(db, c), u))
  }

  function Peer(chat: Chat, u: UserId): UserId
    requires |chat.users| == 2
  {
    if chat.users[0] == u then chat.users[1] else chat.users[0]
  }

  /** A message is read when the participant who did not write it has a watermark at or past it. */
  predicate IsReadByPeer(db: Database, chat: Chat, m: Message)
    requires |chat.users| == 2
  {
    m.id <= Mark(db, Peer(chat, m.author), chat.id)
  }

  /** What a viewer should see: the same for both participants. */
  function TrueView(db: Database, chat: Chat, m: Message): MessageView
    requires |chat.users| == 2
  {
    MessageView(m.id, m.chatId, m.author, m.content, m.createdAt, IsReadByPeer(db, chat, m))
  }

  function TrueViews(db: Database, chat: Chat, rows: seq<Message>): seq<MessageView>
    requires |chat.users| == 2
  {
    Map(rows, (m: Message) => TrueView(db, chat, m))
  }

  /** Unread by `u`, one message at a time. */
  function NewMessages(db: Database, chat: Chat, u: UserId): seq<Message>
    requires |chat.users| == 2
  {
    Filter(ActiveMessages(db, chat.id), (m: Message) => m.author != u && !IsReadByPeer(db, chat, m))
  }

  /** With two status rows the loop binds each watermark to its own row, whoever is looking. */
  lemma {:induction false} MarksOfParticipants(db: Database, chat: Chat, u: UserId)
    requires ChatConsistent(db, chat) && u in chat.users
    ensures OwnMark(StatusesOf(db, chat.id), u) == Some(Mark(db, u, chat.id))
    ensures OtherMark(StatusesOf(db, chat.id), u) == Some(Mark(db, Peer(chat, u), chat.id))
    ensures Peer(chat, u) in chat.users && Peer(chat, Peer(chat, u)) == u
  {
    var rows := StatusesOf(db, chat.id);
    assert rows[..|rows| - 1] == [rows[0]];
    assert OwnMark(rows, chat.users[1]) == rows[1].lastRead;
    assert OwnMark(rows, chat.users[0]) == OwnMark([rows[0]], chat.users[0]) == rows[0].lastRead;
  }

  lemma {:induction false} ViewsAreTrue(db: Database, chat: Chat, u: UserId, rows: seq<Message>)
    requires ChatConsistent(db, chat) && u in chat.users
    requires forall m :: m in rows ==> m in db.messages && m.chatId == chat.id
    ensures Views(rows, u, Mark(db, u, chat.id), Mark(db, Peer(chat, u), chat.id)) == TrueViews(db, chat, rows)
  {
    MarksOfParticipants(db, chat, u);
    var own, other := Mark(db, u, chat.id), Mark(db, Peer(chat, u), chat.id);
    forall i | 0 <= i < |rows|
      ensures Views(rows, u, own, other)[i] == TrueViews(db, chat, rows)[i]
    {
      assert rows[i] in rows;
      MarksOfParticipants(db, chat, rows[i].author);
    }
  }

  lemma {:induction false} TimesFollowIdsPrefix(db: Database, c: ChatId, n: nat)
    requires MessagesOrdered(db) && n <= |db.messages|
    ensures Increasing(Filter(db.messages[..n], ActiveIn(c)), CREATED_AT)
  {
    if n > 0 {
      TimesFollowIdsPrefix(db, c, n - 1);
      var rows := db.messages[..n];
      assert rows[..n - 1] == db.messages[..n - 1] && rows[n - 1] == db.messages[n - 1];
      forall x | x in Filter(rows[..n - 1], ActiveIn(c)) && rows[n - 1].chatId == c
        ensures CREATED_AT(x) < CREATED_AT(rows[n - 1])
      {
        assert x in rows[..n - 1];
      }
    }
  }

  lemma TimesFollowIds(db: Database, c: ChatId)
    requires MessagesOrdered(db)
    ensures Increasing(ActiveMessages(db, c), CREATED_AT)
  {
    TimesFollowIdsPrefix(db, c, |db.messages|);
    assert db.messages[..|db.messages|] == db.messages;
  }

  /** ORDER BY created_at DESC is the reverse of the id order. */
  lemma {:induction false} ActiveInOrder(db: Database, c: ChatId)
    requires MessagesOrdered(db)
    ensures Increasing(ActiveMessages(db, c), MESSAGE_ID)
    ensures Increasing(ActiveMessages(db, c), CREATED_AT)
    ensures OrderDescending(ActiveMessages(db, c), CREATED_AT) == Reverse(ActiveMessages(db, c))
  {
    FilterIncreasing(db.messages, ActiveIn(c), MESSAGE_ID);
    TimesFollowIds(db, c);
    OrderOfIncreasing(ActiveMessages(db, c), CREATED_AT);
  }
}
