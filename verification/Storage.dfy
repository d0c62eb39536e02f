/** The database session and the Redis cache as the objects that views and handlers update in place. */
module Storage {
  import opened Collections
  import opened Models
  import opened Store
  import opened CacheProtocol
  import opened WriterRuns

  class ChatDatabase {
    var users: set<UserId>
    var chats: seq<Chat>
    var messages: seq<Message>
    var readStatuses: seq<ReadStatus>
    var nextChatId: ChatId
    var nextMessageId: MessageId

    function Tables(): Database
      reads this
    {
      Models.Database(users, chats, messages, readStatuses, nextChatId, nextMessageId)
    }

    constructor (users: set<UserId>)
      ensures Tables() == Empty(users)
    {
      this.users, chats, messages, readStatuses := users, [], [], [];
      nextChatId, nextMessageId := 1, 1;
    }

    method CreateDirectChat(initiator: UserId, recipient: UserId, now: Time) returns (chat: ChatId)
      modifies this
      ensures Tables() == Store.CreateDirectChat(old(Tables()), initiator, recipient, now)
      ensures chat == old(nextChatId)
    {
      chat := nextChatId;
      chats := chats + [Chat(chat, Direct, [initiator, recipient], now, false)];
      var initiatorStatus := ReadStatus(initiator, chat, Some(0));
      var recipientStatus := ReadStatus(recipient, chat, Some(0));
      readStatuses := readStatuses + [initiatorStatus, recipientStatus];
      nextChatId := chat + 1;
    }

    /** The transaction of new_message_handler, rolled back when the chat is gone. */
    method SaveMessage(author: UserId, chat: ChatId, content: string, createdAt: Time, now: Time)
      returns (id: Result<MessageId, DbError>)
      modifies this
      ensures match Store.SaveMessage(old(Tables()), author, chat, content, createdAt, now)
              case Ok(tables) => id == Ok(old(nextMessageId)) && Tables() == tables
              case Err(e) => id == Err(e) && Tables() == old(Tables())
    {
      if Filter(chats, HasId(chat)) == [] {
        return Err(IntegrityError);
      }
      id := Ok(nextMessageId);
      messages := messages + [Message(nextMessageId, chat, author, content, createdAt, false)];
      nextMessageId := nextMessageId + 1;
      chats := Map(chats, Touch(chat, now));
    }

    /** mark_last_read_message. */
    method MarkLastReadMessage(user: UserId, chat: ChatId, id: MessageId) returns (advanced: Result<bool, DbError>)
      modifies this
      ensures match MarkLastRead(old(Tables()), user, chat, id)
              case Ok((tables, moved)) => advanced == Ok(moved) && Tables() == tables
              case Err(e) => advanced == Err(e) && Tables() == old(Tables())
    {
      var rows := Filter(readStatuses, StatusOf(user, chat));
      if |rows| > 1 {
        return Err(MultipleResultsFound);
      }
      if rows == [] {
        if Filter(chats, HasId(chat)) == [] {
          return Err(IntegrityError);
        }
        readStatuses := readStatuses + [ReadStatus(user, chat, Some(id))];
        return Ok(true);
      }
      if rows[0].lastRead.None? {
        return Err(NullWatermark);
      }
      if rows[0].lastRead.value >= id {
        return Ok(false);
      }
      readStatuses := Map(readStatuses, Advance(user, chat, id));
      advanced := Ok(true);
    }

    method DeleteChat(chat: ChatId)
      modifies this
      ensures Tables() == Store.DeleteChat(old(Tables()), chat)
    {
      chats := Filter(chats, (c: Chat) => c.id != chat);
      messages := Filter(messages, (m: Message) => m.chatId != chat);
      readStatuses := Filter(readStatuses, (r: ReadStatus) => r.chatId != chat);
    }
  }

  class RedisCache {
    var entries: Cache

    constructor ()
      ensures entries == map[]
    {
      entries := map[];
    }

    method Get(key: Key, now: Time) returns (value: Option<Response>)
      ensures value == CachedValue(entries, key, now)
    {
      value := if key in entries && now < entries[key].expiresAt then Some(entries[key].value) else None;
    }

    method Set(key: Key, value: Response, now: Time, expiration: Time)
      modifies this
      ensures entries == old(entries)[key := Entry(value, now + expiration)]
    {
      entries := entries[key := Entry(value, now + expiration)];
    }

    method Delete(key: Key)
      modifies this
      ensures entries == old(entries) - {key}
    {
      entries := entries - {key};
    }

    /** The loops of src/utils.py: delete every key that the scan finds. */
    method ClearMatching(pattern: Pattern)
      modifies this
      ensures entries == Without(old(entries), pattern)
    {
      var found := set k | k in entries && Matches(pattern, k);
      var left := found;
      while left != {}
        invariant left <= found && entries == old(entries) - (found - left)
        decreases left
      {
        var key :| key in left;
        Delete(key);
        left := left - {key};
      }
    }

    method ClearForGetMessages(chat: ChatId)
      modifies this
      ensures entries == Without(old(entries), PagesOf(chat))
      ensures Dropped(old(entries), entries, iset k: Key | k.PageKey? && k.chat == chat)
    {
      ClearMatching(PagesOf(chat));
    }

    /** The loop that clears the direct chats of each user of a chat. */
    method ClearForGetDirectChats(users: seq<UserId>)
      modifies this
      ensures entries == Cleared(old(entries), ClearLists(users))
      ensures Dropped(old(entries), entries, iset k: Key | k.ListKey? && k.user in users)
    {
      ListsAreDropped(entries, users);
      assert users[0..] == users;
      for i := 0 to |users|
        invariant Cleared(entries, ClearLists(users[i..])) == Cleared(old(entries), ClearLists(users))
      {
        var rest := ClearLists(users[i..]);
        assert rest[1..] == ClearLists(users[i + 1..]) && rest[0] == Scan(ListFor(users[i]));
        ClearMatching(ListFor(users[i]));
      }
    }
  }
}
