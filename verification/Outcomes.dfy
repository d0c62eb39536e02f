/** What the handlers leave behind, written out in the terms of the rows, the cache keys and the broadcasts. */
module Outcomes {
  import opened Collections
  import opened Models
  import opened Queries
  import opened Store
  import opened CacheProtocol
  import opened WriterRuns
  import opened Effects
  import Presence

  /** The row is saved, its chat is touched and nothing else in the tables moves; the pages of the chat and the lists of
      its participants are gone from the cache, and no other key; the author is marked online and announced, and then
      the row goes out on the channel of the chat. */
  ghost predicate IsSent(was: World, now: World, chat: Chat, row: Message, at: Time) {
    && now.tables == was.tables.(chats := now.tables.chats, messages := was.tables.messages + [row],
                                 nextMessageId := row.id + 1)
    && |now.tables.chats| == |was.tables.chats|
    && (forall i :: 0 <= i < |was.tables.chats| ==>
          now.tables.chats[i] == was.tables.chats[i].(updatedAt := if was.tables.chats[i].id == chat.id then at
                                                                   else was.tables.chats[i].updatedAt))
    && Dropped(was.entries, now.entries,
               iset k: Key | (k.PageKey? && k.chat == chat.id) || (k.ListKey? && k.user in chat.users))
    && now.published == was.published
         + [(chat.id, StatusNote(row.author, true)),
            (chat.id, NewMessage(row.id, chat.id, row.author, row.content, row.createdAt))]
    && now.log == was.log + [Presence.Online(row.author, at)]
  }

  lemma SendClears(entries: Cache, tables: Database, chat: Chat)
    requires RowsConsistent(tables) && chat in tables.chats
    ensures Dropped(entries, ClearedBySend(entries, tables, chat.id, chat.id),
                    iset k: Key | (k.PageKey? && k.chat == chat.id) || (k.ListKey? && k.user in chat.users))
  {
    UsersOfChat(tables, chat);
    ListsAreDropped(entries, chat.users);
  }

  /** new_message_handler's effect on a chat that is there. */
  lemma {:induction false} SendOutcome(was: World, chat: Chat, user: UserId, content: string, createdAt: Time, at: Time)
    requires RowsConsistent(was.tables) && chat in was.tables.chats
    ensures SaveMessage(was.tables, user, chat.id, content, createdAt, at).Ok?
    ensures IsSent(was, AfterSend(was, user, chat.id, chat.id, content, createdAt, at), chat,
                   Message(was.tables.nextMessageId, chat.id, user, content, createdAt, false), at)
  {
    FilterKeeps(was.tables.chats, HasId(chat.id), chat);
    SendClears(was.entries, was.tables, chat);
  }

  /** A chat that is not there: nothing is saved, cleared, marked or published. */
  lemma {:induction false} SendNowhere(was: World, user: UserId, c: ChatId, content: string, createdAt: Time, at: Time)
    requires forall chat :: chat in was.tables.chats ==> chat.id != c
    ensures SaveMessage(was.tables, user, c, content, createdAt, at) == Err(IntegrityError)
    ensures AfterSend(was, user, c, c, content, createdAt, at) == was
  {
    FilterNone(was.tables.chats, HasId(c));
  }

  /** A message above the user's watermark becomes the watermark and no other row moves; the pages of the chat are gone
      from the cache, and no other key; the user is marked online and announced, and then exactly this acknowledgement
      goes out on the channel of the chat. Any other message changes nothing. */
  ghost predicate IsAcknowledged(was: World, now: World, user: UserId, chat: Chat, id: MessageId, at: Time) {
    if id <= Mark(was.tables, user, chat.id) then now == was
    else
      && now.tables == was.tables.(statuses := now.tables.statuses)
      && Mark(now.tables, user, chat.id) == id
      && (forall v :: v in chat.users && v != user ==> Mark(now.tables, v, chat.id) == Mark(was.tables, v, chat.id))
      && (forall c :: c != chat.id ==> StatusesOf(now.tables, c) == StatusesOf(was.tables, c))
      && Dropped(was.entries, now.entries, iset k: Key | k.PageKey? && k.chat == chat.id)
      && now.published == was.published
           + [(chat.id, StatusNote(user, true)), (chat.id, MessageRead(user, chat.id, id))]
      && now.log == was.log + [Presence.Online(user, at)]
  }

  /** message_read_handler's effect when the message and the chat are known. */
  lemma {:induction false} ReadOutcome(was: World, chat: Chat, user: UserId, id: MessageId, at: Time)
    requires RowsConsistent(was.tables) && chat in was.tables.chats && user in chat.users
    ensures MarkLastRead(was.tables, user, chat.id, id).Ok?
    ensures IsAcknowledged(was, AfterRead(was, user, chat.id, chat.id, id, at), user, chat, id, at)
  {
    ReadIsOneMap(was.tables, chat, user, id);
    ReadMovesOneWatermark(was.tables, chat, user, id);
  }

  lemma FriendIsPeer(tables: Database, chat: Chat, user: UserId)
    requires RowsConsistent(tables) && chat in tables.chats
    ensures |chat.users| == 2
    ensures var friends := Filter(UsersOf(tables, chat.id), (u: UserId) => u != user);
            friends != [] && friends[0] == Peer(chat, user)
  {
    UsersOfChat(tables, chat);
    assert ChatConsistent(tables, chat);
    var p := (u: UserId) => u != user;
    assert chat.users[..1] == [chat.users[0]] && chat.users[..1][..0] == [];
    assert Filter(chat.users[..1], p) == if p(chat.users[0]) then [chat.users[0]] else [];
  }
}
