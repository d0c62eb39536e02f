/** The HTTP views of src/chat/router.py, as they run on the database session and the cache. */
module Views {
  import opened Collections
  import opened Models
  import Queries
  import opened DirectChats
  import opened Store
  import opened CacheProtocol
  import WriterRuns
  import opened Storage
  import ChatServices

  method CreateDirectChatView(db: ChatDatabase, currentUser: UserId, recipientUser: UserId, now: Time)
    returns (r: Result<ChatId, ViewError>)
    modifies db
    ensures (db.Tables(), r) == CreateChatView(old(db.Tables()), currentUser, recipientUser, now)
  {
    if recipientUser !in db.users {
      return Err(NotFound);
    }
    var rows := Filter(db.chats, DirectPair(currentUser, recipientUser));
    if |rows| > 1 {
      return Err(ViewError.Database(MultipleResultsFound));
    }
    if |rows| == 1 {
      return Err(Conflict);
    }
    var chat := db.CreateDirectChat(currentUser, recipientUser, now);
    r := Ok(chat);
  }

  method GetUserMessagesInChat(db: ChatDatabase, cache: RedisCache, currentUser: UserId, chatGuid: ChatId,
                               requested: nat, now: Time)
    returns (r: Result<Response, ViewError>)
    modifies cache
    ensures (r, cache.entries) == PageView(db.Tables(), old(cache.entries), now, currentUser, chatGuid, requested)
  {
    var tables := db.Tables();
    var found := ChatByGuid(tables, chatGuid);
    if found.Err? {
      return Err(ViewError.Database(found.error));
    }
    if found.value.None? {
      return Err(NotFound);
    }
    var chat := found.value.value;
    var unread := Queries.UnreadCount(tables, currentUser, chatGuid);
    if unread.Err? {
      return Err(ViewError.Database(unread.error));
    }
    var size := Max(requested, unread.value);
    var key := PageKey(chatGuid, size);
    var cached := cache.Get(key, now);
    if cached.Some? {
      return Ok(cached.value);
    }
    if currentUser !in chat.users {
      return Err(Conflict);
    }
    var first := ChatServices.GetChatMessages(tables, currentUser, chatGuid, size);
    cache.Set(key, PageResponse(first), now, CACHE_EXPIRATION_SECONDS);
    r := Ok(PageResponse(first));
  }

  /** sum(direct_chat.new_messages_count for direct_chat in ...). */
  method TotalOf(summaries: seq<ChatSummary>) returns (total: nat)
    ensures ChatList(summaries, total) == ListOf(summaries)
  {
    total := 0;
    ghost var counts := Map(summaries, (s: ChatSummary) => s.newMessages);
    for i := 0 to |summaries|
      invariant total == Sum(counts[..i])
    {
      assert counts[..i + 1][..i] == counts[..i];
      total := total + summaries[i].newMessages;
    }
    assert counts[..|summaries|] == counts;
  }

  method GetUserChatsView(db: ChatDatabase, cache: RedisCache, currentUser: UserId, now: Time) returns (r: Response)
    modifies cache
    ensures (r, cache.entries) == ListView(db.Tables(), old(cache.entries), now, currentUser)
  {
    var key := ListKey(currentUser);
    var cached := cache.Get(key, now);
    if cached.Some? {
      return cached.value;
    }
    var tables := db.Tables();
    var chats := UserDirectChats(tables, currentUser);
    var summaries := ChatServices.GetNewMessagesPerChat(tables, chats, currentUser);
    var total := TotalOf(summaries);
    r := ListResponse(ChatList(summaries, total));
    cache.Set(key, r, now, CACHE_EXPIRATION_SECONDS);
  }

  method DeleteDirectChatView(db: ChatDatabase, cache: RedisCache, currentUser: UserId, chatGuid: ChatId)
    returns (r: Result<(), ViewError>)
    modifies db, cache
    ensures r.Ok? <==>
      Participates(old(db.Tables()), currentUser, chatGuid) && ChatByGuid(old(db.Tables()), chatGuid).Ok?
    ensures r.Ok? ==>
      && db.Tables() == Apply(old(db.Tables()), RemoveChat(currentUser, chatGuid))
      && cache.entries ==
           WriterRuns.Cleared(old(cache.entries),
                              WriterRuns.Clears(old(db.Tables()), RemoveChat(currentUser, chatGuid)))
    ensures r.Ok? ==> forall chat :: chat in old(db.chats) && chat.id == chatGuid ==>
      WriterRuns.Dropped(old(cache.entries), cache.entries, iset k: Key | k.ListKey? && k.user in chat.users)
    ensures r.Err? ==> db.Tables() == old(db.Tables()) && cache.entries == old(cache.entries)
  {
    ghost var tables := db.Tables();
    var rows := Filter(db.chats, HasId(chatGuid));
    forall chat | chat in db.chats && chat.id == chatGuid ensures chat in rows {
      FilterKeeps(db.chats, HasId(chatGuid), chat);
    }
    if |rows| > 1 {
      return Err(ViewError.Database(MultipleResultsFound));
    }
    if rows == [] || currentUser !in rows[0].users {
      assert Participates(tables, currentUser, chatGuid) ==> exists chat :: chat in rows && currentUser in chat.users;
      return Err(NotFound);
    }
    assert rows[0] in rows && rows[0] in tables.chats;
    db.DeleteChat(chatGuid);
    cache.ClearForGetDirectChats(rows[0].users);
    r := Ok(());
  }
}
