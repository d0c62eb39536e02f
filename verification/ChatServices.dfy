/** The loops of src/chat/services.py and src/websocket/services.py, against the query functions. */
module ChatServices {
  import opened Collections
  import opened Models
  import opened Queries
  import opened DirectChats

  /** The loop over chat.read_statuses in get_chat_messages and get_older_chat_messages. */
  method FindWatermarks(readStatuses: seq<ReadStatus>, userId: UserId)
    returns (own: Option<MessageId>, other: Option<MessageId>)
    ensures own == OwnMark(readStatuses, userId) && other == OtherMark(readStatuses, userId)
  {
    own, other := None, None;
    for i := 0 to |readStatuses|
      invariant own == OwnMark(readStatuses[..i], userId) && other == OtherMark(readStatuses[..i], userId)
    {
      var readStatus := readStatuses[i];
      assert readStatuses[..i + 1][..i] == readStatuses[..i];
      if readStatus.userId != userId {
        other := readStatus.lastRead;
      } else {
        own := readStatus.lastRead;
      }
    }
    assert readStatuses[..|readStatuses|] == readStatuses;
  }

  /** The list comprehension over the rows: comparing with an unbound or null watermark raises. */
  method BuildSchemas(rows: seq<Message>, userId: UserId, own: Option<MessageId>, other: Option<MessageId>)
    returns (schemas: Result<seq<MessageView>, DbError>)
    ensures schemas == if MarksKnown(rows, userId, own, other)
                       then Ok(Views(rows, userId, OrZero(own), OrZero(other))) else Err(UnboundWatermark)
  {
    var built: seq<MessageView> := [];
    for i := 0 to |rows|
      invariant built == Views(rows[..i], userId, OrZero(own), OrZero(other))
      invariant MarksKnown(rows[..i], userId, own, other)
    {
      var m := rows[i];
      assert m in rows;
      assert rows[..i + 1] == rows[..i] + [m];
      var mark := if m.author == userId then other else own;
      if mark.None? {
        return Err(UnboundWatermark);
      }
      built := built + [MessageView(m.id, m.chatId, m.author, m.content, m.createdAt, m.id <= mark.value)];
    }
    assert rows[..|rows|] == rows;
    schemas := Ok(built);
  }

  method GetChatMessages(db: Database, userId: UserId, chat: ChatId, size: nat) returns (first: FirstPage)
    ensures first == ChatMessages(db, userId, chat, size)
  {
    var rows := Take(OrderDescending(ActiveMessages(db, chat), CREATED_AT), size + 1);
    var hasMoreMessages := |rows| > size;
    var messages := Take(rows, size);
    var own, other := FindWatermarks(StatusesOf(db, chat), userId);
    if own.None? {
      own := Some(0);
    }
    if other.None? {
      other := Some(0);
    }
    var schemas := BuildSchemas(messages, userId, own, other);
    first := FirstPage(Page(schemas.value, hasMoreMessages), MessageById(db, other.value));
  }

  method GetOlderChatMessages(db: Database, userId: UserId, chat: ChatId, limit: nat, createdAt: Time)
    returns (page: Result<Page, DbError>)
    ensures page == OlderMessages(db, userId, chat, limit, createdAt)
  {
    var older := Filter(ActiveMessages(db, chat), CreatedBefore(createdAt));
    var rows := Take(OrderDescending(older, CREATED_AT), limit + 1);
    var hasMoreMessages := |rows| > limit;
    var own, other := FindWatermarks(StatusesOf(db, chat), userId);
    var schemas := BuildSchemas(Take(rows, limit), userId, own, other);
    match schemas
    case Ok(messages) => page := Ok(Page(messages, hasMoreMessages));
    case Err(e) => page := Err(e);
  }

  method AddNewMessagesStats(db: Database, userId: UserId, chat: ChatId) returns (stats: Result<(nat, bool), DbError>)
    ensures match ChatStats(db, userId, chat)
            case Ok(count) => stats == Ok((count, count > 0))
            case Err(e) => stats == Err(e)
  {
    var own, _ := FindWatermarks(StatusesOf(db, chat), userId);
    if own.None? {
      return Err(UnboundWatermark);
    }
    var count := |Filter(ActiveMessages(db, chat), NewFor(userId, own.value))|;
    stats := Ok((count, count != 0));
  }

  method BuildSummaries(chats: seq<Chat>, counts: map<ChatId, nat>) returns (summaries: seq<ChatSummary>)
    requires counts.Keys >= IdsOf(chats)
    ensures |summaries| == |chats|
    ensures forall j :: 0 <= j < |chats| ==>
      chats[j].id in counts && summaries[j] == ChatSummary(chats[j].id, counts[chats[j].id])
  {
    summaries := [];
    for i := 0 to |chats|
      invariant |summaries| == i
      invariant forall j :: 0 <= j < i ==>
        chats[j].id in counts && summaries[j] == ChatSummary(chats[j].id, counts[chats[j].id])
    {
      assert chats[i].id in IdsOf(chats);
      summaries := summaries + [ChatSummary(chats[i].id, counts[chats[i].id])];
    }
  }

  /** get_new_messages_per_chat: zero for every listed chat, then one entry for every group of the query. */
  method GetNewMessagesPerChat(db: Database, chats: seq<Chat>, userId: UserId) returns (summaries: seq<ChatSummary>)
    ensures summaries == Summaries(db, userId, chats)
  {
    var counts: map<ChatId, nat> := map chat | chat in chats :: chat.id := 0;
    assert counts.Keys == IdsOf(chats);
    var joined := JoinedChatIds(db, db.messages, userId, counts.Keys);
    var groups := GroupCounts(joined);
    var distinct := Distinct(joined);
    for i := 0 to |groups|
      invariant counts.Keys >= IdsOf(chats)
      invariant forall c :: c in counts ==> counts[c] == if c in distinct[..i] then Occurrences(joined, c) else 0
    {
      assert distinct[..i + 1] == distinct[..i] + [distinct[i]];
      counts := counts[groups[i].0 := groups[i].1];
    }
    assert distinct[..|groups|] == distinct;
    forall c | c in counts ensures counts[c] == Occurrences(joined, c) {
      DistinctMembers(joined, c);
    }
    summaries := BuildSummaries(chats, counts);
  }

  /** get_user_active_direct_chats: guid to id for each active direct chat, or nothing at all. */
  method GetUserActiveDirectChats(db: Database, userId: UserId) returns (chats: Option<map<ChatId, ChatId>>)
    ensures chats.None? <==> forall chat :: chat in db.chats ==> !DirectOf(userId)(chat)
    ensures chats.Some? ==> forall c :: c in chats.value <==>
      exists chat :: chat in db.chats && DirectOf(userId)(chat) && chat.id == c
    ensures chats.Some? ==> forall c :: c in chats.value ==> chats.value[c] == c
    ensures ActiveChats(db, userId) == if chats.Some? then chats.value else map[]
  {
    var directChats := Filter(db.chats, DirectOf(userId));
    forall chat | chat in db.chats && DirectOf(userId)(chat) ensures chat in directChats {
      FilterKeeps(db.chats, DirectOf(userId), chat);
    }
    if directChats == [] {
      assert IdsOf(directChats) == {};
      return None;
    }
    assert directChats[0] in directChats;
    var found: map<ChatId, ChatId> := map[];
    for i := 0 to |directChats|
      invariant forall c :: c in found <==> exists j :: 0 <= j < i && directChats[j].id == c
      invariant forall c :: c in found ==> found[c] == c
    {
      found := found[directChats[i].id := directChats[i].id];
    }
    forall c ensures c in found <==> exists chat :: chat in db.chats && DirectOf(userId)(chat) && chat.id == c {
      if c in found {
        var j :| 0 <= j < |directChats| && directChats[j].id == c;
        assert directChats[j] in directChats;
      }
    }
    assert found.Keys == IdsOf(directChats);
    chats := Some(found);
  }
}
