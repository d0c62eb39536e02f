/** Chats without the read statuses that they should have: a chat between the flush of its row and the flush of its read
    statuses, when other requests can see it already, and one with a null watermark. */
module HalfCreated {
  import opened Collections
  import opened Models
  import opened Queries
  import opened DirectChats
  import opened Store

  /** The first flush of create_direct_chat: the chat with its participants. */
  function ChatFlushed(db: Database, a: UserId, b: UserId, now: Time): Database {
    db.(chats := db.chats + [Chat(db.nextChatId, Direct, [a, b], now, false)], nextChatId := db.nextChatId + 1)
  }

  /** The second: an empty read status for each participant. */
  function StatusesFlushed(db: Database, a: UserId, b: UserId, c: ChatId): Database {
    db.(statuses := db.statuses + [ReadStatus(a, c, Some(0)), ReadStatus(b, c, Some(0))])
  }

  lemma CreatedInTwo(db: Database, a: UserId, b: UserId, now: Time)
    ensures CreateDirectChat(db, a, b, now) == StatusesFlushed(ChatFlushed(db, a, b, now), a, b, db.nextChatId)
  {
  }

  lemma {:induction false} NothingJoins(db: Database, messages: seq<Message>, u: UserId, ids: set<ChatId>, c: ChatId)
    requires StatusesOf(db, c) == []
    ensures Occurrences(JoinedChatIds(db, messages, u, ids), c) == 0
  {
    if messages != [] {
      var n := |messages| - 1;
      var m := messages[n];
      NothingJoins(db, messages[..n], u, ids, c);
      if m.author != u && !m.isDeleted && m.chatId in ids {
        if m.chatId == c {
          FilterFilter(db.statuses, OfChat(c), StatusMatches(u, m), StatusMatches(u, m));
        }
        OccurrencesOfRepeat(JoinedChatIds(db, messages[..n], u, ids),
                            |Filter(db.statuses, StatusMatches(u, m))|, m.chatId, c);
      }
    }
  }

  lemma NoStatusMatches(db: Database, u: UserId, c: ChatId)
    requires StatusesOf(db, c) == []
    ensures Filter(db.statuses, StatusOf(u, c)) == []
  {
    FilterFilter(db.statuses, OfChat(c), StatusOf(u, c), StatusOf(u, c));
  }

  lemma FirstPageIsUnread(db: Database, c: ChatId, u: UserId, size: nat)
    requires MessagesOrdered(db) && StatusesOf(db, c) == []
    ensures |ChatMessages(db, u, c, size).page.messages| == |Take(ActiveMessages(db, c), size)|
    ensures forall v :: v in ChatMessages(db, u, c, size).page.messages ==> !v.isRead
    ensures ChatMessages(db, u, c, size).lastReadMessage == None
  {
    var active := ActiveMessages(db, c);
    ActiveInOrder(db, c);
    var rows := Take(Take(Reverse(active), size + 1), size);
    forall i | 0 <= i < |rows| ensures rows[i].id > 0 {
      assert rows[i] in Reverse(active);
      assert rows[i] in active;
    }
    FilterNone(db.messages, IdIs(0));
  }

  lemma OlderPageRaises(db: Database, c: ChatId, u: UserId, limit: nat, before: Time)
    requires StatusesOf(db, c) == []
    ensures OlderMessages(db, u, c, limit, before).Err? <==>
            limit > 0 && Filter(ActiveMessages(db, c), CreatedBefore(before)) != []
  {
    var older := Filter(ActiveMessages(db, c), CreatedBefore(before));
    var ordered := OrderDescending(older, CREATED_AT);
    OrderIsDescending(older, CREATED_AT);
    assert |multiset(ordered)| == |multiset(older)|;
    var taken := Take(Take(ordered, limit + 1), limit);
    assert taken != [] ==> taken[0] in taken;
  }

  /** The messages that an older page shows. */
  function TakenBefore(db: Database, c: ChatId, limit: nat, before: Time): seq<Message> {
    Take(Take(OrderDescending(Filter(ActiveMessages(db, c), CreatedBefore(before)), CREATED_AT), limit + 1), limit)
  }

  /** The participant's watermark is null, the other one's is whatever it is. */
  predicate NullFor(db: Database, c: ChatId, u: UserId, v: UserId) {
    && u != v && |StatusesOf(db, c)| == 2 && StatusesOf(db, c)[0] == ReadStatus(u, c, None)
    && StatusesOf(db, c)[1].userId == v
  }

  lemma NullLookups(db: Database, c: ChatId, u: UserId, v: UserId)
    requires NullFor(db, c, u, v)
    ensures Filter(db.statuses, StatusOf(u, c)) == [ReadStatus(u, c, None)]
    ensures OwnMark(StatusesOf(db, c), u) == None
    ensures Filter(StatusesOf(db, c), (r: ReadStatus) => r.userId == u) == [ReadStatus(u, c, None)]
  {
    var rows := StatusesOf(db, c);
    FilterFilter(db.statuses, OfChat(c), StatusOf(u, c), StatusOf(u, c));
    var first := [rows[0]];
    assert rows[..1] == first && first[..0] == [];
    assert Filter(first, StatusOf(u, c)) == first;
    assert Filter(first, (r: ReadStatus) => r.userId == u) == first;
    assert OwnMark(first, u) == None;
  }

  lemma NullFirstPage(db: Database, c: ChatId, u: UserId, v: UserId, size: nat)
    requires MessagesOrdered(db) && NullFor(db, c, u, v)
    ensures forall shown :: shown in ChatMessages(db, u, c, size).page.messages && shown.author != u ==>
      !shown.isRead
  {
    NullLookups(db, c, u, v);
    var active := ActiveMessages(db, c);
    ActiveInOrder(db, c);
    var rows := Take(Take(Reverse(active), size + 1), size);
    forall i | 0 <= i < |rows| ensures rows[i].id > 0 {
      assert rows[i] in Reverse(active);
      assert rows[i] in active;
    }
  }

  lemma {:induction false} NullJoins(db: Database, messages: seq<Message>, u: UserId, v: UserId,
                                     ids: set<ChatId>, c: ChatId)
    requires NullFor(db, c, u, v) && c in ids
    requires forall m :: m in messages ==> m.id > 0
    ensures Occurrences(JoinedChatIds(db, messages, u, ids), c) == |Filter(messages, UnreadBy(u, c, 0))|
  {
    if messages != [] {
      var n := |messages| - 1;
      var m := messages[n];
      NullJoins(db, messages[..n], u, v, ids, c);
      if m.author != u && !m.isDeleted && m.chatId in ids {
        if m.chatId == c {
          FilterFilter(db.statuses, OfChat(c), StatusMatches(u, m), StatusMatches(u, m));
          var first := [StatusesOf(db, c)[0]];
          assert StatusesOf(db, c)[..1] == first && first[..0] == [];
          assert Filter(first, StatusMatches(u, m)) == first;
        }
        OccurrencesOfRepeat(JoinedChatIds(db, messages[..n], u, ids),
                            |Filter(db.statuses, StatusMatches(u, m))|, m.chatId, c);
      }
    }
  }

  /** As long as the chat has no read statuses: the first page shows everything as unread, with the requested size and
      no last read message; an older page raises exactly when it has something to show; the badge always raises; the
      list counts nothing, whatever was sent; and an acknowledgement inserts a status of its own. */
  lemma {:induction false} WithoutStatuses(db: Database, chat: Chat, u: UserId, size: nat, before: Time, id: MessageId,
                                           chats: seq<Chat>)
    requires MessagesOrdered(db) && chat in db.chats && StatusesOf(db, chat.id) == []
    ensures PageSize(db, u, chat.id, size) == Ok(size)
    ensures |ChatMessages(db, u, chat.id, size).page.messages| == |Take(ActiveMessages(db, chat.id), size)|
    ensures forall v :: v in ChatMessages(db, u, chat.id, size).page.messages ==> !v.isRead
    ensures ChatMessages(db, u, chat.id, size).lastReadMessage == None
    ensures OlderMessages(db, u, chat.id, size, before).Err? <==>
            size > 0 && Filter(ActiveMessages(db, chat.id), CreatedBefore(before)) != []
    ensures ChatStats(db, u, chat.id) == Err(UnboundWatermark)
    ensures GroupedCount(db, u, chats, chat.id) == 0
    ensures MarkLastRead(db, u, chat.id, id) ==
            Ok((db.(statuses := db.statuses + [ReadStatus(u, chat.id, Some(id))]), true))
  {
    NothingJoins(db, db.messages, u, IdsOf(chats), chat.id);
    NoStatusMatches(db, u, chat.id);
    FilterKeeps(db.chats, HasId(chat.id), chat);
    FirstPageIsUnread(db, chat.id, u, size);
    OlderPageRaises(db, chat.id, u, size, before);
  }

  /** A read status whose watermark is null, which the column allows, makes the viewer's page size, badge and
      acknowledgements raise, and older pages as soon as they show a message of the other participant; first pages and
      lists take it for 0. */
  lemma {:induction false} NullMark(db: Database, c: ChatId, u: UserId, v: UserId, size: nat, before: Time,
                                    id: MessageId, ids: set<ChatId>)
    requires MessagesOrdered(db) && NullFor(db, c, u, v) && c in ids
    ensures PageSize(db, u, c, size) == Err(NullWatermark) && ChatStats(db, u, c) == Err(UnboundWatermark)
    ensures MarkLastRead(db, u, c, id) == Err(NullWatermark)
    ensures (exists m :: m in TakenBefore(db, c, size, before) && m.author != u) ==>
      OlderMessages(db, u, c, size, before) == Err(UnboundWatermark)
    ensures forall shown :: shown in ChatMessages(db, u, c, size).page.messages && shown.author != u ==>
      !shown.isRead
    ensures Occurrences(JoinedChatIds(db, db.messages, u, ids), c) == |Filter(db.messages, UnreadBy(u, c, 0))|
  {
    NullLookups(db, c, u, v);
    NullFirstPage(db, c, u, v, size);
    NullJoins(db, db.messages, u, v, ids, c);
  }

  /** When the read statuses have been flushed too, a participant's lookup finds one row if and only if that participant
      acknowledged nothing in between; from then on it raises otherwise. */
  lemma {:induction false} SingleUnlessAcknowledged(db: Database, a: UserId, b: UserId, c: ChatId, u: UserId,
                                                    id: MessageId)
    requires a != b && (u == a || u == b)
    ensures var after := StatusesFlushed(db, a, b, c);
            && (|Filter(after.statuses, StatusOf(u, c))| == 1 <==> Filter(db.statuses, StatusOf(u, c)) == [])
            && (Filter(db.statuses, StatusOf(u, c)) != [] ==>
                  MarkLastRead(after, u, c, id) == Err(MultipleResultsFound))
  {
    var added := [ReadStatus(a, c, Some(0)), ReadStatus(b, c, Some(0))];
    FilterAppend(db.statuses, added, StatusOf(u, c));
    assert added[..1] == [added[0]] && [added[0]][..0] == [];
    assert Filter([added[0]], StatusOf(u, c)) == if u == a then [added[0]] else [];
    assert |Filter(added, StatusOf(u, c))| == 1;
  }
}
