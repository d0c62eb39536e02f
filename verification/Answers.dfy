/** What clients are told, in the terms of the rows, and how one request changes the answers to the next ones. */
module Answers {
  import opened Collections
  import opened Models
  import opened Queries
  import opened PageMeaning
  import opened DirectChats
  import opened Store
  import opened Pagination
  import opened CacheProtocol

  // ---- pages ----

  /** What is shown of a row of the chat: all of it, and whether the one who did not write it has read it. */
  ghost predicate Shows(db: Database, chat: Chat, m: Message, v: MessageView)
    requires |chat.users| == 2
  {
    && m in db.messages && m.chatId == chat.id && !m.isDeleted
    && v.id == m.id && v.chatId == m.chatId && v.author == m.author && v.content == m.content
    && v.createdAt == m.createdAt
    && (v.isRead <==> m.id <= Mark(db, if m.author == chat.users[0] then chat.users[1] else chat.users[0], chat.id))
  }

  ghost predicate ShowsARow(db: Database, chat: Chat, v: MessageView)
    requires |chat.users| == 2
  {
    exists m :: Shows(db, chat, m, v)
  }

  ghost predicate ShowsRows(db: Database, chat: Chat, page: Page)
    requires |chat.users| == 2
  {
    forall i :: 0 <= i < |page.messages| ==> ShowsARow(db, chat, page.messages[i])
  }

  lemma TruePageShowsRows(db: Database, chat: Chat, rows: seq<Message>, limit: nat)
    requires |chat.users| == 2 && forall m :: m in rows ==> m in ActiveMessages(db, chat.id)
    ensures ShowsRows(db, chat, TruePage(db, chat, rows, limit))
  {
    var page := TruePage(db, chat, rows, limit);
    forall i | 0 <= i < |page.messages| ensures ShowsARow(db, chat, page.messages[i]) {
      assert rows[i] in rows;
      assert rows[i] in ActiveMessages(db, chat.id);
      assert Shows(db, chat, rows[i], page.messages[i]);
    }
  }

  lemma ReversedRows(rows: seq<Message>)
    ensures forall m :: m in Reverse(rows) ==> m in rows
  {
  }

  /** First and older pages show active rows of the chat as they are. */
  lemma {:induction false} PagesShowRows(db: Database, chat: Chat, u: UserId, size: nat, before: Time)
    requires RowsConsistent(db) && chat in db.chats && u in chat.users
    ensures |chat.users| == 2 && ShowsRows(db, chat, ChatMessages(db, u, chat.id, size).page)
    ensures OlderMessages(db, u, chat.id, size, before).Ok?
    ensures ShowsRows(db, chat, OlderMessages(db, u, chat.id, size, before).value)
  {
    var active, older := ActiveMessages(db, chat.id), Filter(ActiveMessages(db, chat.id), CreatedBefore(before));
    FirstPageMeaning(db, chat, u, size);
    OlderPageMeaning(db, chat, u, size, before);
    ReversedRows(active);
    ReversedRows(older);
    TruePageShowsRows(db, chat, Reverse(active), size);
    TruePageShowsRows(db, chat, Reverse(older), size);
  }

  ghost predicate IsActiveRow(db: Database, c: ChatId, id: MessageId) {
    exists m :: m in db.messages && m.chatId == c && m.id == id && !m.isDeleted
  }

  lemma CursorLookup(db: Database, c: ChatId, cursor: MessageId)
    requires MessagesOrdered(db)
    ensures if IsActiveRow(db, c, cursor)
            then exists k :: 0 <= k < |ActiveMessages(db, c)| && ActiveMessages(db, c)[k].id == cursor
            else Filter(ActiveMessages(db, c), IdIs(cursor)) == []
  {
    var active := ActiveMessages(db, c);
    if m :| m in db.messages && m.chatId == c && m.id == cursor && !m.isDeleted {
      FilterKeeps(db.messages, ActiveIn(c), m);
      var k :| 0 <= k < |active| && active[k] == m;
    } else {
      FilterNone(active, IdIs(cursor));
    }
  }

  /** Asking for older messages is refused exactly when the chat is not there, the viewer is not in it, or the cursor
      names no active message of it, in this order; the lookups never raise. */
  lemma {:induction false} OlderRefusals(db: Database, u: UserId, c: ChatId, cursor: MessageId, limit: nat)
    requires RowsConsistent(db)
    ensures var r := OlderMessagesView(db, u, c, cursor, limit);
            if forall chat :: chat in db.chats ==> chat.id != c then r == Err(NotFound)
            else if !Participates(db, u, c) then r == Err(Conflict)
            else if !IsActiveRow(db, c, cursor) then r == Err(NotFound)
            else r.Ok?
  {
    ChatLookupIsSingle(db, c);
    var found := ChatByGuid(db, c).value;
    if found.Some? {
      var chat := found.value;
      assert chat in db.chats && chat.id == c;
      forall other | other in db.chats && other.id == c ensures other == chat {
        ChatIdsAreUnique(db, other, chat);
      }
      CursorLookup(db, c, cursor);
      if u in chat.users && IsActiveRow(db, c, cursor) {
        var k :| 0 <= k < |ActiveMessages(db, c)| && ActiveMessages(db, c)[k].id == cursor;
        OlderViewFromIndex(db, u, c, k, limit);
      }
    } else {
      forall chat | chat in db.chats ensures chat.id != c {
        assert chat.id == c ==> found == Some(chat);
      }
    }
  }

  /** A first page is refused when the chat is not there, and to somebody who is not in it unless a page of the
      requested size is cached; a refusal leaves the cache alone. */
  lemma {:induction false} FirstPageRefusals(db: Database, cache: Cache, now: Time, u: UserId, c: ChatId, size: nat)
    requires RowsConsistent(db)
    ensures var (r, cache') := PageView(db, cache, now, u, c, size);
            if forall chat :: chat in db.chats ==> chat.id != c then r == Err(NotFound) && cache' == cache
            else if Participates(db, u, c) then r.Ok?
            else if PageKey(c, size) in cache && now < cache[PageKey(c, size)].expiresAt
            then r == Ok(cache[PageKey(c, size)].value) && cache' == cache
            else r == Err(Conflict) && cache' == cache
  {
    ChatLookupIsSingle(db, c);
    var found := ChatByGuid(db, c).value;
    if found.Some? {
      var chat := found.value;
      assert chat in db.chats && chat.id == c && ChatConsistent(db, chat);
      forall other | other in db.chats && other.id == c ensures other == chat {
        ChatIdsAreUnique(db, other, chat);
      }
      if u in chat.users {
        UnreadCountIsAboveMark(db, chat, u);
      } else {
        FilterNone(StatusesOf(db, c), (r: ReadStatus) => r.userId == u);
      }
    } else {
      forall chat | chat in db.chats ensures chat.id != c {
        assert chat.id == c ==> found == Some(chat);
      }
    }
  }

  // ---- the list ----

  ghost predicate Lists(list: ChatList, c: ChatId) {
    exists i :: 0 <= i < |list.chats| && list.chats[i].chat == c
  }

  /** The position of a chat of the list. */
  lemma ListedAt(db: Database, u: UserId, chat: Chat, i: nat)
    requires RowsConsistent(db) && chat in db.chats && i < |FreshList(db, u).chats|
    requires FreshList(db, u).chats[i].chat == chat.id
    ensures |UserDirectChats(db, u)| == |FreshList(db, u).chats| && UserDirectChats(db, u)[i] == chat
  {
    FreshListMeaning(db, u);
    ChatIdsAreUnique(db, UserDirectChats(db, u)[i], chat);
  }

  /** The list holds exactly the direct chats of the user that are not deleted. */
  lemma {:induction false} ListHoldsActiveChats(db: Database, u: UserId, chat: Chat)
    requires RowsConsistent(db) && chat in db.chats
    ensures Lists(FreshList(db, u), chat.id) <==> u in chat.users && chat.chatType == Direct && !chat.isDeleted
  {
    var chats, list := UserDirectChats(db, u), FreshList(db, u).chats;
    FreshListMeaning(db, u);
    DirectChatsMembers(db, u, chat);
    if i :| 0 <= i < |list| && list[i].chat == chat.id {
      ListedAt(db, u, chat, i);
    }
    if chat in chats {
      var i :| 0 <= i < |chats| && chats[i] == chat;
      assert list[i].chat == chat.id;
    }
  }

  /** Of two chats of the list the one that comes first was updated last. */
  lemma {:induction false} ListIsNewestFirst(db: Database, u: UserId, i: nat, j: nat, a: Chat, b: Chat)
    requires RowsConsistent(db) && i < j < |FreshList(db, u).chats| && a in db.chats && b in db.chats
    requires FreshList(db, u).chats[i].chat == a.id && FreshList(db, u).chats[j].chat == b.id
    ensures a.updatedAt >= b.updatedAt
  {
    ListedAt(db, u, a, i);
    ListedAt(db, u, b, j);
    OrderIsDescending(Filter(db.chats, DirectOf(u)), UPDATED_AT);
    assert UPDATED_AT(UserDirectChats(db, u)[i]) >= UPDATED_AT(UserDirectChats(db, u)[j]);
  }

  lemma NewestIsFirst(db: Database, u: UserId, chat: Chat)
    requires RowsConsistent(db) && chat in db.chats
    requires u in chat.users && chat.chatType == Direct && !chat.isDeleted
    requires forall other :: other in db.chats && other.id != chat.id ==> other.updatedAt < chat.updatedAt
    ensures FreshList(db, u).chats != [] && FreshList(db, u).chats[0].chat == chat.id
  {
    ListHoldsActiveChats(db, u, chat);
    FreshListMeaning(db, u);
    var list := FreshList(db, u).chats;
    var i :| 0 <= i < |list| && list[i].chat == chat.id;
    if i > 0 && list[0].chat != chat.id {
      ListIsNewestFirst(db, u, 0, i, UserDirectChats(db, u)[0], chat);
    }
  }

  // ---- sending ----

  lemma SentRows(db: Database, t: Transaction)
    requires t.SendMessage? && SaveMessage(db, t.author, t.chat, t.content, t.createdAt, t.now).Ok?
    ensures var row := Message(db.nextMessageId, t.chat, t.author, t.content, t.createdAt, false);
            && ActiveMessages(Apply(db, t), t.chat) == ActiveMessages(db, t.chat) + [row]
            && Apply(db, t).messages == db.messages + [row]
    ensures Apply(db, t).statuses == db.statuses
  {
    var row := Message(db.nextMessageId, t.chat, t.author, t.content, t.createdAt, false);
    FilterAppend(db.messages, [row], ActiveIn(t.chat));
    FilterAll([row], ActiveIn(t.chat));
  }

  lemma SentChat(db: Database, t: Transaction, chat: Chat)
    requires RowsConsistent(db) && t.SendMessage? && Expected(db, t) && chat in db.chats && chat.id == t.chat
    ensures SaveMessage(db, t.author, t.chat, t.content, t.createdAt, t.now).Ok? && RowsConsistent(Apply(db, t))
    ensures chat.(updatedAt := t.now) in Apply(db, t).chats && t.author in chat.users && |chat.users| == 2
  {
    SendKeepsConsistent(db, t.author, t.chat, t.content, t.createdAt, t.now);
    TouchKeepsLookups(db, t.chat, t.now);
    ParticipantsOf(db, t.author, t.chat, chat);
    assert Touch(t.chat, t.now)(chat) in Apply(db, t).chats;
    assert ChatConsistent(db, chat);
  }

  /** The tables have one more active message in the chat, and nobody has read anything meanwhile. */
  ghost predicate OneMore(db: Database, db': Database, chat: Chat, chat': Chat, row: Message) {
    && RowsConsistent(db) && RowsConsistent(db') && chat in db.chats && chat' in db'.chats
    && chat'.id == chat.id && chat'.users == chat.users && |chat.users| == 2
    && ActiveMessages(db', chat.id) == ActiveMessages(db, chat.id) + [row]
    && db'.statuses == db.statuses
  }

  lemma TruePageOnTop(db: Database, db': Database, chat: Chat, chat': Chat, row: Message, rows: seq<Message>, size: nat)
    requires |chat.users| == 2 && chat'.users == chat.users && chat'.id == chat.id && db'.statuses == db.statuses
    requires size > 0
    ensures TruePage(db', chat', [row] + rows, size).messages ==
            [TrueView(db', chat', row)] + TruePage(db, chat, rows, size - 1).messages
  {
    assert Take([row] + rows, size) == [row] + Take(rows, size - 1);
    assert TrueViews(db', chat', [row] + Take(rows, size - 1))
        == [TrueView(db', chat', row)] + TrueViews(db, chat, Take(rows, size - 1));
  }

  lemma NewestOneMore(db: Database, db': Database, c: ChatId, row: Message)
    requires ActiveMessages(db', c) == ActiveMessages(db, c) + [row]
    ensures NewestFirst(db', c) == [row] + NewestFirst(db, c)
  {
  }

  lemma OneMoreOnTop(db: Database, db': Database, chat: Chat, chat': Chat, row: Message, v: UserId, size: nat)
    requires OneMore(db, db', chat, chat', row) && v in chat.users && size > 0
    ensures ChatMessages(db', v, chat.id, size).page.messages ==
            [TrueView(db', chat', row)] + ChatMessages(db, v, chat.id, size - 1).page.messages
  {
    FirstPageMeaning(db', chat', v, size);
    FirstPageMeaning(db, chat, v, size - 1);
    NewestOneMore(db, db', chat.id, row);
    TruePageOnTop(db, db', chat, chat', row, NewestFirst(db, chat.id), size);
  }

  lemma OneMoreCounted(db: Database, db': Database, chat: Chat, chat': Chat, row: Message, v: UserId)
    requires OneMore(db, db', chat, chat', row) && v in chat.users && Mark(db, v, chat.id) < row.id
    ensures ChatStats(db, v, chat.id).Ok?
    ensures ChatStats(db', v, chat.id) == Ok(ChatStats(db, v, chat.id).value + if v == row.author then 0 else 1)
  {
    StatsMeaning(db, chat, v);
    MarksOfParticipants(db, chat, v);
    var p := NewFor(v, Mark(db, v, chat.id));
    FilterAppend(ActiveMessages(db, chat.id), [row], p);
    assert [row][..0] == [];
    assert Filter([row], p) == if p(row) then [row] else [];
  }

  lemma MarksAreBelow(db: Database, chat: Chat, u: UserId)
    requires RowsConsistent(db) && chat in db.chats && u in chat.users
    ensures Mark(db, u, chat.id) < db.nextMessageId
  {
    MarkedMessage(db, chat, u);
  }

  lemma SentIsOneMore(db: Database, t: Transaction, chat: Chat)
    requires RowsConsistent(db) && t.SendMessage? && Expected(db, t) && chat in db.chats && chat.id == t.chat
    ensures OneMore(db, Apply(db, t), chat, chat.(updatedAt := t.now),
                    Message(db.nextMessageId, t.chat, t.author, t.content, t.createdAt, false))
    ensures t.author in chat.users
  {
    SentChat(db, t, chat);
    SentRows(db, t);
  }

  /** A message that was sent heads the first page of both participants, as it was sent and unread; below it is what
      they saw before. */
  lemma {:induction false} SentHeadsThePage(db: Database, t: Transaction, v: UserId, size: nat)
    requires RowsConsistent(db) && t.SendMessage? && Expected(db, t) && Participates(db, v, t.chat) && size > 0
    ensures ChatMessages(Apply(db, t), v, t.chat, size).page.messages ==
            [MessageView(db.nextMessageId, t.chat, t.author, t.content, t.createdAt, false)]
              + ChatMessages(db, v, t.chat, size - 1).page.messages
  {
    var chat :| chat in db.chats && chat.id == t.chat && v in chat.users;
    var row := Message(db.nextMessageId, t.chat, t.author, t.content, t.createdAt, false);
    SentIsOneMore(db, t, chat);
    OneMoreOnTop(db, Apply(db, t), chat, chat.(updatedAt := t.now), row, v, size);
    MarksOfParticipants(db, chat, t.author);
    MarksAreBelow(db, chat, Peer(chat, t.author));
  }

  /** It adds one to the count of the other participant, and nothing to the author's. */
  lemma {:induction false} SentIsCounted(db: Database, t: Transaction, v: UserId)
    requires RowsConsistent(db) && t.SendMessage? && Expected(db, t) && Participates(db, v, t.chat)
    ensures ChatStats(db, v, t.chat).Ok?
    ensures ChatStats(Apply(db, t), v, t.chat) == Ok(ChatStats(db, v, t.chat).value + if v == t.author then 0 else 1)
  {
    var chat :| chat in db.chats && chat.id == t.chat && v in chat.users;
    var row := Message(db.nextMessageId, t.chat, t.author, t.content, t.createdAt, false);
    SentIsOneMore(db, t, chat);
    MarksAreBelow(db, chat, v);
    OneMoreCounted(db, Apply(db, t), chat, chat.(updatedAt := t.now), row, v);
  }

  lemma SentTouches(db: Database, t: Transaction, chat: Chat)
    requires RowsConsistent(db) && t.SendMessage? && Expected(db, t)
    ensures chat in Apply(db, t).chats <==>
            exists was :: was in db.chats &&
                          chat == was.(updatedAt := if was.id == t.chat then t.now else was.updatedAt)
  {
    SendSucceeds(db, t.author, t.chat, t.content, t.createdAt, t.now);
    TouchKeepsLookups(db, t.chat, t.now);
    if was :| was in db.chats && chat == was.(updatedAt := if was.id == t.chat then t.now else was.updatedAt) {
      assert Touch(t.chat, t.now)(was) == chat;
    }
    if was :| was in db.chats && chat == Touch(t.chat, t.now)(was) {
      assert chat == was.(updatedAt := if was.id == t.chat then t.now else was.updatedAt);
    }
  }

  /** Its chat has the new time, and comes first in the list of each participant when that is later than the times of
      all other chats. */
  lemma {:induction false} SentComesFirst(db: Database, t: Transaction, chat: Chat, v: UserId)
    requires RowsConsistent(db) && t.SendMessage? && Expected(db, t) && chat in db.chats && chat.id == t.chat
    ensures forall row :: row in Apply(db, t).chats && row.id == t.chat ==> row.updatedAt == t.now
    ensures v in chat.users && chat.chatType == Direct && !chat.isDeleted &&
            (forall other :: other in db.chats && other.id != t.chat ==> other.updatedAt < t.now) ==>
      FreshList(Apply(db, t), v).chats != [] && FreshList(Apply(db, t), v).chats[0].chat == t.chat
  {
    SentChat(db, t, chat);
    forall row | row in Apply(db, t).chats
      ensures row.id == t.chat ==> row.updatedAt == t.now
      ensures row.id != t.chat ==> row in db.chats
    {
      SentTouches(db, t, row);
    }
    if v in chat.users && chat.chatType == Direct && !chat.isDeleted &&
       (forall other :: other in db.chats && other.id != t.chat ==> other.updatedAt < t.now) {
      NewestIsFirst(Apply(db, t), v, chat.(updatedAt := t.now));
    }
  }

  // ---- acknowledging ----

  lemma ReadFlagMoves(db: Database, db': Database, chat: Chat, u: UserId, id: MessageId, m: Message)
    requires ChatConsistent(db, chat) && u in chat.users && m in db.messages && m.chatId == chat.id
    requires Mark(db', u, chat.id) == Max(Mark(db, u, chat.id), id)
    requires forall v :: v in chat.users && v != u ==> Mark(db', v, chat.id) == Mark(db, v, chat.id)
    ensures TrueView(db', chat, m) ==
            TrueView(db, chat, m).(isRead := IsReadByPeer(db, chat, m) || (m.author != u && m.id <= id))
  {
    MarksOfParticipants(db, chat, m.author);
  }

  /** The acknowledgement as one move of one watermark. */
  lemma AcknowledgedRows(db: Database, t: Transaction, chat: Chat)
    requires RowsConsistent(db) && t.ReadMessage? && Expected(db, t) && chat in db.chats && chat.id == t.chat
    ensures RowsConsistent(Apply(db, t)) && Apply(db, t).chats == db.chats && t.user in chat.users && |chat.users| == 2
    ensures Apply(db, t).messages == db.messages && 0 < t.id
    ensures Mark(Apply(db, t), t.user, chat.id) == Max(Mark(db, t.user, chat.id), t.id)
    ensures forall v :: v in chat.users && v != t.user ==> Mark(Apply(db, t), v, chat.id) == Mark(db, v, chat.id)
  {
    ParticipantsOf(db, t.user, t.chat, chat);
    ReadMovesOneWatermark(db, chat, t.user, t.id);
    ReadKeepsConsistent(db, t.user, t.chat, t.id);
    assert ChatConsistent(db, chat);
    var m :| m in ActiveMessages(db, t.chat) && m.id == t.id;
    assert m in db.messages;
  }

  lemma AcknowledgedPage(db: Database, t: Transaction, chat: Chat, v: UserId, size: nat)
    requires RowsConsistent(db) && t.ReadMessage? && Expected(db, t) && chat in db.chats && chat.id == t.chat
    requires v in chat.users
    ensures |chat.users| == 2 && RowsConsistent(Apply(db, t))
    ensures var rows := NewestFirst(db, t.chat);
            && ChatMessages(db, v, t.chat, size).page == TruePage(db, chat, rows, size)
            && ChatMessages(Apply(db, t), v, t.chat, size).page == TruePage(Apply(db, t), chat, rows, size)
  {
    AcknowledgedRows(db, t, chat);
    FirstPageMeaning(db, chat, v, size);
    FirstPageMeaning(Apply(db, t), chat, v, size);
  }

  /** The pages differ in the read flags alone, and there in exactly those of messages by others up to the id. */
  ghost predicate TurnsFlags(was: Page, now: Page, u: UserId, id: MessageId) {
    && now.hasMore == was.hasMore && |now.messages| == |was.messages|
    && forall i :: 0 <= i < |was.messages| ==>
         now.messages[i] == was.messages[i].(isRead := was.messages[i].isRead ||
                                                       (was.messages[i].author != u && was.messages[i].id <= id))
  }

  lemma ReadFlagsMove(db: Database, db': Database, chat: Chat, u: UserId, id: MessageId, rows: seq<Message>, limit: nat)
    requires ChatConsistent(db, chat) && u in chat.users
    requires forall m :: m in rows ==> m in db.messages && m.chatId == chat.id
    requires Mark(db', u, chat.id) == Max(Mark(db, u, chat.id), id)
    requires forall v :: v in chat.users && v != u ==> Mark(db', v, chat.id) == Mark(db, v, chat.id)
    ensures TurnsFlags(TruePage(db, chat, rows, limit), TruePage(db', chat, rows, limit), u, id)
  {
    forall i | 0 <= i < |Take(rows, limit)|
      ensures TrueViews(db', chat, Take(rows, limit))[i] ==
              TrueView(db, chat, rows[i]).(isRead := IsReadByPeer(db, chat, rows[i]) ||
                                                     (rows[i].author != u && rows[i].id <= id))
    {
      assert rows[i] in rows;
      ReadFlagMoves(db, db', chat, u, id, rows[i]);
    }
  }

  /** An acknowledgement turns the read flags of exactly the other participant's messages up to it, on the pages of
      both, and changes nothing else of what is shown. */
  lemma {:induction false} AcknowledgedIsShown(db: Database, t: Transaction, v: UserId, size: nat)
    requires RowsConsistent(db) && t.ReadMessage? && Expected(db, t) && Participates(db, v, t.chat)
    ensures TurnsFlags(ChatMessages(db, v, t.chat, size).page, ChatMessages(Apply(db, t), v, t.chat, size).page, t.user,
                       t.id)
  {
    var chat :| chat in db.chats && chat.id == t.chat && v in chat.users;
    AcknowledgedRows(db, t, chat);
    AcknowledgedPage(db, t, chat, v, size);
    assert ChatConsistent(db, chat);
    ActiveRowsBelong(db, t.chat, CreatedBefore(0));
    ReadFlagsMove(db, Apply(db, t), chat, t.user, t.id, NewestFirst(db, t.chat), size);
  }

  /** What the other participant is told depends on the watermark alone. */
  lemma LastReadId(db: Database, chat: Chat, u: UserId, v: UserId, size: nat)
    requires RowsConsistent(db) && chat in db.chats && u in chat.users && v in chat.users && v != u
    ensures var last := ChatMessages(db, v, chat.id, size).lastReadMessage;
            (last.None? <==> Mark(db, u, chat.id) == 0) && (last.Some? ==> last.value.id == Mark(db, u, chat.id))
  {
    MarksOfParticipants(db, chat, v);
    LastReadMessageIsThePeers(db, chat, v, size);
    var last := ChatMessages(db, v, chat.id, size).lastReadMessage;
    assert last.Some? ==> last == Some(last.value);
  }

  /** The other participant is told that the last message read is the one acknowledged, or a later one if that had been
      read already. */
  lemma {:induction false} AcknowledgedIsLastRead(db: Database, t: Transaction, v: UserId, size: nat)
    requires RowsConsistent(db) && t.ReadMessage? && Expected(db, t) && Participates(db, v, t.chat) && v != t.user
    ensures var was := ChatMessages(db, v, t.chat, size).lastReadMessage;
            var now := ChatMessages(Apply(db, t), v, t.chat, size).lastReadMessage;
            now.Some? && now.value.id == if was.Some? && was.value.id > t.id then was.value.id else t.id
  {
    var chat :| chat in db.chats && chat.id == t.chat && v in chat.users;
    AcknowledgedRows(db, t, chat);
    LastReadId(db, chat, t.user, v, size);
    LastReadId(Apply(db, t), chat, t.user, v, size);
  }

  // ---- creating ----

  /** The pair has a direct chat that is not deleted. */
  ghost predicate HaveChat(db: Database, a: UserId, b: UserId) {
    exists chat :: chat in db.chats && chat.chatType == Direct && !chat.isDeleted && a in chat.users && b in chat.users
  }

  /** A chat is created exactly when the recipient exists and the pair has no chat; it has a new id, both participants,
      and nothing in it. What refuses it is the recipient before the chat, and a refusal changes nothing. */
  lemma {:induction false} CreateAnswer(db: Database, a: UserId, b: UserId, now: Time)
    requires Consistent(db) && a != b
    ensures var (db', r) := CreateChatView(db, a, b, now);
            if b !in db.users then r == Err(NotFound) && db' == db
            else if HaveChat(db, a, b) then r == Err(Conflict) && db' == db
            else
              && r.Ok?
              && (forall chat :: chat in db.chats ==> chat.id != r.value)
              && (forall m :: m in db.messages ==> m.chatId != r.value)
              && (forall row :: row in db.statuses ==> row.chatId != r.value)
              && db' == db.(chats := db.chats + [Chat(r.value, Direct, [a, b], now, false)],
                            statuses := db.statuses + [ReadStatus(a, r.value, Some(0)),
                                                       ReadStatus(b, r.value, Some(0))],
                            nextChatId := r.value + 1)
  {
    PairLookupIsSingle(db, a, b);
    if HaveChat(db, a, b) {
      var chat :| chat in db.chats && chat.chatType == Direct && !chat.isDeleted && a in chat.users && b in chat.users;
      assert DirectPair(a, b)(chat);
    }
    forall chat | chat in db.chats ensures chat.id < db.nextChatId {
      assert ChatConsistent(db, chat);
    }
  }

  lemma NothingInNewChat(db: Database, chat: Chat, u: UserId, size: nat)
    requires RowsConsistent(db) && chat in db.chats && u in chat.users
    requires forall m :: m in db.messages ==> m.chatId != chat.id
    ensures ChatStats(db, u, chat.id) == Ok(0)
    ensures ChatMessages(db, u, chat.id, size) == FirstPage(Page([], false), None)
  {
    FilterNone(db.messages, ActiveIn(chat.id));
    StatsMeaning(db, chat, u);
    FirstPageMeaning(db, chat, u, size);
    LastReadMessageIsThePeers(db, chat, u, size);
    MarkedMessage(db, chat, u);
    MarksOfParticipants(db, chat, u);
    MarkedMessage(db, chat, Peer(chat, u));
  }

  /** The new chat is in the list of both, with nothing new and nothing to show, and neither can create another. */
  lemma {:induction false} CreatedForBoth(db: Database, a: UserId, b: UserId, now: Time, u: UserId, size: nat,
                                          later: Time)
    requires Consistent(db) && a != b && b in db.users && !HaveChat(db, a, b) && (u == a || u == b)
    ensures var (db', r) := CreateChatView(db, a, b, now);
            && r.Ok?
            && Lists(FreshList(db', u), r.value) && ChatStats(db', u, r.value) == Ok(0)
            && ChatMessages(db', u, r.value, size) == FirstPage(Page([], false), None)
            && (a in db.users ==>
                  CreateChatView(db', u, if u == a then b else a, later) == (db', Err(Conflict)))
  {
    CreateAnswer(db, a, b, now);
    var (db', r) := CreateChatView(db, a, b, now);
    var chat := Chat(r.value, Direct, [a, b], now, false);
    PairLookupIsSingle(db, a, b);
    CreateKeepsConsistent(db, a, b, now);
    assert chat in db'.chats && u in chat.users;
    assert HaveChat(db', u, if u == a then b else a);
    CreateAnswer(db', u, if u == a then b else a, later);
    ListHoldsActiveChats(db', u, chat);
    NothingInNewChat(db', chat, u, size);
  }

  // ---- deleting ----

  /** Exactly the chat, its messages and its read statuses are gone. */
  lemma DeletedRows(db: Database, c: ChatId)
    ensures var db' := DeleteChat(db, c);
            && db' == db.(chats := db'.chats, messages := db'.messages, statuses := db'.statuses)
            && (forall chat :: chat in db'.chats <==> chat in db.chats && chat.id != c)
            && (forall m :: m in db'.messages <==> m in db.messages && m.chatId != c)
            && (forall r :: r in db'.statuses <==> r in db.statuses && r.chatId != c)
  {
    forall chat | chat in db.chats && chat.id != c ensures chat in DeleteChat(db, c).chats {
      FilterKeeps(db.chats, (x: Chat) => x.id != c, chat);
    }
    forall m | m in db.messages && m.chatId != c ensures m in DeleteChat(db, c).messages {
      FilterKeeps(db.messages, (x: Message) => x.chatId != c, m);
    }
    forall r | r in db.statuses && r.chatId != c ensures r in DeleteChat(db, c).statuses {
      FilterKeeps(db.statuses, (x: ReadStatus) => x.chatId != c, r);
    }
  }

  /** A deleted chat is not found under its guid, not listed, and takes neither messages nor acknowledgements; what is
      still cached of it is not served. */
  lemma {:induction false} DeletedIsGone(db: Database, c: ChatId, u: UserId, cache: Cache, now: Time, size: nat,
                                         id: MessageId, content: string)
    requires RowsConsistent(db)
    ensures var db' := DeleteChat(db, c);
            && PageView(db', cache, now, u, c, size) == (Err(NotFound), cache)
            && OlderMessagesView(db', u, c, id, size) == Err(NotFound)
            && !Lists(FreshList(db', u), c)
            && SaveMessage(db', u, c, content, now, now) == Err(IntegrityError)
            && MarkLastRead(db', u, c, id) == Err(IntegrityError)
  {
    var db' := DeleteChat(db, c);
    DeletedRows(db, c);
    DeleteKeepsConsistent(db, c);
    FilterNone(db'.chats, HasId(c));
    FilterNone(db'.statuses, StatusOf(u, c));
    FreshListMeaning(db', u);
  }

  lemma DeletedLastRead(db: Database, c: ChatId, chat: Chat, u: UserId, size: nat)
    requires RowsConsistent(db) && chat in db.chats && u in chat.users && chat.id != c
    ensures RowsConsistent(DeleteChat(db, c)) && chat in DeleteChat(db, c).chats
    ensures ChatMessages(DeleteChat(db, c), u, chat.id, size).lastReadMessage ==
            ChatMessages(db, u, chat.id, size).lastReadMessage
  {
    var db' := DeleteChat(db, c);
    DeletedRows(db, c);
    DeleteKeepsConsistent(db, c);
    DeleteKeepsRows(db, c, chat.id);
    LastReadMessageIsThePeers(db, chat, u, size);
    LastReadMessageIsThePeers(db', chat, u, size);
    var last := ChatMessages(db, u, chat.id, size).lastReadMessage;
    assert last.Some? ==> last == Some(last.value);
  }

  /** In every other chat all answers stay as they were. */
  lemma {:induction false} DeletedLeavesOthers(db: Database, c: ChatId, chat: Chat, u: UserId, size: nat, before: Time)
    requires RowsConsistent(db) && chat in db.chats && u in chat.users && chat.id != c
    ensures var db' := DeleteChat(db, c);
            && ChatMessages(db', u, chat.id, size) == ChatMessages(db, u, chat.id, size)
            && OlderMessages(db', u, chat.id, size, before) == OlderMessages(db, u, chat.id, size, before)
            && PageSize(db', u, chat.id, size) == PageSize(db, u, chat.id, size)
            && ChatStats(db', u, chat.id) == ChatStats(db, u, chat.id)
            && (Lists(FreshList(db', u), chat.id) <==> Lists(FreshList(db, u), chat.id))
  {
    DeleteKeepsRows(db, c, chat.id);
    DeletedLastRead(db, c, chat, u, size);
    ListHoldsActiveChats(db, u, chat);
    ListHoldsActiveChats(DeleteChat(db, c), u, chat);
  }

  lemma OnlyOfPair(db: Database, chat: Chat, a: UserId, b: UserId)
    requires Consistent(db) && chat in db.chats && DirectPair(a, b)(chat) && a != b
    ensures !HaveChat(DeleteChat(db, chat.id), a, b)
  {
    DeletedRows(db, chat.id);
    forall other | other in db.chats && DirectPair(a, b)(other) ensures other == chat {
      var x :| 0 <= x < |db.chats| && db.chats[x] == chat;
      var y :| 0 <= y < |db.chats| && db.chats[y] == other;
      PairIsUnique(db, a, b, x, y);
    }
  }

  /** The pair of a deleted direct chat can create a new one. */
  lemma {:induction false} DeletedCanBeCreated(db: Database, chat: Chat, a: UserId, b: UserId, now: Time)
    requires Consistent(db) && chat in db.chats && DirectPair(a, b)(chat) && a != b && b in db.users
    ensures CreateChatView(DeleteChat(db, chat.id), a, b, now).1.Ok?
  {
    OnlyOfPair(db, chat, a, b);
    DeleteKeepsConsistent(db, chat.id);
    CreateAnswer(DeleteChat(db, chat.id), a, b, now);
  }
}
