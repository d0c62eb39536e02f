/** The pages, flags and counts computed from one watermark per user and chat
    agree with the per-message meaning of "read". */
module PageMeaning {
  import opened Collections
  import opened Models
  import opened Queries

  function NewestFirst(db: Database, c: ChatId): seq<Message> {
    Reverse(ActiveMessages(db, c))
  }

  function NewestBefore(db: Database, c: ChatId, before: Time): seq<Message> {
    Reverse(Filter(ActiveMessages(db, c), CreatedBefore(before)))
  }

  /** A page of `limit` messages cut from the newest-first sequence `rows`, as either participant should see it. */
  function TruePage(db: Database, chat: Chat, rows: seq<Message>, limit: nat): Page
    requires |chat.users| == 2
  {
    Page(TrueViews(db, chat, Take(rows, limit)), |rows| > limit)
  }

  lemma PageOfIsTrue(db: Database, chat: Chat, u: UserId, rows: seq<Message>, limit: nat)
    requires ChatConsistent(db, chat) && u in chat.users
    requires forall m :: m in rows ==> m in db.messages && m.chatId == chat.id
    ensures PageOf(Take(rows, limit + 1), limit, u, Mark(db, u, chat.id), Mark(db, Peer(chat, u), chat.id))
         == TruePage(db, chat, rows, limit)
  {
    assert Take(Take(rows, limit + 1), limit) == Take(rows, limit);
    ViewsAreTrue(db, chat, u, Take(rows, limit));
  }

  lemma ActiveRowsBelong(db: Database, c: ChatId, p: Message -> bool)
    ensures forall m :: m in Reverse(ActiveMessages(db, c)) ==> m in db.messages && m.chatId == c
    ensures forall m :: m in Reverse(Filter(ActiveMessages(db, c), p)) ==> m in db.messages && m.chatId == c
  {
    forall m | m in Reverse(ActiveMessages(db, c)) ensures m in db.messages && m.chatId == c {
      assert m in ActiveMessages(db, c);
    }
    forall m | m in Reverse(Filter(ActiveMessages(db, c), p)) ensures m in db.messages && m.chatId == c {
      assert m in Filter(ActiveMessages(db, c), p);
      assert m in ActiveMessages(db, c);
    }
  }

  /** The first page is the newest `size` active messages with per-message read flags, for either viewer. */
  lemma {:induction false} FirstPageMeaning(db: Database, chat: Chat, u: UserId, size: nat)
    requires RowsConsistent(db) && chat in db.chats && u in chat.users
    ensures ChatMessages(db, u, chat.id, size).page == TruePage(db, chat, NewestFirst(db, chat.id), size)
  {
    ActiveInOrder(db, chat.id);
    MarksOfParticipants(db, chat, u);
    ActiveRowsBelong(db, chat.id, CreatedBefore(0));
    PageOfIsTrue(db, chat, u, NewestFirst(db, chat.id), size);
  }

  /** Older pages never raise, and show the newest `limit` active messages before the cursor in the same way. */
  lemma {:induction false} OlderPageMeaning(db: Database, chat: Chat, u: UserId, limit: nat, before: Time)
    requires RowsConsistent(db) && chat in db.chats && u in chat.users
    ensures OlderMessages(db, u, chat.id, limit, before)
         == Ok(TruePage(db, chat, NewestBefore(db, chat.id, before), limit))
  {
    var active := ActiveMessages(db, chat.id);
    var older := Filter(active, CreatedBefore(before));
    ActiveInOrder(db, chat.id);
    FilterIncreasing(active, CreatedBefore(before), CREATED_AT);
    OrderOfIncreasing(older, CREATED_AT);
    MarksOfParticipants(db, chat, u);
    ActiveRowsBelong(db, chat.id, CreatedBefore(before));
    PageOfIsTrue(db, chat, u, NewestBefore(db, chat.id, before), limit);
  }

  /** is_read does not depend on who is looking, in first and older pages alike. */
  lemma {:induction false} PagesAgreeForBothParticipants(db: Database, chat: Chat, u: UserId, v: UserId, size: nat,
                                                         before: Time)
    requires RowsConsistent(db) && chat in db.chats && u in chat.users && v in chat.users
    ensures ChatMessages(db, u, chat.id, size).page == ChatMessages(db, v, chat.id, size).page
    ensures OlderMessages(db, u, chat.id, size, before) == OlderMessages(db, v, chat.id, size, before)
  {
    FirstPageMeaning(db, chat, u, size);
    FirstPageMeaning(db, chat, v, size);
    OlderPageMeaning(db, chat, u, size, before);
    OlderPageMeaning(db, chat, v, size, before);
  }

  /** Newest first, and once a message of an author is read, every older message of that author is read. */
  ghost predicate ReadIsClosed(shown: seq<MessageView>) {
    forall i, j :: 0 <= i < j < |shown| ==>
      && shown[j].id < shown[i].id
      && (shown[i].author == shown[j].author && shown[i].isRead ==> shown[j].isRead)
  }

  lemma TruePageIsClosed(db: Database, chat: Chat, rows: seq<Message>, limit: nat)
    requires |chat.users| == 2 && Increasing(rows, MESSAGE_ID)
    ensures ReadIsClosed(TruePage(db, chat, Reverse(rows), limit).messages)
  {
    var shown := TruePage(db, chat, Reverse(rows), limit).messages;
    forall i, j | 0 <= i < j < |shown|
      ensures shown[j].id < shown[i].id
      ensures shown[i].author == shown[j].author && shown[i].isRead ==> shown[j].isRead
    {
      assert MESSAGE_ID(rows[|rows| - 1 - j]) < MESSAGE_ID(rows[|rows| - 1 - i]);
    }
  }

  /** Read flags are prefix-closed per author, in first and older pages alike. */
  lemma {:induction false} ReadFlagsAreClosed(db: Database, chat: Chat, u: UserId, size: nat, before: Time)
    requires RowsConsistent(db) && chat in db.chats && u in chat.users
    ensures ReadIsClosed(ChatMessages(db, u, chat.id, size).page.messages)
    ensures OlderMessages(db, u, chat.id, size, before).Ok?
    ensures ReadIsClosed(OlderMessages(db, u, chat.id, size, before).value.messages)
  {
    var active := ActiveMessages(db, chat.id);
    ActiveInOrder(db, chat.id);
    FilterIncreasing(active, CreatedBefore(before), MESSAGE_ID);
    FirstPageMeaning(db, chat, u, size);
    OlderPageMeaning(db, chat, u, size, before);
    TruePageIsClosed(db, chat, active, size);
    TruePageIsClosed(db, chat, Filter(active, CreatedBefore(before)), size);
  }

  /** A watermark is 0, which names no row, or names the message of the chat with that id. */
  lemma MarkedMessage(db: Database, chat: Chat, u: UserId)
    requires RowsConsistent(db) && chat in db.chats && u in chat.users
    ensures Mark(db, u, chat.id) == 0 || IsMessageOf(db, chat.id, Mark(db, u, chat.id))
    ensures var found := MessageById(db, Mark(db, u, chat.id));
            if Mark(db, u, chat.id) == 0 then found == None
            else found.Some? && found.value in db.messages && found.value.id == Mark(db, u, chat.id)
  {
    var mark, rows := Mark(db, u, chat.id), StatusesOf(db, chat.id);
    MarksOfParticipants(db, chat, u);
    assert rows[..|rows| - 1] == [rows[0]];
    assert OwnMark([rows[0]], u) == if rows[0].userId == u then rows[0].lastRead else None;
    var found := Filter(db.messages, IdIs(mark));
    if mark == 0 {
      FilterNone(db.messages, IdIs(mark));
    } else {
      var m :| m in db.messages && m.chatId == chat.id && m.id == mark;
      FilterKeeps(db.messages, IdIs(mark), m);
      assert found[0] in found;
    }
  }

  /** The last read message is the last one that the other participant has read: nothing as long as that participant has
      read nothing, and else the row of the chat that that participant's watermark names, deleted or not. */
  lemma {:induction false} LastReadMessageIsThePeers(db: Database, chat: Chat, u: UserId, size: nat)
    requires RowsConsistent(db) && chat in db.chats && u in chat.users
    ensures |chat.users| == 2
    ensures var read := Mark(db, Peer(chat, u), chat.id);
            var last := ChatMessages(db, u, chat.id, size).lastReadMessage;
            && (last == None <==> read == 0)
            && (forall m :: last == Some(m) <==> m in db.messages && m.chatId == chat.id && m.id == read)
  {
    MarksOfParticipants(db, chat, u);
    MarkedMessage(db, chat, Peer(chat, u));
    var read, last := Mark(db, Peer(chat, u), chat.id), ChatMessages(db, u, chat.id, size).lastReadMessage;
    forall m | m in db.messages && m.chatId == chat.id && m.id == read ensures last == Some(m) {
      assert read > 0;
      MessageIdsAreUnique(db, m, last.value);
    }
    if last.Some? {
      var m :| m in db.messages && m.chatId == chat.id && m.id == read;
      MessageIdsAreUnique(db, m, last.value);
    }
  }

  /** The last read message shown to two participants is the same exactly when their watermarks are equal. */
  lemma {:induction false} LastReadMessageDependsOnViewer(db: Database, chat: Chat, u: UserId, v: UserId, size: nat)
    requires RowsConsistent(db) && chat in db.chats && u in chat.users && v in chat.users && u != v
    ensures ChatMessages(db, u, chat.id, size).lastReadMessage == ChatMessages(db, v, chat.id, size).lastReadMessage
       <==> Mark(db, u, chat.id) == Mark(db, v, chat.id)
  {
    MarksOfParticipants(db, chat, u);
    MarksOfParticipants(db, chat, v);
    MarkedMessage(db, chat, u);
    MarkedMessage(db, chat, v);
  }

  /** What is new to a participant is what the other one wrote past the participant's watermark. */
  lemma NewMessagesByMark(db: Database, chat: Chat, u: UserId)
    requires ChatConsistent(db, chat) && u in chat.users
    ensures NewMessages(db, chat, u) == Filter(ActiveMessages(db, chat.id), NewFor(u, Mark(db, u, chat.id)))
  {
    MarksOfParticipants(db, chat, u);
    forall m | m in ActiveMessages(db, chat.id)
      ensures NewFor(u, Mark(db, u, chat.id))(m) == (m.author != u && !IsReadByPeer(db, chat, m))
    {
      assert m in db.messages && m.author in chat.users;
    }
    FilterCongruent(ActiveMessages(db, chat.id), NewFor(u, Mark(db, u, chat.id)),
                    (m: Message) => m.author != u && !IsReadByPeer(db, chat, m));
  }

  /** The per-chat badge counts exactly the messages that are by the other participant and not read. */
  lemma {:induction false} StatsMeaning(db: Database, chat: Chat, u: UserId)
    requires RowsConsistent(db) && chat in db.chats && u in chat.users
    ensures ChatStats(db, u, chat.id) == Ok(|NewMessages(db, chat, u)|)
  {
    MarksOfParticipants(db, chat, u);
    NewMessagesByMark(db, chat, u);
  }

  /** Some message by somebody else lies above one watermark and not above the other. */
  ghost predicate LiesBetween(rows: seq<Message>, u: UserId, low: MessageId, high: MessageId) {
    exists m :: m in rows && m.author != u && low < m.id <= high
  }

  /** Lowering a watermark makes more messages new exactly when one lies in between. */
  lemma NewCountsCompare(rows: seq<Message>, u: UserId, x: MessageId, y: MessageId)
    ensures |Filter(rows, NewFor(u, x))| <= |Filter(rows, NewFor(u, y))| <==> !LiesBetween(rows, u, x, y)
  {
    if x <= y {
      FilterStrictly(rows, NewFor(u, y), NewFor(u, x));
      FilterMonotone(rows, NewFor(u, y), NewFor(u, x));
      assert LiesBetween(rows, u, x, y) <==> exists m :: m in rows && NewFor(u, x)(m) && !NewFor(u, y)(m);
    } else {
      FilterMonotone(rows, NewFor(u, x), NewFor(u, y));
    }
  }

  lemma UnreadCountIsAboveMark(db: Database, chat: Chat, u: UserId)
    requires ChatConsistent(db, chat) && u in chat.users
    ensures UnreadCount(db, u, chat.id) == Ok(|Filter(ActiveMessages(db, chat.id), IdAbove(Mark(db, u, chat.id)))|)
  {
    MarksOfParticipants(db, chat, u);
    var rows := StatusesOf(db, chat.id);
    var mine := Filter(rows, (r: ReadStatus) => r.userId == u);
    assert rows[..|rows| - 1] == [rows[0]];
    assert OwnMark([rows[0]], u) == if rows[0].userId == u then rows[0].lastRead else None;
    assert Filter([rows[0]], (r: ReadStatus) => r.userId == u) == if rows[0].userId == u then [rows[0]] else [];
  }

  lemma NewestAreOnThePage(db: Database, chat: Chat, size: nat, i: nat)
    requires |chat.users| == 2 && i < |ActiveMessages(db, chat.id)| && |ActiveMessages(db, chat.id)| - 1 - i < size
    ensures TrueView(db, chat, ActiveMessages(db, chat.id)[i])
         in TruePage(db, chat, NewestFirst(db, chat.id), size).messages
  {
    var active := ActiveMessages(db, chat.id);
    var shown := Take(NewestFirst(db, chat.id), size);
    assert shown[|active| - 1 - i] == active[i];
    assert TrueViews(db, chat, shown)[|active| - 1 - i] == TrueView(db, chat, active[i]);
  }

  lemma UnreadCountBounds(db: Database, chat: Chat, u: UserId, i: nat)
    requires MessagesOrdered(db) && ChatConsistent(db, chat) && u in chat.users
    requires i < |ActiveMessages(db, chat.id)| && ActiveMessages(db, chat.id)[i].id > Mark(db, u, chat.id)
    ensures UnreadCount(db, u, chat.id).Ok?
    ensures |ActiveMessages(db, chat.id)| - 1 - i < UnreadCount(db, u, chat.id).value
  {
    var active, mark := ActiveMessages(db, chat.id), Mark(db, u, chat.id);
    ActiveInOrder(db, chat.id);
    AboveComesFirst(active, MESSAGE_ID, mark + 1, IdAbove(mark), i);
    UnreadCountIsAboveMark(db, chat, u);
  }

  /** Page sizing never raises, and the page of that size holds every message past the viewer's watermark. */
  lemma {:induction false} FirstPageCoversUnread(db: Database, chat: Chat, u: UserId, requested: nat)
    requires RowsConsistent(db) && chat in db.chats && u in chat.users
    ensures PageSize(db, u, chat.id, requested).Ok? && PageSize(db, u, chat.id, requested).value >= requested
    ensures var size := PageSize(db, u, chat.id, requested).value;
            forall m :: m in ActiveMessages(db, chat.id) && m.id > Mark(db, u, chat.id) ==>
      TrueView(db, chat, m) in ChatMessages(db, u, chat.id, size).page.messages
  {
    UnreadCountIsAboveMark(db, chat, u);
    var size := PageSize(db, u, chat.id, requested).value;
    FirstPageMeaning(db, chat, u, size);
    var active := ActiveMessages(db, chat.id);
    forall i | 0 <= i < |active| && active[i].id > Mark(db, u, chat.id)
      ensures TrueView(db, chat, active[i]) in TruePage(db, chat, NewestFirst(db, chat.id), size).messages
    {
      UnreadCountBounds(db, chat, u, i);
      NewestAreOnThePage(db, chat, size, i);
    }
  }
}
