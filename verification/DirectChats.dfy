/** The list of a user's direct chats with the counts of new messages. */
module DirectChats {
  import opened Collections
  import opened Models
  import opened Queries
  import PageMeaning

  /** GetDirectChatSchema and GetDirectChatsSchema. */
  datatype ChatSummary = ChatSummary(chat: ChatId, newMessages: nat)

  datatype ChatList = ChatList(chats: seq<ChatSummary>, total: nat)

  function DirectOf(u: UserId): Chat -> bool {
    (chat: Chat) => u in chat.users && ActiveDirect(chat)
  }

  /** get_user_direct_chats. */
  function UserDirectChats(db: Database, u: UserId): seq<Chat> {
    OrderDescending(Filter(db.chats, DirectOf(u)), UPDATED_AT)
  }

  function IdsOf(chats: seq<Chat>): set<ChatId> {
    set chat | chat in chats :: chat.id
  }

  /** What a session starts with: guid to id for each active direct chat of the user. */
  function ActiveChats(db: Database, u: UserId): map<ChatId, ChatId> {
    map c | c in IdsOf(Filter(db.chats, DirectOf(u))) :: c
  }

  function StatusMatches(u: UserId, m: Message): ReadStatus -> bool {
    (r: ReadStatus) => r.userId == u && r.chatId == m.chatId && m.id > OrZero(r.lastRead)
  }

  /** The join of src/chat/services.py:87-100: one row for every pair of a message and a status row. */
  function JoinedChatIds(db: Database, messages: seq<Message>, u: UserId, ids: set<ChatId>): seq<ChatId> {
    if messages == [] then []
    else
      var m := messages[|messages| - 1];
      var rest := JoinedChatIds(db, messages[..|messages| - 1], u, ids);
      if m.author != u && !m.isDeleted && m.chatId in ids then
        rest + seq(|Filter(db.statuses, StatusMatches(u, m))|, _ => m.chatId)
      else rest
  }

  function EqualTo(c: ChatId): ChatId -> bool {
    (x: ChatId) => x == c
  }

  function Occurrences(rows: seq<ChatId>, c: ChatId): nat {
    |Filter(rows, EqualTo(c))|
  }

  function Distinct(rows: seq<ChatId>): seq<ChatId> {
    if rows == [] then []
    else
      var rest := Distinct(rows[..|rows| - 1]);
      if rows[|rows| - 1] in rest then rest else rest + [rows[|rows| - 1]]
  }

  /** GROUP BY chat_id with count(*). */
  function GroupCounts(rows: seq<ChatId>): seq<(ChatId, nat)> {
    Map(Distinct(rows), (c: ChatId) => (c, Occurrences(rows, c)))
  }

  function GroupedCount(db: Database, u: UserId, chats: seq<Chat>, c: ChatId): nat {
    Occurrences(JoinedChatIds(db, db.messages, u, IdsOf(chats)), c)
  }

  function Summaries(db: Database, u: UserId, chats: seq<Chat>): seq<ChatSummary> {
    Map(chats, (chat: Chat) => ChatSummary(chat.id, GroupedCount(db, u, chats, chat.id)))
  }

  function ListOf(summaries: seq<ChatSummary>): ChatList {
    ChatList(summaries, Sum(Map(summaries, (s: ChatSummary) => s.newMessages)))
  }

  /** The response of get_user_chats_view when nothing is cached. */
  function FreshList(db: Database, u: UserId): ChatList {
    ListOf(Summaries(db, u, UserDirectChats(db, u)))
  }

  lemma {:induction false} DistinctMembers(rows: seq<ChatId>, c: ChatId)
    ensures c in Distinct(rows) <==> c in rows
    ensures c in rows <==> Occurrences(rows, c) > 0
  {
    if rows != [] {
      var n := |rows| - 1;
      DistinctMembers(rows[..n], c);
      assert rows == rows[..n] + [rows[n]];
    }
  }

  lemma DirectChatsMembers(db: Database, u: UserId, chat: Chat)
    ensures chat in UserDirectChats(db, u) <==> chat in db.chats && DirectOf(u)(chat)
  {
    var rows := Filter(db.chats, DirectOf(u));
    OrderKeepsMembers(rows, UPDATED_AT, chat);
    if chat in db.chats && DirectOf(u)(chat) {
      FilterKeeps(db.chats, DirectOf(u), chat);
    }
  }

  // ---- the grouped count is the per-message count ----

  function UnreadBy(u: UserId, c: ChatId, mark: MessageId): Message -> bool {
    (m: Message) => m.chatId == c && !m.isDeleted && m.author != u && m.id > mark
  }

  lemma MatchesOnce(db: Database, chat: Chat, u: UserId, m: Message)
    requires ChatConsistent(db, chat) && u in chat.users && m.chatId == chat.id
    ensures |Filter(db.statuses, StatusMatches(u, m))| == if m.id > Mark(db, u, chat.id) then 1 else 0
  {
    MarksOfParticipants(db, chat, u);
    var rows := StatusesOf(db, chat.id);
    FilterFilter(db.statuses, OfChat(chat.id), StatusMatches(u, m), StatusMatches(u, m));
    assert rows[0] in rows && rows[1] in rows;
    assert rows[..|rows| - 1] == [rows[0]];
    assert OwnMark([rows[0]], u) == if rows[0].userId == u then rows[0].lastRead else None;
    assert Filter([rows[0]], StatusMatches(u, m)) == if StatusMatches(u, m)(rows[0]) then [rows[0]] else [];
  }

  lemma OccurrencesOfRepeat(rows: seq<ChatId>, n: nat, x: ChatId, c: ChatId)
    ensures Occurrences(rows + seq(n, _ => x), c) == Occurrences(rows, c) + if x == c then n else 0
  {
    var tail: seq<ChatId> := seq(n, _ => x);
    FilterAppend<ChatId>(rows, tail, EqualTo(c));
    if x == c {
      FilterAll<ChatId>(tail, EqualTo(c));
    } else {
      FilterNone<ChatId>(tail, EqualTo(c));
    }
  }

  lemma {:induction false} JoinCounts(db: Database, messages: seq<Message>, chat: Chat, u: UserId, ids: set<ChatId>)
    requires ChatConsistent(db, chat) && u in chat.users && chat.id in ids
    ensures Occurrences(JoinedChatIds(db, messages, u, ids), chat.id)
         == |Filter(messages, UnreadBy(u, chat.id, Mark(db, u, chat.id)))|
  {
    if messages != [] {
      var n := |messages| - 1;
      var m := messages[n];
      JoinCounts(db, messages[..n], chat, u, ids);
      if m.author != u && !m.isDeleted && m.chatId in ids {
        OccurrencesOfRepeat(JoinedChatIds(db, messages[..n], u, ids),
                            |Filter(db.statuses, StatusMatches(u, m))|, m.chatId, chat.id);
        if m.chatId == chat.id {
          MatchesOnce(db, chat, u, m);
        }
      }
    }
  }

  lemma UnreadByIsNew(db: Database, chat: Chat, u: UserId)
    requires RowsConsistent(db) && chat in db.chats && u in chat.users
    ensures |Filter(db.messages, UnreadBy(u, chat.id, Mark(db, u, chat.id)))| == |NewMessages(db, chat, u)|
  {
    var mark := Mark(db, u, chat.id);
    PageMeaning.StatsMeaning(db, chat, u);
    MarksOfParticipants(db, chat, u);
    FilterFilter(db.messages, ActiveIn(chat.id), NewFor(u, mark), UnreadBy(u, chat.id, mark));
  }

  /** The one grouped query, the per-chat query and the per-message meaning give the same count. */
  lemma {:induction false} GroupedEqualsPerChat(db: Database, u: UserId, chats: seq<Chat>, chat: Chat)
    requires RowsConsistent(db) && chat in db.chats && u in chat.users && chat in chats
    ensures GroupedCount(db, u, chats, chat.id) == |NewMessages(db, chat, u)|
    ensures ChatStats(db, u, chat.id) == Ok(GroupedCount(db, u, chats, chat.id))
  {
    assert chat.id in IdsOf(chats);
    JoinCounts(db, db.messages, chat, u, IdsOf(chats));
    UnreadByIsNew(db, chat, u);
    PageMeaning.StatsMeaning(db, chat, u);
  }

  // ---- the total is the size of the set of unread messages ----

  ghost predicate DistinctIds(chats: seq<Chat>) {
    forall i, j :: 0 <= i < j < |chats| ==> chats[i].id != chats[j].id
  }

  function UnreadInAny(db: Database, u: UserId, chats: seq<Chat>): Message -> bool {
    (m: Message) => exists i :: 0 <= i < |chats| && UnreadBy(u, chats[i].id, Mark(db, u, chats[i].id))(m)
  }

  function Counts(db: Database, u: UserId, chats: seq<Chat>): seq<nat> {
    Map(chats, (chat: Chat) => |Filter(db.messages, UnreadBy(u, chat.id, Mark(db, u, chat.id)))|)
  }

  lemma {:induction false} CountsAddUp(db: Database, u: UserId, chats: seq<Chat>)
    requires DistinctIds(chats)
    ensures Sum(Counts(db, u, chats)) == |Filter(db.messages, UnreadInAny(db, u, chats))|
  {
    if chats == [] {
      FilterNone(db.messages, UnreadInAny(db, u, chats));
    } else {
      var n := |chats| - 1;
      CountsAddUp(db, u, chats[..n]);
      var counts := Counts(db, u, chats);
      assert counts[..n] == Counts(db, u, chats[..n]);
      var here := UnreadBy(u, chats[n].id, Mark(db, u, chats[n].id));
      forall m | m in db.messages
        ensures !(UnreadInAny(db, u, chats[..n])(m) && here(m))
        ensures UnreadInAny(db, u, chats)(m) == (UnreadInAny(db, u, chats[..n])(m) || here(m))
      {
        assert forall i :: 0 <= i < n ==> chats[..n][i] == chats[i];
        if UnreadInAny(db, u, chats)(m) && !here(m) {
          var i :| 0 <= i < |chats| && UnreadBy(u, chats[i].id, Mark(db, u, chats[i].id))(m);
          assert chats[..n][i] == chats[i];
        }
      }
      FilterDisjointUnion(db.messages, UnreadInAny(db, u, chats[..n]), here, UnreadInAny(db, u, chats));
    }
  }

  lemma UserDirectChatsDistinct(db: Database, u: UserId)
    requires RowsConsistent(db)
    ensures DistinctIds(UserDirectChats(db, u))
  {
    var rows := Filter(db.chats, DirectOf(u));
    FilterIncreasing(db.chats, DirectOf(u), CHAT_ID);
    assert DistinctKeys(rows, CHAT_ID);
    OrderKeepsDistinct(rows, UPDATED_AT, CHAT_ID);
    var chats := UserDirectChats(db, u);
    forall i, j | 0 <= i < j < |chats| ensures chats[i].id != chats[j].id {
      assert CHAT_ID(chats[i]) != CHAT_ID(chats[j]);
    }
  }

  ghost function UnreadMessagesOf(db: Database, u: UserId): set<Message> {
    set m | m in db.messages && !m.isDeleted && m.author != u &&
            exists chat :: chat in db.chats && DirectOf(u)(chat) && |chat.users| == 2 && m.chatId == chat.id &&
                           !IsReadByPeer(db, chat, m)
  }

  lemma UnreadOneByOne(db: Database, u: UserId, m: Message)
    requires RowsConsistent(db) && m in db.messages
    ensures UnreadInAny(db, u, UserDirectChats(db, u))(m) <==> m in UnreadMessagesOf(db, u)
  {
    var chats := UserDirectChats(db, u);
    forall chat | chat in db.chats && DirectOf(u)(chat) && m.chatId == chat.id
      ensures |chat.users| == 2
      ensures UnreadBy(u, chat.id, Mark(db, u, chat.id))(m)
         <==> !m.isDeleted && m.author != u && !IsReadByPeer(db, chat, m)
      ensures chat in chats
    {
      MarksOfParticipants(db, chat, u);
      DirectChatsMembers(db, u, chat);
    }
    forall i | 0 <= i < |chats| ensures chats[i] in db.chats && DirectOf(u)(chats[i]) {
      DirectChatsMembers(db, u, chats[i]);
    }
  }

  lemma UnreadInAnyIsTheSet(db: Database, u: UserId)
    requires RowsConsistent(db)
    ensures |Filter(db.messages, UnreadInAny(db, u, UserDirectChats(db, u)))| == |UnreadMessagesOf(db, u)|
  {
    var chats := UserDirectChats(db, u);
    var p := UnreadInAny(db, u, chats);
    var rows := Filter(db.messages, p);
    FilterIncreasing(db.messages, p, MESSAGE_ID);
    IncreasingCountsSet(rows, MESSAGE_ID);
    forall m | m in db.messages ensures p(m) <==> m in UnreadMessagesOf(db, u) {
      UnreadOneByOne(db, u, m);
    }
    forall m | m in db.messages && p(m) ensures m in rows {
      FilterKeeps(db.messages, p, m);
    }
    assert (set m | m in rows) == UnreadMessagesOf(db, u);
  }

  /** The list shows every active direct chat of the user, each with the number of its unread
      messages by the other participant; the total is the size of the set of all of them. */
  lemma {:induction false} FreshListMeaning(db: Database, u: UserId)
    requires RowsConsistent(db)
    ensures var chats := UserDirectChats(db, u);
            && |FreshList(db, u).chats| == |chats|
            && (forall i :: 0 <= i < |chats| ==>
                  && chats[i] in db.chats && DirectOf(u)(chats[i]) && |chats[i].users| == 2
                  && FreshList(db, u).chats[i] == ChatSummary(chats[i].id, |NewMessages(db, chats[i], u)|))
    ensures FreshList(db, u).total == |UnreadMessagesOf(db, u)|
  {
    var chats := UserDirectChats(db, u);
    forall i | 0 <= i < |chats|
      ensures chats[i] in db.chats && DirectOf(u)(chats[i]) && |chats[i].users| == 2
      ensures GroupedCount(db, u, chats, chats[i].id) == |NewMessages(db, chats[i], u)| == Counts(db, u, chats)[i]
    {
      DirectChatsMembers(db, u, chats[i]);
      GroupedEqualsPerChat(db, u, chats, chats[i]);
      UnreadByIsNew(db, chats[i], u);
    }
    assert Map(FreshList(db, u).chats, (s: ChatSummary) => s.newMessages) == Counts(db, u, chats);
    UserDirectChatsDistinct(db, u);
    CountsAddUp(db, u, chats);
    UnreadInAnyIsTheSet(db, u);
  }
}
