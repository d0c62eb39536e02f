/** How the list of a user's direct chats moves away from what it was when nobody clears it. */
module ListFreshness {
  import opened Collections
  import opened Models
  import opened Queries
  import opened PageMeaning
  import opened DirectChats
  import opened Store
  import opened Writes
  import opened CacheProtocol

  function LaterDirectOf(was: Database, u: UserId): Chat -> bool {
    (chat: Chat) => DirectOf(u)(chat) && chat.id >= was.nextChatId
  }

  /** The user's direct chats that have been created since. */
  function Later(was: Database, db: Database, u: UserId): seq<Chat> {
    Filter(db.chats, LaterDirectOf(was, u))
  }

  /** What writes that leave the user's list alone can do: add empty chats, and move watermarks. */
  ghost predicate Evolved(was: Database, db: Database, u: UserId) {
    && was.nextChatId <= db.nextChatId
    && Filter(db.chats, DirectOf(u)) == Filter(was.chats, DirectOf(u)) + Later(was, db, u)
    && (forall chat :: chat in was.chats && DirectOf(u)(chat) ==>
          ActiveMessages(db, chat.id) == ActiveMessages(was, chat.id))
    && (forall chat :: chat in Later(was, db, u) ==> ActiveMessages(db, chat.id) == [])
  }

  lemma EvolvedItself(db: Database, u: UserId)
    requires RowsConsistent(db)
    ensures Evolved(db, db, u) && Later(db, db, u) == []
  {
    FilterNone(db.chats, LaterDirectOf(db, u));
    assert Filter(db.chats, DirectOf(u)) + [] == Filter(db.chats, DirectOf(u));
  }

  // ---- one write ----

  lemma RemovalClearsList(db: Database, chat: Chat, u: UserId)
    requires RowsConsistent(db) && chat in db.chats && u in chat.users
    ensures SomeClears(ClearLists(UsersOf(db, chat.id)), ListKey(u))
  {
    UsersOfChat(db, chat);
    ClearListsCover(chat.users, [], u);
    assert ClearLists(chat.users) + [] == ClearLists(chat.users);
  }

  lemma TouchedNowhere(chats: seq<Chat>, c: ChatId, now: Time)
    requires forall chat :: chat in chats ==> chat.id != c
    ensures Map(chats, Touch(c, now)) == chats
  {
    forall i | 0 <= i < |chats| ensures Map(chats, Touch(c, now))[i] == chats[i] {
      assert chats[i] in chats;
    }
  }

  /** The condition concerns direct chats of the user, and not when they were last updated. */
  ghost predicate Lists(p: Chat -> bool, u: UserId) {
    && (forall chat :: p(chat) ==> DirectOf(u)(chat))
    && (forall chat: Chat, now: Time :: p(chat.(updatedAt := now)) == p(chat))
  }

  function Inserted(db: Database, x: Write): seq<Chat> {
    match x
    case Insertion(a, b, now) => [Chat(db.nextChatId, Direct, [a, b], now, false)]
    case _ => []
  }

  lemma SentRowsStay(db: Database, x: Write, u: UserId, p: Chat -> bool)
    requires RowsConsistent(db) && LeavesListAlone(db, x, u) && x.Sending? && Lists(p, u)
    ensures Filter(Performed(db, x).chats, p) == Filter(db.chats, p)
  {
    SendSucceeds(db, x.author, x.chat, x.content, x.createdAt, x.now);
    forall chat | chat in db.chats && p(chat) ensures chat.id != x.chat {
      if chat.id == x.chat {
        TouchKeepsLookups(db, x.chat, x.now);
        TouchedIsUpdated(db, x, u, Touch(x.chat, x.now)(chat));
      }
    }
    FilterMap(db.chats, Touch(x.chat, x.now), p, p);
    TouchedNowhere(Filter(db.chats, p), x.chat, x.now);
  }

  lemma RowsAfter(db: Database, x: Write, u: UserId, p: Chat -> bool)
    requires RowsConsistent(db) && LeavesListAlone(db, x, u) && Lists(p, u)
    ensures Filter(Performed(db, x).chats, p) == Filter(db.chats, p) + Filter(Inserted(db, x), p)
  {
    match x
    case Insertion(_, _, _) => FilterAppend(db.chats, Inserted(db, x), p);
    case Sending(_, _, _, _, _) => SentRowsStay(db, x, u, p);
    case Updating(_) =>
    case Deletion(_, c) =>
      forall chat | chat in db.chats && p(chat) ensures chat.id != c {
        if chat.id == c {
          RemovalClearsList(db, chat, u);
        }
      }
      FilterFilter(db.chats, (chat: Chat) => chat.id != c, p, p);
  }

  lemma MessagesAfter(db: Database, x: Write, u: UserId, chat: Chat)
    requires RowsConsistent(db) && LeavesListAlone(db, x, u)
    requires chat in Performed(db, x).chats && chat.id < db.nextChatId && u in chat.users
    ensures ActiveMessages(Performed(db, x), chat.id) == ActiveMessages(db, chat.id)
  {
    if Touches(x, chat.id) {
      TouchedIsUpdated(db, x, u, chat);
    } else {
      UntouchedRows(db, x, chat.id);
    }
  }

  lemma ListedIn(chats: seq<Chat>, p: Chat -> bool, chat: Chat)
    ensures chat in Filter(chats, p) <==> chat in chats && p(chat)
  {
    if chat in chats && p(chat) {
      FilterKeeps(chats, p, chat);
    }
  }

  lemma LaterAfter(was: Database, db: Database, x: Write, u: UserId)
    requires RowsConsistent(db) && LeavesListAlone(db, x, u) && was.nextChatId <= db.nextChatId
    ensures Later(was, Performed(db, x), u) == Later(was, db, u) + Filter(Inserted(db, x), DirectOf(u))
    ensures Filter(Performed(db, x).chats, DirectOf(u))
         == Filter(db.chats, DirectOf(u)) + Filter(Inserted(db, x), DirectOf(u))
  {
    RowsAfter(db, x, u, DirectOf(u));
    RowsAfter(db, x, u, LaterDirectOf(was, u));
    FilterCongruent(Inserted(db, x), LaterDirectOf(was, u), DirectOf(u));
  }

  lemma LaterStaysEmpty(was: Database, db: Database, x: Write, u: UserId, chat: Chat)
    requires RowsConsistent(was) && RowsConsistent(db) && Evolved(was, db, u) && LeavesListAlone(db, x, u)
    requires chat in Later(was, Performed(db, x), u)
    ensures ActiveMessages(Performed(db, x), chat.id) == []
  {
    LaterAfter(was, db, x, u);
    if chat.id >= db.nextChatId {
      NewChatHasNoMessages(db, x, chat);
    } else {
      MessagesAfter(db, x, u, chat);
      assert chat in Later(was, db, u);
    }
  }

  lemma OldMessagesStay(was: Database, db: Database, x: Write, u: UserId, chat: Chat)
    requires RowsConsistent(was) && RowsConsistent(db) && Evolved(was, db, u) && LeavesListAlone(db, x, u)
    requires chat in was.chats && DirectOf(u)(chat)
    ensures ActiveMessages(Performed(db, x), chat.id) == ActiveMessages(was, chat.id)
  {
    LaterAfter(was, db, x, u);
    ListedIn(was.chats, DirectOf(u), chat);
    ListedIn(Performed(db, x).chats, DirectOf(u), chat);
    MessagesAfter(db, x, u, chat);
  }

  lemma Regroup(a: seq<Chat>, b: seq<Chat>, c: seq<Chat>)
    ensures (a + b) + c == a + (b + c)
  {
  }

  lemma ListedAfter(was: Database, db: Database, x: Write, u: UserId)
    requires RowsConsistent(db) && LeavesListAlone(db, x, u) && was.nextChatId <= db.nextChatId
    requires Filter(db.chats, DirectOf(u)) == Filter(was.chats, DirectOf(u)) + Later(was, db, u)
    ensures Later(was, Performed(db, x), u) == Later(was, db, u) + Filter(Inserted(db, x), DirectOf(u))
    ensures Filter(Performed(db, x).chats, DirectOf(u))
         == Filter(was.chats, DirectOf(u)) + Later(was, Performed(db, x), u)
  {
    LaterAfter(was, db, x, u);
    Regroup(Filter(was.chats, DirectOf(u)), Later(was, db, u), Filter(Inserted(db, x), DirectOf(u)));
  }

  /** A write that leaves the list alone keeps the relation; only inserting a chat of the user adds to the list. */
  lemma EvolveStep(was: Database, db: Database, x: Write, u: UserId)
    requires RowsConsistent(was) && RowsConsistent(db) && Evolved(was, db, u) && LeavesListAlone(db, x, u)
    ensures Evolved(was, Performed(db, x), u)
    ensures Later(was, Performed(db, x), u) == Later(was, db, u) + Filter(Inserted(db, x), DirectOf(u))
  {
    var db' := Performed(db, x);
    WriteKeepsRows(db, x);
    ListedAfter(was, db, x, u);
    forall chat | chat in was.chats && DirectOf(u)(chat)
      ensures ActiveMessages(db', chat.id) == ActiveMessages(was, chat.id)
    {
      OldMessagesStay(was, db, x, u, chat);
    }
    forall chat | chat in Later(was, db', u) ensures ActiveMessages(db', chat.id) == [] {
      LaterStaysEmpty(was, db, x, u, chat);
    }
  }

  // ---- what the list is after any number of them ----

  /** The watermark of the user in one of the listed chats is now below one that it was above, or the other way. */
  ghost predicate Lowered(was: Database, db: Database, u: UserId, chat: Chat) {
    LiesBetween(ActiveMessages(was, chat.id), u, Mark(db, u, chat.id), Mark(was, u, chat.id))
  }

  ghost predicate Raised(was: Database, db: Database, u: UserId, chat: Chat) {
    LiesBetween(ActiveMessages(was, chat.id), u, Mark(was, u, chat.id), Mark(db, u, chat.id))
  }

  lemma CountsOf(was: Database, db: Database, u: UserId, chat: Chat)
    requires RowsConsistent(was) && RowsConsistent(db) && Evolved(was, db, u)
    requires chat in was.chats && DirectOf(u)(chat)
    ensures chat in db.chats && |chat.users| == 2
    ensures |NewMessages(db, chat, u)| <= |NewMessages(was, chat, u)| <==> !Lowered(was, db, u, chat)
    ensures |NewMessages(was, chat, u)| <= |NewMessages(db, chat, u)| <==> !Raised(was, db, u, chat)
  {
    ListedIn(was.chats, DirectOf(u), chat);
    ListedIn(db.chats, DirectOf(u), chat);
    NewMessagesByMark(was, chat, u);
    NewMessagesByMark(db, chat, u);
    NewCountsCompare(ActiveMessages(was, chat.id), u, Mark(db, u, chat.id), Mark(was, u, chat.id));
    NewCountsCompare(ActiveMessages(was, chat.id), u, Mark(was, u, chat.id), Mark(db, u, chat.id));
  }

  lemma ListLength(db: Database, u: UserId)
    requires RowsConsistent(db)
    ensures |FreshList(db, u).chats| == |UserDirectChats(db, u)| == |Filter(db.chats, DirectOf(u))|
  {
    var rows := Filter(db.chats, DirectOf(u));
    FreshListMeaning(db, u);
    OrderIsDescending(rows, UPDATED_AT);
    assert |multiset(UserDirectChats(db, u))| == |multiset(rows)|;
  }

  lemma ListEntry(db: Database, u: UserId, i: nat)
    requires RowsConsistent(db) && i < |UserDirectChats(db, u)|
    ensures var chat := UserDirectChats(db, u)[i];
            && chat in db.chats && DirectOf(u)(chat) && |chat.users| == 2
            && i < |FreshList(db, u).chats|
            && FreshList(db, u).chats[i] == ChatSummary(chat.id, |NewMessages(db, chat, u)|)
  {
    FreshListMeaning(db, u);
  }

  lemma SameRows(was: Database, db: Database, u: UserId)
    requires Evolved(was, db, u) && Later(was, db, u) == []
    ensures UserDirectChats(db, u) == UserDirectChats(was, u)
  {
    assert Filter(db.chats, DirectOf(u)) == Filter(was.chats, DirectOf(u));
  }

  lemma SameEntryIfUnmoved(was: Database, db: Database, u: UserId, i: nat)
    requires RowsConsistent(was) && RowsConsistent(db) && Evolved(was, db, u) && Later(was, db, u) == []
    requires i < |UserDirectChats(was, u)| && i < |UserDirectChats(db, u)|
    ensures i < |FreshList(was, u).chats| && i < |FreshList(db, u).chats|
    ensures var chat := UserDirectChats(was, u)[i];
            FreshList(db, u).chats[i] == FreshList(was, u).chats[i] <==>
            !Lowered(was, db, u, chat) && !Raised(was, db, u, chat)
  {
    SameRows(was, db, u);
    ListEntry(was, u, i);
    ListEntry(db, u, i);
    CountsOf(was, db, u, UserDirectChats(was, u)[i]);
  }

  lemma SameListIfUnmoved(was: Database, db: Database, u: UserId)
    requires RowsConsistent(was) && RowsConsistent(db) && Evolved(was, db, u) && Later(was, db, u) == []
    requires |FreshList(db, u).chats| == |FreshList(was, u).chats| == |UserDirectChats(was, u)|
    requires forall chat :: chat in was.chats && DirectOf(u)(chat) ==>
      !Lowered(was, db, u, chat) && !Raised(was, db, u, chat)
    ensures FreshList(db, u) == FreshList(was, u)
  {
    SameRows(was, db, u);
    forall i | 0 <= i < |UserDirectChats(was, u)| ensures FreshList(db, u).chats[i] == FreshList(was, u).chats[i] {
      ListEntry(was, u, i);
      SameEntryIfUnmoved(was, db, u, i);
    }
    assert FreshList(db, u).chats == FreshList(was, u).chats;
  }

  lemma OtherListIfMoved(was: Database, db: Database, u: UserId, chat: Chat)
    requires RowsConsistent(was) && RowsConsistent(db) && Evolved(was, db, u) && Later(was, db, u) == []
    requires chat in was.chats && DirectOf(u)(chat) && (Lowered(was, db, u, chat) || Raised(was, db, u, chat))
    ensures FreshList(db, u) != FreshList(was, u)
  {
    SameRows(was, db, u);
    DirectChatsMembers(was, u, chat);
    var i :| 0 <= i < |UserDirectChats(was, u)| && UserDirectChats(was, u)[i] == chat;
    SameEntryIfUnmoved(was, db, u, i);
  }

  /** A fresh list is what it was if and only if no chat was added and no message of a listed chat became new or
      read. */
  lemma {:induction false} ListIsSame(was: Database, db: Database, u: UserId)
    requires RowsConsistent(was) && RowsConsistent(db) && Evolved(was, db, u)
    ensures FreshList(db, u) == FreshList(was, u) <==>
            && Later(was, db, u) == []
            && forall chat :: chat in was.chats && DirectOf(u)(chat) ==>
                 !Lowered(was, db, u, chat) && !Raised(was, db, u, chat)
  {
    ListLength(was, u);
    ListLength(db, u);
    if Later(was, db, u) == [] {
      SameRows(was, db, u);
      if chat :| chat in was.chats && DirectOf(u)(chat) &&
                 (Lowered(was, db, u, chat) || Raised(was, db, u, chat)) {
        OtherListIfMoved(was, db, u, chat);
      } else {
        SameListIfUnmoved(was, db, u);
      }
    }
  }

  lemma ListedCount(db: Database, u: UserId, chat: Chat)
    requires RowsConsistent(db) && chat in db.chats && DirectOf(u)(chat)
    ensures |chat.users| == 2 && CountIn(FreshList(db, u).chats, chat.id) == |NewMessages(db, chat, u)|
  {
    FreshListMeaning(db, u);
    UserDirectChatsDistinct(db, u);
    DirectChatsMembers(db, u, chat);
    var chats := UserDirectChats(db, u);
    var i :| 0 <= i < |chats| && chats[i] == chat;
    CountInFinds(FreshList(db, u).chats, i);
  }

  lemma LaterHasNothingNew(was: Database, db: Database, u: UserId, chat: Chat)
    requires RowsConsistent(db) && Evolved(was, db, u) && chat in db.chats && DirectOf(u)(chat)
    ensures |chat.users| == 2
    ensures chat in was.chats || |NewMessages(db, chat, u)| == 0
  {
    assert ChatConsistent(db, chat);
    ListedIn(db.chats, DirectOf(u), chat);
    NewMessagesByMark(db, chat, u);
  }

  /** The old list under-reports now if and only if the user's watermark in a listed chat has fallen below a message
      of the other participant that was read then. */
  lemma {:induction false} OldListReports(was: Database, db: Database, u: UserId)
    requires RowsConsistent(was) && RowsConsistent(db) && Evolved(was, db, u)
    ensures NeverUnderReports(db, u, ListResponse(FreshList(was, u))) <==>
            forall chat :: chat in was.chats && DirectOf(u)(chat) ==> !Lowered(was, db, u, chat)
  {
    var summaries := FreshList(was, u).chats;
    forall chat | chat in was.chats && DirectOf(u)(chat)
      ensures chat in db.chats && |chat.users| == 2
      ensures |NewMessages(db, chat, u)| <= CountIn(summaries, chat.id) <==> !Lowered(was, db, u, chat)
    {
      CountsOf(was, db, u, chat);
      ListedCount(was, u, chat);
    }
    forall chat | chat in db.chats && DirectOf(u)(chat)
      ensures |chat.users| == 2 && (chat in was.chats || |NewMessages(db, chat, u)| == 0)
    {
      LaterHasNothingNew(was, db, u, chat);
    }
  }

  // ---- one write, exactly ----

  /** The writes that change a user's list without clearing it: inserting a chat of the user, and moving the user's
      watermark in a listed chat, up or down, past a message of the other participant. */
  ghost predicate ChangesList(db: Database, x: Write, u: UserId) {
    match x
    case Insertion(a, b, _) => u == a || u == b
    case Updating(a) =>
      && a.user == u && RowIsThere(db, a) && (exists chat :: chat in db.chats && chat.id == a.chat && DirectOf(u)(chat))
      && (LiesBetween(ActiveMessages(db, a.chat), u, Mark(db, u, a.chat), a.id) ||
          LiesBetween(ActiveMessages(db, a.chat), u, a.id, Mark(db, u, a.chat)))
    case _ => false
  }

  lemma NotDeleted(db: Database, x: Write, chat: Chat)
    requires chat in Performed(db, x).chats
    ensures !(x.Deletion? && x.chat == chat.id)
  {
  }

  lemma MovedIfChanged(db: Database, x: Write, u: UserId, chat: Chat)
    requires RowsConsistent(db) && LeavesListAlone(db, x, u) && Evolved(db, Performed(db, x), u)
    requires chat in db.chats && DirectOf(u)(chat)
    ensures Lowered(db, Performed(db, x), u, chat) || Raised(db, Performed(db, x), u, chat) <==>
            && x.Updating? && x.ack.chat == chat.id && x.ack.user == u && RowIsThere(db, x.ack)
            && (LiesBetween(ActiveMessages(db, chat.id), u, Mark(db, u, chat.id), x.ack.id) ||
                LiesBetween(ActiveMessages(db, chat.id), u, x.ack.id, Mark(db, u, chat.id)))
  {
    ListedIn(db.chats, DirectOf(u), chat);
    ListedIn(Performed(db, x).chats, DirectOf(u), chat);
    NotDeleted(db, x, chat);
    MarkAfterWrite(db, x, u, chat);
  }

  lemma InsertedIsListed(db: Database, x: Write, u: UserId)
    ensures Filter(Inserted(db, x), DirectOf(u)) == [] <==> !(x.Insertion? && ChangesList(db, x, u))
  {
    if x.Insertion? {
      if u == x.initiator || u == x.recipient {
        FilterAll(Inserted(db, x), DirectOf(u));
      } else {
        FilterNone(Inserted(db, x), DirectOf(u));
      }
    }
  }

  /** A write that does not clear a user's list leaves a fresh list as it was if and only if it is none of them. */
  lemma {:induction false} StepChangesList(db: Database, x: Write, u: UserId)
    requires RowsConsistent(db) && LeavesListAlone(db, x, u)
    ensures FreshList(Performed(db, x), u) == FreshList(db, u) <==> !ChangesList(db, x, u)
  {
    var db' := Performed(db, x);
    WriteKeepsRows(db, x);
    EvolvedItself(db, u);
    EvolveStep(db, db, x, u);
    ListIsSame(db, db', u);
    forall chat | chat in db.chats && DirectOf(u)(chat)
      ensures Lowered(db, db', u, chat) || Raised(db, db', u, chat) <==>
              x.Updating? && x.ack.chat == chat.id && ChangesList(db, x, u)
    {
      MovedIfChanged(db, x, u, chat);
    }
    InsertedIsListed(db, x, u);
  }
}
