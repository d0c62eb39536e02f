/** Reachable states of the cache protocol in which a cached answer is wrong. */
module CacheRuns {
  import opened Collections
  import opened Models
  import opened Queries
  import opened PageMeaning
  import opened DirectChats
  import opened Store
  import opened Writes
  import opened CacheProtocol
  import opened WriterRuns
  import opened ListFreshness
  import opened CacheLimits
  import opened Scenario

  lemma SmallTalkFitsOnPage(messages: seq<Message>, first: MessageId, second: MessageId, u: UserId)
    requires |messages| <= 20 && (u == 1 || u == 2)
    ensures PageSize(Talk(messages, first, second), u, 1, 20) == Ok(20)
  {
    FindStatus(messages, first, second);
    var rows := Statuses(first, second);
    var own := (r: ReadStatus) => r.userId == u;
    assert Filter([rows[0]], own) == if u == 1 then [rows[0]] else [];
    assert rows[..1] == [rows[0]];
    assert Filter(rows, own) == if u == 1 then [rows[0]] else [rows[1]];
  }

  lemma {:induction false} NothingToClear(ops: seq<Clearing>)
    ensures Cleared(map[], ops) == map[]
  {
    if ops != [] {
      NothingToClear(ops[1..]);
    }
  }

  /** The state of a server with nothing under way. */
  function Idle(db: Database, cache: Cache): State {
    State(db, cache, 0, map[], map[])
  }

  lemma CreatedIsReachable()
    ensures ReachableBy(Idle(Talk([], 0, 0), map[]), true)
  {
    var start := Initial(USERS, 0);
    InitialIsReachable(USERS, 0, true);
    CreateTalk();
    WriterKeepsReachable(start, CreateChat(1, 2, 0), true);
    assert Cleared(map[], []) == map[];
  }

  lemma SaidIsReachable(messages: seq<Message>, at: Time)
    requires ReachableBy(Idle(Talk(messages, 0, 0), map[]), true)
    requires forall m :: m in messages ==> m.createdAt < at
    ensures ReachableBy(Idle(TalkMore(messages, 0, 0, at), map[]), true)
  {
    var s, t := Idle(Talk(messages, 0, 0), map[]), SendMessage(1, 1, "", at, 0);
    FindChat(s.db);
    Say(messages, 0, 0, at);
    WriterKeepsReachable(s, t, true);
    NothingToClear(Clears(s.db, t));
  }

  lemma TalkIsReachable()
    ensures ReachableBy(Idle(Talk([HELLO], 0, 0), map[]), true)
  {
    CreatedIsReachable();
    SaidIsReachable([], 0);
    assert [] + [HELLO] == [HELLO];
  }

  lemma ReadTalkIsReachable(cache: Cache)
    requires ReachableBy(Idle(Talk([HELLO], 0, 0), cache), true)
    ensures ReachableBy(Idle(Talk([HELLO], 0, 1), Without(cache, PagesOf(1))), true)
  {
    var s, t := Idle(Talk([HELLO], 0, 0), cache), ReadMessage(2, 1, 1);
    FindChat(s.db);
    HelloIsActive(0, 0);
    AcknowledgeInTalk([HELLO], 0, 0, 1);
    WriterKeepsReachable(s, t, true);
    assert Clears(s.db, t) == [Scan(PagesOf(1))];
    assert [Scan(PagesOf(1))][1..] == [];
    assert Cleared(cache, Clears(s.db, t)) == Without(cache, PagesOf(1));
  }

  lemma CalmIsReachable(s: State)
    requires ReachableBy(s, true)
    ensures Reachable(s)
  {
    var users, now, es :| NothingReopened(Initial(users, now), es) && s == CacheProtocol.Run(Initial(users, now), es);
    assert (false ==> NothingReopened(Initial(users, now), es)) && s == CacheProtocol.Run(Initial(users, now), es);
  }

  lemma HelloIsLastRead()
    requires RowsConsistent(Talk([HELLO], 0, 1))
    ensures ChatMessages(Talk([HELLO], 0, 1), 1, CHAT.id, 20).lastReadMessage == Some(HELLO)
    ensures ChatMessages(Talk([HELLO], 0, 1), 2, CHAT.id, 20).lastReadMessage == None
  {
    var db := Talk([HELLO], 0, 1);
    assert CHAT in db.chats && HELLO in db.messages;
    FindStatus([HELLO], 0, 1);
    LastReadMessageIsThePeers(db, CHAT, 1, 20);
    LastReadMessageIsThePeers(db, CHAT, 2, 20);
  }

  /** User 1 has written, user 2 has read, and nothing is cached. */
  function HelloRead(): State {
    Idle(Talk([HELLO], 0, 1), map[])
  }

  lemma HelloReadIsReachable()
    ensures ReachableBy(HelloRead(), true) && RowsConsistent(HelloRead().db)
  {
    TalkIsReachable();
    ReadTalkIsReachable(map[]);
    var none: Cache := map[];
    assert Without(none, PagesOf(1)) == map[];
    ReachableIsInv(HelloRead(), true);
  }

  function HelloServed(): State {
    HelloRead().(cache := PageView(HelloRead().db, HelloRead().cache, 0, 1, 1, 20).1)
  }

  lemma PageReadStep(s: State, u: UserId, c: ChatId, size: nat)
    requires s.pending == map[] && PageSize(s.db, u, c, size).Ok?
    ensures CacheProtocol.Step(s, ReadPage(u, c, size)) ==
            s.(cache := PageView(s.db, s.cache, s.now, u, c, size).1)
  {
    assert Struck(s.pending, PageKey(c, PageSize(s.db, u, c, size).value)) == map[];
  }

  lemma PageReadIsReachable(s: State, u: UserId, c: ChatId, size: nat, end: State)
    requires ReachableBy(s, true) && s.pending == map[] && PageSize(s.db, u, c, size).Ok?
    requires end == s.(cache := PageView(s.db, s.cache, s.now, u, c, size).1)
    ensures ReachableBy(end, true)
  {
    PageReadStep(s, u, c, size);
    ReachableNext(s, ReadPage(u, c, size), true);
  }

  lemma HelloServedIsReachable()
    ensures Reachable(HelloServed())
  {
    HelloReadIsReachable();
    SmallTalkFitsOnPage([HELLO], 0, 1, 1);
    PageReadIsReachable(HelloRead(), 1, 1, 20, HelloServed());
    CalmIsReachable(HelloServed());
  }

  lemma SecondIsServedHello(db: Database)
    requires db == HelloRead().db && RowsConsistent(db)
    ensures PageView(db, HelloServed().cache, 0, 2, 1, 20).0 == Ok(PageResponse(ChatMessages(db, 1, 1, 20)))
  {
    SmallTalkFitsOnPage([HELLO], 0, 1, 1);
    SmallTalkFitsOnPage([HELLO], 0, 1, 2);
    assert CHAT in db.chats;
    SecondIsServedFirst(db, map[], 0, CHAT, 1, 2, 20, 20, 20);
  }

  /** User 1 writes, user 2 reads, user 1 opens the page and then user 2: in this reachable state user 2 is served
      the message that user 2 has read, as the last one read by user 1, who has read nothing. */
  lemma {:induction false} WrongLastReadMessage() returns (s: State)
    ensures Reachable(s) && s.open == map[] && s.pending == map[]
    ensures CHAT in s.db.chats && 2 in CHAT.users
    ensures var served := PageView(s.db, s.cache, s.now, 2, CHAT.id, 20).0;
            && served.Ok? && served.value.PageResponse?
            && served.value.first.lastReadMessage == Some(HELLO)
            && ChatMessages(s.db, 2, CHAT.id, 20).lastReadMessage == None
  {
    HelloReadIsReachable();
    HelloServedIsReachable();
    s := HelloServed();
    SecondIsServedHello(s.db);
    HelloIsLastRead();
  }

  // ---- three lists that are not fresh ----

  /** A chat created after the list was cached is missing from it. */
  lemma {:induction false} NewChatIsMissing() returns (s: State)
    ensures Reachable(s) && s.open == map[] && s.pending == map[]
    ensures ListView(s.db, s.cache, s.now, 1).0.ListResponse?
    ensures ListView(s.db, s.cache, s.now, 1).0.list != FreshList(s.db, 1)
  {
    var start := Initial(USERS, 0);
    InitialIsReachable(USERS, 0, false);
    ReachableNext(start, ReadList(1), false);
    var filled := Next(start, ReadList(1));
    assert filled.pending == map[];
    CreateTalk();
    WriterKeepsReachable(filled, CreateChat(1, 2, 0), false);
    ReachableIsInv(filled, false);
    s := filled.(db := Talk([], 0, 0));
    var x := Insertion(1, 2, 0);
    assert Performed(filled.db, x) == s.db && ClearsAfter(filled.db, x) == [];
    StepChangesList(filled.db, x, 1);
  }

  lemma MessageLiesBetween(said: seq<Message>, second: MessageId, m: Message, low: MessageId, high: MessageId)
    requires m in said && m.chatId == 1 && !m.isDeleted && m.author == 1 && low < m.id <= high
    ensures LiesBetween(ActiveMessages(Talk(said, 0, second), 1), 2, low, high)
  {
    FilterKeeps(said, ActiveIn(1), m);
    assert m in ActiveMessages(Talk(said, 0, second), 1);
  }

  lemma TalkIsOpen(said: seq<Message>, second: MessageId, m: Message)
    requires m in said && m.chatId == 1
    ensures IsOpen(Talk(said, 0, second), Ack(2, 1, m.id)) && RowIsThere(Talk(said, 0, second), Ack(2, 1, m.id))
  {
    FindChat(Talk(said, 0, second));
    WriteInTalk(said, second, m.id);
    assert m in Talk(said, 0, second).messages;
  }

  lemma UpdateLeavesListAlone(db: Database, a: Ack, u: UserId)
    requires IsOpen(db, a) && RowIsThere(db, a)
    ensures LeavesListAlone(db, Updating(a), u)
  {
    assert ClearsAfter(db, Updating(a)) == [Scan(PagesOf(a.chat))];
  }

  lemma HelloIsOpen()
    ensures LeavesListAlone(Talk([HELLO], 0, 0), Updating(Ack(2, 1, 1)), 2)
    ensures ChangesList(Talk([HELLO], 0, 0), Updating(Ack(2, 1, 1)), 2)
  {
    TalkIsOpen([HELLO], 0, HELLO);
    UpdateLeavesListAlone(Talk([HELLO], 0, 0), Ack(2, 1, 1), 2);
    MessageLiesBetween([HELLO], 0, HELLO, 0, 1);
    FindStatus([HELLO], 0, 0);
    assert CHAT in Talk([HELLO], 0, 0).chats && DirectOf(2)(CHAT);
  }
  lemma HelloChangesList()
    requires RowsConsistent(Talk([HELLO], 0, 0))
    ensures FreshList(Talk([HELLO], 0, 1), 2) != FreshList(Talk([HELLO], 0, 0), 2)
  {
    HelloIsOpen();
    WriteInTalk([HELLO], 0, 1);
    StepChangesList(Talk([HELLO], 0, 0), Updating(Ack(2, 1, 1)), 2);
  }

  /** A message acknowledged after the list was cached is still counted in it. */
  lemma {:induction false} ReadIsStillCounted() returns (s: State)
    ensures Reachable(s) && s.open == map[] && s.pending == map[]
    ensures ListView(s.db, s.cache, s.now, 2).0.ListResponse?
    ensures ListView(s.db, s.cache, s.now, 2).0.list != FreshList(s.db, 2)
  {
    TalkIsReachable();
    var start := Idle(Talk([HELLO], 0, 0), map[]);
    ReachableNext(start, ReadList(2), true);
    var filled := Next(start, ReadList(2));
    assert filled.pending == map[];
    ReadTalkIsReachable(filled.cache);
    s := Idle(Talk([HELLO], 0, 1), Without(filled.cache, PagesOf(1)));
    CalmIsReachable(s);
    ReachableIsInv(start, true);
    HelloChangesList();
  }

  // ---- two sessions of user 2 acknowledge at once ----

  lemma SaidTalkIsReachable()
    ensures ReachableBy(Idle(Talk(SAID, 0, 0), map[]), true)
  {
    TalkIsReachable();
    SaidIsReachable([HELLO], 1);
    assert [HELLO] + [Message(2, 1, 1, "", 1, false)] == SAID;
  }

  /** One or both sessions have selected, and nothing else is under way. */
  function Halfway(db: Database, cache: Cache, open: map<WriterId, Open>): State {
    State(db, cache, 0, open, map[])
  }

  lemma SelectIn(open: map<WriterId, Open>, w: WriterId, a: Ack)
    requires Reachable(Halfway(Talk(SAID, 0, 0), map[], open)) && w !in open && (a == LOW || a == HIGH)
    ensures Reachable(Halfway(Talk(SAID, 0, 0), map[], open[w := Selected(a)]))
  {
    var s := Halfway(Talk(SAID, 0, 0), map[], open);
    SaidIsExpected(a);
    AcknowledgeInTalk(SAID, 0, 0, a.id);
    ReachableNext(s, Select(w, a), false);
  }

  lemma DrainPages(s: State, base: State, w: WriterId)
    requires Reachable(s) && w !in base.pending
    requires s == base.(pending := base.pending[w := [Scan(PagesOf(1))]])
    ensures Reachable(base.(cache := Without(base.cache, PagesOf(1))))
  {
    var ops := [Scan(PagesOf(1))];
    LeadsToItself(s);
    assert s == Working(base, base.cache, w, ops);
    assert ops[1..] == [];
    DrainOne(s, base, base.cache, w, PagesOf(1), ops);
    ReachableThrough(s, base.(cache := Without(base.cache, PagesOf(1))), false);
  }

  /** The update of a session that has selected, with its clearing. */
  lemma UpdateIn(cache: Cache, open: map<WriterId, Open>, w: WriterId, second: MessageId, id: MessageId)
    requires w in open && open[w] == Selected(Ack(2, 1, id)) && Reachable(Halfway(Talk(SAID, 0, second), cache, open))
    ensures Reachable(Halfway(Talk(SAID, 0, id), Without(cache, PagesOf(1)), open - {w}))
  {
    var s := Halfway(Talk(SAID, 0, second), cache, open);
    WriteInTalk(SAID, second, id);
    ReachableNext(s, Update(w), false);
    DrainPages(Next(s, Update(w)), Halfway(Talk(SAID, 0, id), cache, open - {w}), w);
  }

  lemma FillIn(db: Database, open: map<WriterId, Open>)
    requires Reachable(Halfway(db, map[], open))
    ensures var entry := Entry(ListResponse(FreshList(db, 2)), CACHE_EXPIRATION_SECONDS);
            Reachable(Halfway(db, map[ListKey(2) := entry], open))
  {
    var s := Halfway(db, map[], open);
    ReachableNext(s, ReadList(2), false);
    assert Struck(s.pending, ListKey(2)) == map[];
  }

  /** Both have selected, and the higher acknowledgement is written. */
  lemma HigherIsWritten()
    ensures Reachable(Halfway(Talk(SAID, 0, 2), map[], map[1 := Selected(LOW)]))
  {
    var none: map<WriterId, Open> := map[];
    SaidTalkIsReachable();
    CalmIsReachable(Idle(Talk(SAID, 0, 0), map[]));
    SelectIn(none, 1, LOW);
    SelectIn(none[1 := Selected(LOW)], 2, HIGH);
    var both := none[1 := Selected(LOW)][2 := Selected(HIGH)];
    UpdateIn(map[], both, 2, 0, 2);
    assert both - {2} == map[1 := Selected(LOW)] && Without(map[], PagesOf(1)) == map[];
  }

  function ListOfHigher(): Cache {
    map[ListKey(2) := Entry(ListResponse(FreshList(Talk(SAID, 0, 2), 2)), CACHE_EXPIRATION_SECONDS)]
  }

  lemma LowerAfterHigher() returns (s: State)
    ensures Reachable(s) && s.open == map[] && s.pending == map[] && s.db == Talk(SAID, 0, 1)
    ensures Live(s, ListKey(2))
    ensures s.cache[ListKey(2)].value == ListResponse(FreshList(Talk(SAID, 0, 2), 2))
  {
    var one: map<WriterId, Open> := map[1 := Selected(LOW)];
    HigherIsWritten();
    FillIn(Talk(SAID, 0, 2), one);
    UpdateIn(ListOfHigher(), one, 1, 2, 1);
    assert Without(ListOfHigher(), PagesOf(1)) == ListOfHigher() && one - {1} == map[];
    s := Halfway(Talk(SAID, 0, 1), ListOfHigher(), map[]);
  }

  lemma SaidIsReopened()
    requires RowsConsistent(Talk(SAID, 0, 2))
    ensures LeavesListAlone(Talk(SAID, 0, 2), Updating(LOW), 2)
    ensures Performed(Talk(SAID, 0, 2), Updating(LOW)) == Talk(SAID, 0, 1)
    ensures Lowered(Talk(SAID, 0, 2), Talk(SAID, 0, 1), 2, CHAT)
  {
    WriteInTalk(SAID, 2, 1);
    assert SAID[0] in SAID && SAID[1] in SAID;
    TalkIsOpen(SAID, 2, SAID[0]);
    UpdateLeavesListAlone(Talk(SAID, 0, 2), LOW, 2);
    MessageLiesBetween(SAID, 2, SAID[1], 1, 2);
    FindStatus(SAID, 0, 1);
    FindStatus(SAID, 0, 2);
  }
  lemma SaidRowsConsistent()
    ensures RowsConsistent(Talk(SAID, 0, 2))
  {
    SaidTalkIsReachable();
    ReachableIsInv(Idle(Talk(SAID, 0, 0), map[]), true);
    SaidIsExpected(HIGH);
    SelectedIsOpen(Talk(SAID, 0, 0), HIGH);
    WriteKeepsRows(Talk(SAID, 0, 0), Updating(HIGH));
    WriteInTalk(SAID, 0, 2);
  }

  lemma ForgottenIn(db: Database, x: Write, u: UserId, chat: Chat)
    requires RowsConsistent(db) && LeavesListAlone(db, x, u) && chat in db.chats && DirectOf(u)(chat)
    requires Lowered(db, Performed(db, x), u, chat)
    ensures chat in Performed(db, x).chats && |chat.users| == 2
    ensures CountIn(FreshList(db, u).chats, chat.id) < |NewMessages(Performed(db, x), chat, u)|
  {
    WriteKeepsRows(db, x);
    EvolvedItself(db, u);
    EvolveStep(db, db, x, u);
    CountsOf(db, Performed(db, x), u, chat);
    ListedCount(db, u, chat);
  }

  lemma ForgottenCount()
    ensures CHAT in Talk(SAID, 0, 1).chats && |CHAT.users| == 2
    ensures CountIn(FreshList(Talk(SAID, 0, 2), 2).chats, CHAT.id) < |NewMessages(Talk(SAID, 0, 1), CHAT, 2)|
  {
    SaidRowsConsistent();
    SaidIsReopened();
    ForgottenIn(Talk(SAID, 0, 2), Updating(LOW), 2, CHAT);
  }

  /** Both sessions select, the higher acknowledgement is written, the list is cached, and then the lower one is
      written: with nothing under way any more the list under-reports the chat. */
  lemma {:induction false} ReadIsForgotten() returns (s: State)
    ensures Reachable(s) && s.open == map[] && s.pending == map[] && CHAT in s.db.chats
    ensures ListView(s.db, s.cache, s.now, 2).0.ListResponse? && |CHAT.users| == 2
    ensures CountIn(ListView(s.db, s.cache, s.now, 2).0.list.chats, CHAT.id) < |NewMessages(s.db, CHAT, 2)|
  {
    s := LowerAfterHigher();
    ForgottenCount();
  }
}
