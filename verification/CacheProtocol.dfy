/** The Redis caches over the tables, with every request split into the statements and the clearing steps between which
    the server awaits. */
module CacheProtocol {
  import opened Collections
  import opened Models
  import opened Queries
  import opened PageMeaning
  import opened DirectChats
  import opened Store
  import opened Writes

  const CACHE_EXPIRATION_SECONDS: Time := 60 * 30

  datatype Key = PageKey(chat: ChatId, size: nat) | ListKey(user: UserId)

  datatype Response = PageResponse(first: FirstPage) | ListResponse(list: ChatList)

  datatype Entry = Entry(value: Response, expiresAt: Time)

  type Cache = map<Key, Entry>

  /** The match patterns of src/utils.py:20 and 27. */
  datatype Pattern = PagesOf(chat: ChatId) | ListFor(user: UserId)

  predicate Matches(p: Pattern, k: Key) {
    match p
    case PagesOf(c) => k.PageKey? && k.chat == c
    case ListFor(u) => k.ListKey? && k.user == u
  }

  /** A clearing loop: not begun, or begun with the keys that its scan is still bound to return. */
  datatype Clearing = Scan(pattern: Pattern) | Delete(pattern: Pattern, left: set<Key>)

  type WriterId = nat

  /** A request between two of its statements: its existence check found no chat, or its select found an advance. */
  datatype Open = Checked(initiator: UserId, recipient: UserId) | Selected(ack: Ack)

  datatype State = State(db: Database, cache: Cache, now: Time, open: map<WriterId, Open>,
                         pending: map<WriterId, seq<Clearing>>)

  datatype Event =
    | Check(writer: WriterId, initiator: UserId, recipient: UserId)
    | Insert(writer: WriterId, now: Time)
    | Select(writer: WriterId, ack: Ack)
    | Update(writer: WriterId)
    | Whole(writer: WriterId, write: Write)
    | BeginScan(writer: WriterId)
    | DeleteKey(writer: WriterId, key: Key)
    | EndScan(writer: WriterId)
    | ReadPage(user: UserId, chat: ChatId, size: nat)
    | ReadList(user: UserId)
    | Evict(key: Key)
    | Tick(now: Time)

  function CachedValue(cache: Cache, key: Key, now: Time): Option<Response> {
    if key in cache && now < cache[key].expiresAt then Some(cache[key].value) else None
  }

  /** get_user_messages_in_chat. */
  function PageView(db: Database, cache: Cache, now: Time, u: UserId, c: ChatId, size: nat)
    : (Result<Response, ViewError>, Cache)
  {
    match ChatByGuid(db, c)
    case Err(e) => (Err(ViewError.Database(e)), cache)
    case Ok(None) => (Err(NotFound), cache)
    case Ok(Some(chat)) =>
      match PageSize(db, u, c, size)
      case Err(e) => (Err(ViewError.Database(e)), cache)
      case Ok(asked) =>
        var key := PageKey(c, asked);
        var cached := CachedValue(cache, key, now);
        if cached.Some? then (Ok(cached.value), cache)
        else if u !in chat.users then (Err(Conflict), cache)
        else
          var response := PageResponse(ChatMessages(db, u, c, asked));
          (Ok(response), cache[key := Entry(response, now + CACHE_EXPIRATION_SECONDS)])
  }

  /** A page that was not cached is cached when it has been served: for half an hour everybody who asks for the same
      size is served it, then it is gone; no other key is touched. */
  lemma {:induction false} FilledUntilExpiry(db: Database, cache: Cache, now: Time, u: UserId, v: UserId, c: ChatId,
                                             sizeU: nat, sizeV: nat, later: Time)
    requires PageView(db, cache, now, u, c, sizeU).0.Ok?
    requires PageSize(db, u, c, sizeU) == PageSize(db, v, c, sizeV) && PageSize(db, u, c, sizeU).Ok?
    requires CachedValue(cache, PageKey(c, PageSize(db, u, c, sizeU).value), now) == None
    ensures var (served, cache') := PageView(db, cache, now, u, c, sizeU);
            var k := PageKey(c, PageSize(db, u, c, sizeU).value);
            && cache' - {k} == cache - {k}
            && (later < now + 30 * 60 ==> PageView(db, cache', later, v, c, sizeV) == (served, cache'))
            && (later >= now + 30 * 60 ==> CachedValue(cache', k, later) == None)
  {
    var k := PageKey(c, PageSize(db, u, c, sizeU).value);
    var cache' := PageView(db, cache, now, u, c, sizeU).1;
    assert cache' == cache[k := cache'[k]];
  }

  /** get_user_chats_view. */
  function ListView(db: Database, cache: Cache, now: Time, u: UserId): (Response, Cache) {
    var key := ListKey(u);
    var cached := CachedValue(cache, key, now);
    if cached.Some? then (cached.value, cache)
    else
      var response := ListResponse(FreshList(db, u));
      (response, cache[key := Entry(response, now + CACHE_EXPIRATION_SECONDS)])
  }

  /** The same for a list, which only its own user is served. */
  lemma {:induction false} ListFilledUntilExpiry(db: Database, cache: Cache, now: Time, u: UserId, db': Database,
                                                 later: Time)
    requires CachedValue(cache, ListKey(u), now) == None
    ensures var (served, cache') := ListView(db, cache, now, u);
            && served == ListResponse(FreshList(db, u)) && cache' - {ListKey(u)} == cache - {ListKey(u)}
            && (later < now + 30 * 60 ==> ListView(db', cache', later, u) == (served, cache'))
            && (later >= now + 30 * 60 ==> CachedValue(cache', ListKey(u), later) == None)
  {
  }

  /** The loops `for user in chat.users: clear_cache_for_get_direct_chats(...)`. */
  function ClearLists(users: seq<UserId>): seq<Clearing> {
    Map(users, (u: UserId) => Scan(ListFor(u)))
  }

  function UsersOf(db: Database, c: ChatId): seq<UserId> {
    var rows := Filter(db.chats, HasId(c));
    if rows == [] then [] else rows[0].users
  }

  /** What a writer clears after its write. */
  function ClearsAfter(db: Database, x: Write): seq<Clearing> {
    match x
    case Insertion(_, _, _) => []
    case Sending(_, c, _, _, _) => ClearLists(UsersOf(db, c)) + [Scan(PagesOf(c))]
    case Updating(a) => if RowIsThere(db, a) then [Scan(PagesOf(a.chat))] else []
    case Deletion(_, c) => ClearLists(UsersOf(db, c))
  }

  function Scanned(cache: Cache, p: Pattern): set<Key> {
    set k | k in cache && Matches(p, k)
  }

  /** Redis has the key, and it has not expired. */
  predicate Live(s: State, k: Key) {
    k in s.cache && s.now < s.cache[k].expiresAt
  }

  predicate Free(s: State, w: WriterId) {
    w !in s.open && w !in s.pending
  }

  ghost predicate Enabled(s: State, e: Event) {
    match e
    case Check(w, a, b) => Free(s, w) && a != b
    case Insert(w, _) => w in s.open && s.open[w].Checked? && w !in s.pending
    case Select(w, a) => Free(s, w) && Expected(s.db, ReadMessage(a.user, a.chat, a.id))
    case Update(w) => w in s.open && s.open[w].Selected? && w !in s.pending
    case Whole(w, x) => Free(s, w) && (x.Sending? || x.Deletion?) && Possible(s.db, x)
    case BeginScan(w) => w in s.pending && s.pending[w] != [] && s.pending[w][0].Scan?
    case DeleteKey(w, k) =>
      w in s.pending && s.pending[w] != [] && s.pending[w][0].Delete? && Matches(s.pending[w][0].pattern, k)
    case EndScan(w) =>
      w in s.pending && s.pending[w] != [] && s.pending[w][0].Delete? &&
      forall k :: k in s.pending[w][0].left ==> !Live(s, k)
    case Tick(now) => s.now <= now
    case _ => true
  }

  function Head(s: State, w: WriterId, op: Clearing): State
    requires w in s.pending && s.pending[w] != []
  {
    s.(pending := s.pending[w := [op] + s.pending[w][1..]])
  }

  function StruckFrom(op: Clearing, k: Key): Clearing {
    match op
    case Scan(p) => op
    case Delete(p, left) => Delete(p, left - {k})
  }

  /** A key that was gone and is filled again need not be returned by the scans that began before. */
  function Struck(pending: map<WriterId, seq<Clearing>>, k: Key): map<WriterId, seq<Clearing>> {
    map w | w in pending :: Map(pending[w], (op: Clearing) => StruckFrom(op, k))
  }

  /** A view that did not find `k` live leaves the given cache. */
  function Viewed(s: State, k: Key, cache: Cache): State {
    s.(cache := cache, pending := if Live(s, k) then s.pending else Struck(s.pending, k))
  }

  function Wrote(s: State, w: WriterId, x: Write): State {
    State(Performed(s.db, x), s.cache, s.now, s.open - {w},
          if ClearsAfter(s.db, x) == [] then s.pending else s.pending[w := ClearsAfter(s.db, x)])
  }

  function Next(s: State, e: Event): State
    requires Enabled(s, e)
  {
    match e
    case Check(w, a, b) =>
      if b in s.db.users && DirectChatExists(s.db, a, b) == Ok(false) then s.(open := s.open[w := Checked(a, b)]) else s
    case Insert(w, now) => Wrote(s, w, Insertion(s.open[w].initiator, s.open[w].recipient, now))
    case Select(w, a) =>
      var found := MarkLastRead(s.db, a.user, a.chat, a.id);
      if found.Ok? && found.value.1 then s.(open := s.open[w := Selected(a)]) else s
    case Update(w) => Wrote(s, w, Updating(s.open[w].ack))
    case Whole(w, x) => Wrote(s, w, x)
    case BeginScan(w) =>
      var p := s.pending[w][0].pattern;
      Head(s, w, Delete(p, Scanned(s.cache, p)))
    case DeleteKey(w, k) =>
      Head(s.(cache := s.cache - {k}), w, Delete(s.pending[w][0].pattern, s.pending[w][0].left - {k}))
    case EndScan(w) =>
      if |s.pending[w]| > 1 then s.(pending := s.pending[w := s.pending[w][1..]])
      else s.(pending := s.pending - {w})
    case ReadPage(u, c, size) =>
      var asked := PageSize(s.db, u, c, size);
      if asked.Ok? then Viewed(s, PageKey(c, asked.value), PageView(s.db, s.cache, s.now, u, c, size).1) else s
    case ReadList(u) => Viewed(s, ListKey(u), ListView(s.db, s.cache, s.now, u).1)
    case Evict(k) => s.(cache := s.cache - {k})
    case Tick(now) => s.(now := now)
  }

  ghost function Step(s: State, e: Event): State {
    if Enabled(s, e) then Next(s, e) else s
  }

  ghost function Run(s: State, es: seq<Event>): State {
    if es == [] then s else Step(Run(s, es[..|es| - 1]), es[|es| - 1])
  }

  function Initial(users: set<UserId>, now: Time): State {
    State(Empty(users), map[], now, map[], map[])
  }

  // ---- the invariant ----

  predicate Covers(op: Clearing, k: Key) {
    match op
    case Scan(p) => Matches(p, k)
    case Delete(_, left) => k in left
  }

  /** Some writer has committed and is still going to clear `k`. */
  ghost predicate Covered(pending: map<WriterId, seq<Clearing>>, k: Key) {
    exists w, i :: w in pending && 0 <= i < |pending[w]| && Covers(pending[w][i], k)
  }

  /** The cached page is what a fresh query gives one of the participants. */
  ghost predicate PageIsFresh(db: Database, chat: Chat, size: nat, r: Response) {
    r.PageResponse? && exists filler :: filler in chat.users && r.first == ChatMessages(db, filler, chat.id, size)
  }

  function CountIn(summaries: seq<ChatSummary>, c: ChatId): nat {
    if summaries == [] then 0
    else if summaries[|summaries| - 1].chat == c then summaries[|summaries| - 1].newMessages
    else CountIn(summaries[..|summaries| - 1], c)
  }

  /** No chat has more new messages than the cached list says; a chat missing from the list has none. */
  ghost predicate NeverUnderReports(db: Database, u: UserId, r: Response) {
    && r.ListResponse?
    && r.list == ListOf(r.list.chats)
    && forall chat :: chat in db.chats && DirectOf(u)(chat) ==>
         |chat.users| == 2 && |NewMessages(db, chat, u)| <= CountIn(r.list.chats, chat.id)
  }

  ghost predicate EntryOk(s: State, k: Key)
    requires k in s.cache
  {
    match k
    case PageKey(c, size) =>
      && c < s.db.nextChatId && s.cache[k].value.PageResponse?
      && (forall chat :: chat in s.db.chats && chat.id == c ==>
            PageIsFresh(s.db, chat, size, s.cache[k].value) || Covered(s.pending, k))
    case ListKey(u) => s.cache[k].value.ListResponse?
  }

  ghost predicate OpenOk(db: Database, o: Open) {
    match o
    case Checked(a, b) => a != b
    case Selected(a) => IsOpen(db, a)
  }

  ghost predicate Inv(s: State) {
    && RowsConsistent(s.db)
    && (forall w :: w in s.open ==> OpenOk(s.db, s.open[w]))
    && (forall k :: Live(s, k) ==> EntryOk(s, k))
  }

  /** The list of a user is gone, about to be cleared, or does not under-report. */
  ghost predicate ListOk(s: State, u: UserId) {
    Live(s, ListKey(u)) ==> NeverUnderReports(s.db, u, s.cache[ListKey(u)].value) || Covered(s.pending, ListKey(u))
  }

  // ---- writes ----

  lemma TruePageFrame(db: Database, db': Database, chat: Chat, chat': Chat, size: nat)
    requires |chat.users| == 2 && chat'.users == chat.users && chat'.id == chat.id
    requires ActiveMessages(db', chat.id) == ActiveMessages(db, chat.id)
    requires StatusesOf(db', chat.id) == StatusesOf(db, chat.id)
    ensures TruePage(db', chat', NewestFirst(db', chat.id), size) == TruePage(db, chat, NewestFirst(db, chat.id), size)
    ensures forall u :: NewMessages(db', chat', u) == NewMessages(db, chat, u)
  {
    var rows := Take(NewestFirst(db, chat.id), size);
    assert TrueViews(db', chat', rows) == TrueViews(db, chat, rows);
    forall u ensures NewMessages(db', chat', u) == NewMessages(db, chat, u) {
      var active := ActiveMessages(db, chat.id);
      FilterCongruent(active, (m: Message) => m.author != u && !IsReadByPeer(db', chat', m),
                      (m: Message) => m.author != u && !IsReadByPeer(db, chat, m));
    }
  }

  lemma FirstPageFrame(db: Database, db': Database, chat: Chat, u: UserId, size: nat)
    requires RowsConsistent(db) && chat in db.chats && u in chat.users
    requires ActiveMessages(db', chat.id) == ActiveMessages(db, chat.id)
    requires StatusesOf(db', chat.id) == StatusesOf(db, chat.id)
    requires forall v :: v in chat.users ==>
      MessageById(db', Mark(db, v, chat.id)) == MessageById(db, Mark(db, v, chat.id))
    ensures ChatMessages(db', u, chat.id, size) == ChatMessages(db, u, chat.id, size)
  {
    MarksOfParticipants(db, chat, u);
  }

  lemma UsersOfChat(db: Database, chat: Chat)
    requires RowsConsistent(db) && chat in db.chats
    ensures UsersOf(db, chat.id) == chat.users
  {
    ChatLookupIsSingle(db, chat.id);
    FilterKeeps(db.chats, HasId(chat.id), chat);
  }

  ghost predicate SomeClears(ops: seq<Clearing>, k: Key) {
    exists i :: 0 <= i < |ops| && Covers(ops[i], k)
  }

  lemma ClearListsCover(users: seq<UserId>, tail: seq<Clearing>, u: UserId)
    requires u in users
    ensures SomeClears(ClearLists(users) + tail, ListKey(u))
  {
    var i :| 0 <= i < |users| && users[i] == u;
    assert (ClearLists(users) + tail)[i] == Scan(ListFor(u));
  }

  /** A write that changes a chat is going to clear the chat's pages. */
  lemma WriteClearsPages(db: Database, x: Write, chat': Chat, size: nat)
    requires RowsConsistent(db) && Possible(db, x) && chat' in Performed(db, x).chats && Touches(x, chat'.id)
    ensures Performed(db, x) == db || SomeClears(ClearsAfter(db, x), PageKey(chat'.id, size))
  {
    var ops := ClearsAfter(db, x);
    match x
    case Sending(_, c, _, _, _) => assert Covers(ops[|ops| - 1], PageKey(c, size));
    case Updating(a) =>
      if RowIsThere(db, a) {
        assert Covers(ops[0], PageKey(a.chat, size));
      }
    case Deletion(_, c) =>
  }

  /** A message clears the lists of everyone in its chat. */
  lemma SendClearsList(db: Database, x: Write, chat': Chat, u: UserId)
    requires RowsConsistent(db) && x.Sending? && Possible(db, x)
    requires chat' in Performed(db, x).chats && chat'.id == x.chat && u in chat'.users
    ensures SomeClears(ClearsAfter(db, x), ListKey(u))
  {
    SendSucceeds(db, x.author, x.chat, x.content, x.createdAt, x.now);
    TouchKeepsLookups(db, x.chat, x.now);
    var was :| was in db.chats && chat' == Touch(x.chat, x.now)(was);
    UsersOfChat(db, was);
    ClearListsCover(was.users, [Scan(PagesOf(x.chat))], u);
  }

  /** The write leaves the user's list uncleared. */
  ghost predicate LeavesListAlone(db: Database, x: Write, u: UserId) {
    Possible(db, x) && !SomeClears(ClearsAfter(db, x), ListKey(u))
  }

  /** Nobody who is still in a chat that was written to, other than by an update, keeps an uncleared list. */
  lemma TouchedIsUpdated(db: Database, x: Write, u: UserId, chat': Chat)
    requires RowsConsistent(db) && LeavesListAlone(db, x, u)
    requires chat' in Performed(db, x).chats && u in chat'.users && Touches(x, chat'.id)
    ensures x.Updating? && chat' in db.chats
  {
    match x
    case Sending(_, _, _, _, _) => SendClearsList(db, x, chat', u);
    case Updating(_) =>
    case Deletion(_, _) =>
  }

  /** The update lowers a watermark of one of its user's direct chats past a message of the other participant, which
      was read and now is new again. */
  ghost predicate Reopens(db: Database, a: Ack) {
    && RowIsThere(db, a)
    && (exists chat :: chat in db.chats && chat.id == a.chat && DirectOf(a.user)(chat))
    && LiesBetween(ActiveMessages(db, a.chat), a.user, a.id, Mark(db, a.user, a.chat))
  }

  /** What an update does to a count. */
  lemma UpdatedCount(db: Database, a: Ack, chat: Chat, u: UserId)
    requires RowsConsistent(db) && IsOpen(db, a) && RowIsThere(db, a) && chat in db.chats && u in chat.users
    ensures |chat.users| == 2 && ActiveMessages(Written(db, a), chat.id) == ActiveMessages(db, chat.id)
    ensures NewMessages(Written(db, a), chat, u) ==
            Filter(ActiveMessages(db, chat.id),
                   NewFor(u, if u == a.user && chat.id == a.chat then a.id else Mark(db, u, chat.id)))
  {
    WrittenKeepsRows(db, a);
    WrittenMark(db, a, chat, u);
    assert chat in Written(db, a).chats;
    NewMessagesByMark(Written(db, a), chat, u);
  }

  /** An update raises one of its user's counts exactly when it re-opens a message. */
  lemma {:induction false} CountRisesIfReopened(db: Database, a: Ack, chat: Chat)
    requires RowsConsistent(db) && IsOpen(db, a) && RowIsThere(db, a)
    requires chat in db.chats && chat.id == a.chat && DirectOf(a.user)(chat)
    ensures |chat.users| == 2
    ensures |NewMessages(Written(db, a), chat, a.user)| <= |NewMessages(db, chat, a.user)| <==> !Reopens(db, a)
  {
    UpdatedCount(db, a, chat, a.user);
    NewMessagesByMark(db, chat, a.user);
    NewCountsCompare(ActiveMessages(db, chat.id), a.user, a.id, Mark(db, a.user, chat.id));
  }

  lemma CountOfOthers(db: Database, a: Ack, chat: Chat, u: UserId)
    requires RowsConsistent(db) && IsOpen(db, a) && RowIsThere(db, a) && chat in db.chats && u in chat.users
    requires u != a.user || chat.id != a.chat
    ensures |chat.users| == 2 && NewMessages(Written(db, a), chat, u) == NewMessages(db, chat, u)
  {
    UpdatedCount(db, a, chat, u);
    NewMessagesByMark(db, chat, u);
  }

  /** A write that does not clear a user's list raises none of its counts, unless it re-opens a message. */
  lemma CountShrinks(db: Database, x: Write, u: UserId, chat': Chat)
    requires RowsConsistent(db) && LeavesListAlone(db, x, u) && !(x.Updating? && x.ack.user == u && Reopens(db, x.ack))
    requires chat' in Performed(db, x).chats && DirectOf(u)(chat')
    ensures |chat'.users| == 2
    ensures |NewMessages(Performed(db, x), chat', u)| == 0 ||
            (chat' in db.chats && |NewMessages(Performed(db, x), chat', u)| <= |NewMessages(db, chat', u)|)
  {
    if chat'.id >= db.nextChatId {
      NewChatHasNoMessages(db, x, chat');
      FilterNone([], (m: Message) => m.author != u && !IsReadByPeer(Performed(db, x), chat', m));
    } else if Touches(x, chat'.id) {
      TouchedIsUpdated(db, x, u, chat');
      if RowIsThere(db, x.ack) {
        if x.ack.user == u {
          CountRisesIfReopened(db, x.ack, chat');
        } else {
          CountOfOthers(db, x.ack, chat', u);
        }
      } else {
        assert ChatConsistent(db, chat');
      }
    } else {
      var chat := UntouchedChat(db, x, chat');
      TruePageFrame(db, Performed(db, x), chat, chat', 0);
    }
  }

  lemma {:induction false} WriteKeepsReports(db: Database, x: Write, u: UserId, r: Response)
    requires RowsConsistent(db) && LeavesListAlone(db, x, u) && !(x.Updating? && x.ack.user == u && Reopens(db, x.ack))
    requires NeverUnderReports(db, u, r)
    ensures NeverUnderReports(Performed(db, x), u, r)
  {
    forall chat' | chat' in Performed(db, x).chats && DirectOf(u)(chat')
      ensures |chat'.users| == 2 && |NewMessages(Performed(db, x), chat', u)| <= CountIn(r.list.chats, chat'.id)
    {
      CountShrinks(db, x, u, chat');
    }
  }

  // ---- coverage ----

  lemma CoverageGrows(s: State, w: WriterId, x: Write, k: Key)
    requires w !in s.pending && (Covered(s.pending, k) || SomeClears(ClearsAfter(s.db, x), k))
    ensures Covered(Wrote(s, w, x).pending, k)
  {
    var pending' := Wrote(s, w, x).pending;
    if Covered(s.pending, k) {
      var v, i :| v in s.pending && 0 <= i < |s.pending[v]| && Covers(s.pending[v][i], k);
      assert v in pending' && pending'[v] == s.pending[v];
    } else {
      var i :| 0 <= i < |ClearsAfter(s.db, x)| && Covers(ClearsAfter(s.db, x)[i], k);
      assert ClearsAfter(s.db, x) != [] && pending'[w] == ClearsAfter(s.db, x);
    }
  }

  lemma HeadKeepsCoverage(s: State, w: WriterId, op: Clearing, k: Key)
    requires w in s.pending && s.pending[w] != [] && Covered(s.pending, k)
    requires Covers(s.pending[w][0], k) ==> Covers(op, k)
    ensures Covered(Head(s, w, op).pending, k)
  {
    var pending' := Head(s, w, op).pending;
    var v, i :| v in s.pending && 0 <= i < |s.pending[v]| && Covers(s.pending[v][i], k);
    assert v in pending' && |pending'[v]| == |s.pending[v]|;
    if v == w && i > 0 {
      assert pending'[w][i] == s.pending[w][i];
    }
    assert Covers(pending'[v][i], k);
  }

  lemma EndKeepsCoverage(s: State, w: WriterId, k: Key)
    requires Enabled(s, EndScan(w)) && Covered(s.pending, k) && Live(s, k)
    ensures Covered(Next(s, EndScan(w)).pending, k)
  {
    var pending' := Next(s, EndScan(w)).pending;
    var v, i :| v in s.pending && 0 <= i < |s.pending[v]| && Covers(s.pending[v][i], k);
    if v == w {
      assert pending'[w][i - 1] == s.pending[w][i];
    } else {
      assert v in pending' && pending'[v] == s.pending[v];
    }
  }

  lemma StrikeKeepsCoverage(pending: map<WriterId, seq<Clearing>>, struck: Key, k: Key)
    requires Covered(pending, k) && k != struck
    ensures Covered(Struck(pending, struck), k)
  {
    var v, i :| v in pending && 0 <= i < |pending[v]| && Covers(pending[v][i], k);
    assert Covers(Struck(pending, struck)[v][i], k);
  }

  /** An entry that a step neither deletes nor fills anew. */
  ghost predicate Remains(s: State, s': State, k: Key) {
    Live(s, k) && Live(s', k) && s'.cache[k] == s.cache[k]
  }

  lemma ClearingKeepsCoverage(s: State, e: Event, k: Key)
    requires Enabled(s, e) && (e.BeginScan? || e.DeleteKey? || e.EndScan?)
    requires Remains(s, Next(s, e), k) && Covered(s.pending, k)
    ensures Covered(Next(s, e).pending, k)
  {
    match e
    case BeginScan(w) =>
      HeadKeepsCoverage(s, w, Delete(s.pending[w][0].pattern, Scanned(s.cache, s.pending[w][0].pattern)), k);
    case DeleteKey(w, key) =>
      HeadKeepsCoverage(s, w, Delete(s.pending[w][0].pattern, s.pending[w][0].left - {key}), k);
    case EndScan(w) => EndKeepsCoverage(s, w, k);
  }

  /** What is about to be cleared stays so as long as it is there. */
  lemma CoverageStays(s: State, e: Event, k: Key)
    requires Enabled(s, e) && Remains(s, Next(s, e), k) && Covered(s.pending, k)
    ensures Covered(Next(s, e).pending, k)
  {
    match e
    case Insert(w, now) => CoverageGrows(s, w, Insertion(s.open[w].initiator, s.open[w].recipient, now), k);
    case Update(w) => CoverageGrows(s, w, Updating(s.open[w].ack), k);
    case Whole(w, x) => CoverageGrows(s, w, x, k);
    case BeginScan(_) => ClearingKeepsCoverage(s, e, k);
    case DeleteKey(_, _) => ClearingKeepsCoverage(s, e, k);
    case EndScan(_) => ClearingKeepsCoverage(s, e, k);
    case ReadPage(u, c, size) =>
      var asked := PageSize(s.db, u, c, size);
      if asked.Ok? && !Live(s, PageKey(c, asked.value)) {
        StrikeKeepsCoverage(s.pending, PageKey(c, asked.value), k);
      }
    case ReadList(u) =>
      if !Live(s, ListKey(u)) {
        StrikeKeepsCoverage(s.pending, ListKey(u), k);
      }
    case _ =>
  }

  // ---- every step keeps the invariant ----

  lemma UntouchedPage(db: Database, x: Write, chat: Chat, size: nat, r: Response)
    requires RowsConsistent(db) && Possible(db, x) && chat in db.chats && !Touches(x, chat.id)
    ensures PageIsFresh(db, chat, size, r) ==> PageIsFresh(Performed(db, x), chat, size, r)
  {
    if PageIsFresh(db, chat, size, r) {
      var filler :| filler in chat.users && r.first == ChatMessages(db, filler, chat.id, size);
      assert ChatConsistent(db, chat);
      UntouchedRows(db, x, chat.id);
      forall v | v in chat.users
        ensures MessageById(Performed(db, x), Mark(db, v, chat.id)) == MessageById(db, Mark(db, v, chat.id))
      {
        MarkOfUntouched(db, x, chat, v);
      }
      FirstPageFrame(db, Performed(db, x), chat, filler, size);
    }
  }

  lemma WriteKeepsPage(s: State, w: WriterId, x: Write, c: ChatId, size: nat, chat': Chat)
    requires Inv(s) && w !in s.pending && Possible(s.db, x) && Live(s, PageKey(c, size))
    requires chat' in Performed(s.db, x).chats && chat'.id == c
    ensures var k := PageKey(c, size);
            PageIsFresh(Performed(s.db, x), chat', size, s.cache[k].value) || Covered(Wrote(s, w, x).pending, k)
  {
    var k := PageKey(c, size);
    assert EntryOk(s, k);
    if Covered(s.pending, k) {
      CoverageGrows(s, w, x, k);
    } else if Touches(x, c) {
      WriteClearsPages(s.db, x, chat', size);
      if SomeClears(ClearsAfter(s.db, x), k) {
        CoverageGrows(s, w, x, k);
      }
    } else {
      var chat := UntouchedChat(s.db, x, chat');
      UntouchedPage(s.db, x, chat, size, s.cache[k].value);
    }
  }

  lemma WriteKeepsInv(s: State, w: WriterId, x: Write)
    requires Inv(s) && w !in s.pending && Possible(s.db, x)
    ensures Inv(Wrote(s, w, x))
  {
    var s' := Wrote(s, w, x);
    WriteKeepsRows(s.db, x);
    forall k | Live(s', k) ensures EntryOk(s', k) {
      assert Live(s, k) && EntryOk(s, k);
      if k.PageKey? {
        forall chat' | chat' in s'.db.chats && chat'.id == k.chat
          ensures PageIsFresh(s'.db, chat', k.size, s'.cache[k].value) || Covered(s'.pending, k)
        {
          WriteKeepsPage(s, w, x, k.chat, k.size, chat');
        }
      }
    }
    forall v | v in s'.open ensures OpenOk(s'.db, s'.open[v]) {
      assert OpenOk(s.db, s.open[v]);
      if s.open[v].Selected? {
        StaysOpen(s.db, x, s.open[v].ack);
      }
    }
  }

  /** A step that leaves the tables alone keeps every entry that remains. */
  lemma EntryFrame(s: State, e: Event, k: Key)
    requires Enabled(s, e) && Next(s, e).db == s.db && Remains(s, Next(s, e), k) && EntryOk(s, k)
    ensures EntryOk(Next(s, e), k)
  {
    if Covered(s.pending, k) {
      CoverageStays(s, e, k);
    }
  }

  lemma QuietKeepsInv(s: State, e: Event)
    requires Inv(s) && Enabled(s, e)
    requires e.BeginScan? || e.DeleteKey? || e.EndScan? || e.Evict? || e.Tick?
    ensures Inv(Next(s, e))
  {
    forall k | Live(Next(s, e), k) ensures EntryOk(Next(s, e), k) {
      assert Live(s, k);
      EntryFrame(s, e, k);
    }
  }

  lemma OpeningKeepsInv(s: State, e: Event)
    requires Inv(s) && Enabled(s, e) && (e.Check? || e.Select?)
    ensures Inv(Next(s, e))
  {
    var s' := Next(s, e);
    forall w | w in s'.open ensures OpenOk(s'.db, s'.open[w]) {
      if e.Select? && w == e.writer {
        SelectedIsOpen(s.db, e.ack);
      }
    }
    forall k | Live(s', k) ensures EntryOk(s', k) {
      assert Live(s, k);
      EntryFrame(s, e, k);
    }
  }

  /** The messages and the has_more flag of a fresh page are those of either participant's own query. */
  lemma FreshForBoth(db: Database, chat: Chat, u: UserId, size: nat, r: Response)
    requires RowsConsistent(db) && chat in db.chats && u in chat.users && PageIsFresh(db, chat, size, r)
    ensures r.first.page == ChatMessages(db, u, chat.id, size).page
  {
    var filler :| filler in chat.users && r.first == ChatMessages(db, filler, chat.id, size);
    PagesAgreeForBothParticipants(db, chat, u, filler, size, 0);
  }

  lemma FilledPageOk(s: State, u: UserId, c: ChatId, size: nat, k: Key)
    requires Inv(s)
    requires var s' := Next(s, ReadPage(u, c, size)); Live(s', k) && !Remains(s, s', k)
    ensures EntryOk(Next(s, ReadPage(u, c, size)), k)
  {
    var s' := Next(s, ReadPage(u, c, size));
    ChatLookupIsSingle(s.db, c);
    var chat := ChatByGuid(s.db, c).value.value;
    assert ChatConsistent(s.db, chat);
    forall other | other in s'.db.chats && other.id == c ensures other == chat {
      ChatIdsAreUnique(s.db, other, chat);
    }
  }

  lemma ReadPageKeepsInv(s: State, u: UserId, c: ChatId, size: nat)
    requires Inv(s)
    ensures Inv(Next(s, ReadPage(u, c, size)))
  {
    var s' := Next(s, ReadPage(u, c, size));
    forall k | Live(s', k) ensures EntryOk(s', k) {
      if Remains(s, s', k) {
        EntryFrame(s, ReadPage(u, c, size), k);
      } else {
        FilledPageOk(s, u, c, size, k);
      }
    }
  }

  lemma ReadListKeepsInv(s: State, u: UserId)
    requires Inv(s)
    ensures Inv(Next(s, ReadList(u)))
  {
    var s' := Next(s, ReadList(u));
    forall k | Live(s', k) ensures EntryOk(s', k) {
      if Remains(s, s', k) {
        EntryFrame(s, ReadList(u), k);
      }
    }
  }

  /** The write of an enabled event, if it is one. */
  function WriteOf(s: State, e: Event): Option<Write> {
    match e
    case Insert(w, now) =>
      if w in s.open && s.open[w].Checked? then Some(Insertion(s.open[w].initiator, s.open[w].recipient, now)) else None
    case Update(w) => if w in s.open && s.open[w].Selected? then Some(Updating(s.open[w].ack)) else None
    case Whole(w, x) => Some(x)
    case _ => None
  }

  /** Every change of the tables is a possible write by a request that clears nothing yet. */
  lemma NextWrites(s: State, e: Event)
    requires Inv(s) && Enabled(s, e)
    ensures match WriteOf(s, e)
            case None => Next(s, e).db == s.db
            case Some(x) => Possible(s.db, x) && e.writer !in s.pending && Next(s, e) == Wrote(s, e.writer, x)
  {
    if e.Insert? || e.Update? {
      assert OpenOk(s.db, s.open[e.writer]);
    }
  }

  lemma {:induction false} NextKeepsInv(s: State, e: Event)
    requires Inv(s) && Enabled(s, e)
    ensures Inv(Next(s, e))
  {
    NextWrites(s, e);
    if WriteOf(s, e).Some? {
      WriteKeepsInv(s, e.writer, WriteOf(s, e).value);
    } else if e.Check? || e.Select? {
      OpeningKeepsInv(s, e);
    } else if e.ReadPage? {
      ReadPageKeepsInv(s, e.user, e.chat, e.size);
    } else if e.ReadList? {
      ReadListKeepsInv(s, e.user);
    } else {
      QuietKeepsInv(s, e);
    }
  }

  lemma {:induction false} EveryRunKeepsInv(users: set<UserId>, now: Time, es: seq<Event>)
    ensures Inv(Run(Initial(users, now), es))
  {
    if es != [] {
      var s := Run(Initial(users, now), es[..|es| - 1]);
      EveryRunKeepsInv(users, now, es[..|es| - 1]);
      if Enabled(s, es[|es| - 1]) {
        NextKeepsInv(s, es[|es| - 1]);
      }
    }
  }

  // ---- lists, as long as no update re-opens a message ----

  ghost predicate Reopening(s: State, e: Event) {
    e.Update? && Enabled(s, e) && Reopens(s.db, s.open[e.writer].ack)
  }

  /** At no event of the run. */
  ghost predicate NothingReopened(s: State, es: seq<Event>) {
    es != [] ==> NothingReopened(s, es[..|es| - 1]) && !Reopening(Run(s, es[..|es| - 1]), es[|es| - 1])
  }

  lemma {:induction false} CountInFinds(summaries: seq<ChatSummary>, i: nat)
    requires i < |summaries|
    requires forall x, y :: 0 <= x < y < |summaries| ==> summaries[x].chat != summaries[y].chat
    ensures CountIn(summaries, summaries[i].chat) == summaries[i].newMessages
  {
    if i < |summaries| - 1 {
      CountInFinds(summaries[..|summaries| - 1], i);
    }
  }

  lemma FreshListNeverUnderReports(db: Database, u: UserId)
    requires RowsConsistent(db)
    ensures NeverUnderReports(db, u, ListResponse(FreshList(db, u)))
  {
    FreshListMeaning(db, u);
    UserDirectChatsDistinct(db, u);
    var chats, summaries := UserDirectChats(db, u), FreshList(db, u).chats;
    forall chat | chat in db.chats && DirectOf(u)(chat)
      ensures |chat.users| == 2 && |NewMessages(db, chat, u)| <= CountIn(summaries, chat.id)
    {
      DirectChatsMembers(db, u, chat);
      var i :| 0 <= i < |chats| && chats[i] == chat;
      CountInFinds(summaries, i);
    }
  }

  lemma ListFrame(s: State, e: Event, u: UserId)
    requires Enabled(s, e) && Next(s, e).db == s.db && Remains(s, Next(s, e), ListKey(u)) && ListOk(s, u)
    ensures ListOk(Next(s, e), u)
  {
    if Covered(s.pending, ListKey(u)) {
      CoverageStays(s, e, ListKey(u));
    }
  }

  lemma WriteKeepsList(s: State, w: WriterId, x: Write, u: UserId)
    requires Inv(s) && w !in s.pending && Possible(s.db, x) && ListOk(s, u)
    requires !(x.Updating? && Reopens(s.db, x.ack))
    ensures ListOk(Wrote(s, w, x), u)
  {
    var k := ListKey(u);
    if Live(s, k) {
      if SomeClears(ClearsAfter(s.db, x), k) || Covered(s.pending, k) {
        CoverageGrows(s, w, x, k);
      } else {
        WriteKeepsReports(s.db, x, u, s.cache[k].value);
      }
    }
  }

  lemma {:induction false} NextKeepsLists(s: State, e: Event, u: UserId)
    requires Inv(s) && Enabled(s, e) && ListOk(s, u) && !Reopening(s, e)
    ensures ListOk(Next(s, e), u)
  {
    NextWrites(s, e);
    if WriteOf(s, e).Some? {
      WriteKeepsList(s, e.writer, WriteOf(s, e).value, u);
    } else if Remains(s, Next(s, e), ListKey(u)) {
      ListFrame(s, e, u);
    } else if e == ReadList(u) {
      FreshListNeverUnderReports(s.db, u);
    }
  }

  lemma {:induction false} CalmRunKeepsLists(users: set<UserId>, now: Time, es: seq<Event>, u: UserId)
    requires NothingReopened(Initial(users, now), es)
    ensures ListOk(Run(Initial(users, now), es), u)
  {
    if es != [] {
      var s := Run(Initial(users, now), es[..|es| - 1]);
      CalmRunKeepsLists(users, now, es[..|es| - 1], u);
      EveryRunKeepsInv(users, now, es[..|es| - 1]);
      if Enabled(s, es[|es| - 1]) {
        NextKeepsLists(s, es[|es| - 1], u);
      }
    }
  }

  // ---- what clients may rely on, in every reachable state ----

  /** Some run leads to the state; if `calm`, one in which no update re-opens a message. */
  ghost predicate ReachableBy(s: State, calm: bool) {
    exists users, now, es :: (calm ==> NothingReopened(Initial(users, now), es)) && s == Run(Initial(users, now), es)
  }

  ghost predicate Reachable(s: State) {
    ReachableBy(s, false)
  }

  lemma ReachableIsInv(s: State, calm: bool)
    requires ReachableBy(s, calm)
    ensures Inv(s)
  {
    var users, now, es :|
      (calm ==> NothingReopened(Initial(users, now), es)) && s == Run(Initial(users, now), es);
    EveryRunKeepsInv(users, now, es);
  }

  lemma CalmListOk(s: State, u: UserId)
    requires ReachableBy(s, true)
    ensures ListOk(s, u)
  {
    var users, now, es :| NothingReopened(Initial(users, now), es) && s == Run(Initial(users, now), es);
    CalmRunKeepsLists(users, now, es, u);
  }

  /** A cached page that differs from a fresh query is covered by a writer between its commit and its clear;
      with no such writer cached equals fresh, for both participants. */
  lemma {:induction false} StalePagesAreCovered(s: State, chat: Chat, u: UserId, size: nat)
    requires Reachable(s) && chat in s.db.chats && u in chat.users && Live(s, PageKey(chat.id, size))
    ensures var cached := s.cache[PageKey(chat.id, size)].value;
            cached.PageResponse? &&
            (cached.first.page == ChatMessages(s.db, u, chat.id, size).page ||
             Covered(s.pending, PageKey(chat.id, size)))
    ensures s.pending == map[] ==>
      s.cache[PageKey(chat.id, size)].value.first.page == ChatMessages(s.db, u, chat.id, size).page
  {
    ReachableIsInv(s, false);
    assert EntryOk(s, PageKey(chat.id, size));
    if PageIsFresh(s.db, chat, size, s.cache[PageKey(chat.id, size)].value) {
      FreshForBoth(s.db, chat, u, size, s.cache[PageKey(chat.id, size)].value);
    }
  }

  lemma ServedPageAsAsked(s: State, chat: Chat, u: UserId, size: nat, asked: nat)
    requires Inv(s) && chat in s.db.chats && u in chat.users
    requires PageSize(s.db, u, chat.id, size) == Ok(asked) && !Covered(s.pending, PageKey(chat.id, asked))
    ensures var r := PageView(s.db, s.cache, s.now, u, chat.id, size).0;
            && r.Ok? && r.value.PageResponse?
            && r.value.first.page == ChatMessages(s.db, u, chat.id, asked).page
  {
    var k := PageKey(chat.id, asked);
    ChatLookupIsSingle(s.db, chat.id);
    if Live(s, k) {
      assert EntryOk(s, k);
      FreshForBoth(s.db, chat, u, asked, s.cache[k].value);
    }
  }

  /** The page a participant is served, cached or not: with no covering writer it is the fresh page of the
      larger of the requested size and the unread count, so it holds every message past the viewer's watermark. */
  lemma {:induction false} ServedPageIsFresh(s: State, chat: Chat, u: UserId, size: nat, asked: nat)
    requires Reachable(s) && chat in s.db.chats && u in chat.users
    requires PageSize(s.db, u, chat.id, size) == Ok(asked) && !Covered(s.pending, PageKey(chat.id, asked))
    ensures |chat.users| == 2
    ensures var r := PageView(s.db, s.cache, s.now, u, chat.id, size).0;
            && r.Ok? && r.value.PageResponse?
            && r.value.first.page == ChatMessages(s.db, u, chat.id, asked).page
            && forall m :: m in ActiveMessages(s.db, chat.id) && m.id > Mark(s.db, u, chat.id) ==>
                 TrueView(s.db, chat, m) in r.value.first.page.messages
  {
    ReachableIsInv(s, false);
    assert ChatConsistent(s.db, chat);
    ServedPageAsAsked(s, chat, u, size, asked);
    FirstPageCoversUnread(s.db, chat, u, size);
  }

  function CountsIn(summaries: seq<ChatSummary>, chats: seq<Chat>): seq<nat> {
    Map(chats, (chat: Chat) => CountIn(summaries, chat.id))
  }

  lemma {:induction false} NoCounts(chats: seq<Chat>)
    ensures Sum(CountsIn([], chats)) == 0
  {
    if chats != [] {
      NoCounts(chats[..|chats| - 1]);
      assert CountsIn([], chats)[..|chats| - 1] == CountsIn([], chats[..|chats| - 1]);
    }
  }

  lemma {:induction false} OneMoreEntry(summaries: seq<ChatSummary>, chats: seq<Chat>)
    requires summaries != [] && DistinctIds(chats)
    ensures var last := summaries[|summaries| - 1];
            var rest := summaries[..|summaries| - 1];
            Sum(CountsIn(summaries, chats)) <= Sum(CountsIn(rest, chats)) +
              if exists i :: 0 <= i < |chats| && chats[i].id == last.chat then last.newMessages else 0
  {
    if chats != [] {
      var n := |chats| - 1;
      var rest := summaries[..|summaries| - 1];
      OneMoreEntry(summaries, chats[..n]);
      assert CountsIn(summaries, chats)[..n] == CountsIn(summaries, chats[..n]);
      assert CountsIn(rest, chats)[..n] == CountsIn(rest, chats[..n]);
      assert forall i :: 0 <= i < n ==> chats[..n][i] == chats[i];
    }
  }

  /** Chats that differ each take their count from a different entry of the list. */
  lemma {:induction false} CountsInFit(summaries: seq<ChatSummary>, chats: seq<Chat>)
    requires DistinctIds(chats)
    ensures Sum(CountsIn(summaries, chats)) <= Sum(Map(summaries, (s: ChatSummary) => s.newMessages))
  {
    if summaries == [] {
      NoCounts(chats);
    } else {
      var n := |summaries| - 1;
      CountsInFit(summaries[..n], chats);
      var counts := (s: ChatSummary) => s.newMessages;
      assert Map(summaries, counts)[..n] == Map(summaries[..n], counts);
      OneMoreEntry(summaries, chats);
    }
  }

  lemma {:induction false} SumMonotone(s: seq<nat>, t: seq<nat>)
    requires |s| == |t| && forall i :: 0 <= i < |s| ==> s[i] <= t[i]
    ensures Sum(s) <= Sum(t)
  {
    if s != [] {
      SumMonotone(s[..|s| - 1], t[..|t| - 1]);
    }
  }

  lemma ReportedTotal(db: Database, u: UserId, r: Response)
    requires RowsConsistent(db) && NeverUnderReports(db, u, r)
    ensures FreshList(db, u).total <= r.list.total
  {
    FreshListMeaning(db, u);
    UserDirectChatsDistinct(db, u);
    var chats, now := UserDirectChats(db, u), FreshList(db, u);
    var counts := Map(now.chats, (s: ChatSummary) => s.newMessages);
    forall i | 0 <= i < |chats| ensures counts[i] <= CountsIn(r.list.chats, chats)[i] {
      DirectChatsMembers(db, u, chats[i]);
    }
    SumMonotone(counts, CountsIn(r.list.chats, chats));
    CountsInFit(r.list.chats, chats);
  }

  /** In a state reached without re-opening a message, the chat list that a user is served never under-reports, unless a
      writer is still going to clear it: each chat's fresh count is at most the count shown (0 for a chat not shown),
      and so is the total. */
  lemma {:induction false} ServedListNeverUnderReports(s: State, u: UserId)
    requires ReachableBy(s, true) && !Covered(s.pending, ListKey(u))
    ensures var r := ListView(s.db, s.cache, s.now, u).0;
            && r.ListResponse?
            && (forall chat :: chat in UserDirectChats(s.db, u) ==>
                  ChatStats(s.db, u, chat.id).Ok? &&
                  ChatStats(s.db, u, chat.id).value <= CountIn(r.list.chats, chat.id))
            && FreshList(s.db, u).total <= r.list.total
  {
    ReachableIsInv(s, true);
    CalmListOk(s, u);
    var r := ListView(s.db, s.cache, s.now, u).0;
    FreshListNeverUnderReports(s.db, u);
    assert NeverUnderReports(s.db, u, r);
    ReportedTotal(s.db, u, r);
    forall chat | chat in UserDirectChats(s.db, u)
      ensures ChatStats(s.db, u, chat.id).Ok? && ChatStats(s.db, u, chat.id).value <= CountIn(r.list.chats, chat.id)
    {
      DirectChatsMembers(s.db, u, chat);
      StatsMeaning(s.db, chat, u);
    }
  }

  /** An update that follows its own select without interruption re-opens nothing. */
  lemma {:induction false} UninterruptedUpdateIsCalm(s: State, w: WriterId, a: Ack)
    requires Inv(s) && Enabled(s, Select(w, a))
    ensures !Reopening(Next(s, Select(w, a)), Update(w))
  {
    SelectedIsOpen(s.db, a);
  }
}
