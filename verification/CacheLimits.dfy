/** Exactly when the parts of a cached answer that nobody keeps fresh are fresh all the same. */
module CacheLimits {
  import opened Collections
  import opened Models
  import opened Queries
  import opened PageMeaning
  import opened DirectChats
  import opened Store
  import opened Writes
  import opened CacheProtocol
  import WriterRuns
  import opened ListFreshness

  // ---- the last read message of a cached page ----

  /** An uncovered cached page carries the last read message of one participant, and is right for a participant if
      and only if that is this one or has the same watermark. */
  lemma {:induction false} CachedLastReadMessage(s: State, chat: Chat, size: nat) returns (filler: UserId)
    requires Reachable(s) && chat in s.db.chats && Live(s, PageKey(chat.id, size))
    requires !Covered(s.pending, PageKey(chat.id, size))
    ensures filler in chat.users && s.cache[PageKey(chat.id, size)].value.PageResponse?
    ensures forall v :: v in chat.users ==>
      (s.cache[PageKey(chat.id, size)].value.first == ChatMessages(s.db, v, chat.id, size) <==>
       Mark(s.db, v, chat.id) == Mark(s.db, filler, chat.id))
  {
    ReachableIsInv(s, false);
    var first := s.cache[PageKey(chat.id, size)].value.first;
    assert EntryOk(s, PageKey(chat.id, size));
    filler :| filler in chat.users && first == ChatMessages(s.db, filler, chat.id, size);
    forall v | v in chat.users
      ensures first == ChatMessages(s.db, v, chat.id, size) <==>
              Mark(s.db, v, chat.id) == Mark(s.db, filler, chat.id)
    {
      PagesAgreeForBothParticipants(s.db, chat, v, filler, size, 0);
      if v != filler {
        LastReadMessageDependsOnViewer(s.db, chat, v, filler, size);
      }
    }
  }

  lemma MissIsFilled(db: Database, cache: Cache, now: Time, chat: Chat, u: UserId, size: nat, asked: nat)
    requires RowsConsistent(db) && chat in db.chats && u in chat.users && PageSize(db, u, chat.id, size) == Ok(asked)
    requires CachedValue(cache, PageKey(chat.id, asked), now) == None
    ensures PageView(db, cache, now, u, chat.id, size).0 == Ok(PageResponse(ChatMessages(db, u, chat.id, asked)))
  {
    ChatLookupIsSingle(db, chat.id);
  }

  lemma SecondIsServedFirst(db: Database, cache: Cache, now: Time, chat: Chat, u: UserId, v: UserId, sizeU: nat,
                            sizeV: nat, asked: nat)
    requires RowsConsistent(db) && chat in db.chats && u in chat.users
    requires PageSize(db, u, chat.id, sizeU) == Ok(asked) && PageSize(db, v, chat.id, sizeV) == Ok(asked)
    requires CachedValue(cache, PageKey(chat.id, asked), now) == None
    ensures PageView(db, PageView(db, cache, now, u, chat.id, sizeU).1, now, v, chat.id, sizeV).0
         == Ok(PageResponse(ChatMessages(db, u, chat.id, asked)))
  {
    MissIsFilled(db, cache, now, chat, u, sizeU, asked);
    FilledUntilExpiry(db, cache, now, u, v, chat.id, sizeU, sizeV, now);
  }

  /** When u has filled the cache, v is served u's page, with the right last read message if and only if the two
      watermarks are equal. */
  lemma {:induction false} ServedFromOther(db: Database, cache: Cache, now: Time, chat: Chat, u: UserId, v: UserId,
                                           sizeU: nat, sizeV: nat, asked: nat)
    requires RowsConsistent(db) && chat in db.chats && u in chat.users && v in chat.users && u != v
    requires PageSize(db, u, chat.id, sizeU) == Ok(asked) && PageSize(db, v, chat.id, sizeV) == Ok(asked)
    requires CachedValue(cache, PageKey(chat.id, asked), now) == None
    ensures var filled := PageView(db, cache, now, u, chat.id, sizeU).1;
            var served := PageView(db, filled, now, v, chat.id, sizeV).0;
            && served.Ok? && served.value.PageResponse?
            && (served.value.first.lastReadMessage == ChatMessages(db, v, chat.id, asked).lastReadMessage <==>
                Mark(db, u, chat.id) == Mark(db, v, chat.id))
  {
    SecondIsServedFirst(db, cache, now, chat, u, v, sizeU, sizeV, asked);
    LastReadMessageDependsOnViewer(db, chat, u, v, asked);
  }

  // ---- an outsider ----

  /** Whoever is not a participant is served a page exactly when one of the requested size is cached, because the
      cache is asked before the participants are. */
  lemma {:induction false} OutsiderIsServedFromCache(s: State, chat: Chat, u: UserId, size: nat)
    requires Reachable(s) && chat in s.db.chats && u !in chat.users
    ensures PageView(s.db, s.cache, s.now, u, chat.id, size).0 ==
            if Live(s, PageKey(chat.id, size)) then Ok(s.cache[PageKey(chat.id, size)].value) else Err(Conflict)
  {
    ReachableIsInv(s, false);
    ChatLookupIsSingle(s.db, chat.id);
    assert ChatConsistent(s.db, chat);
    FilterNone(StatusesOf(s.db, chat.id), (r: ReadStatus) => r.userId == u);
  }

  // ---- the cached list of direct chats ----

  /** The entry is neither deleted, nor filled anew, nor does it expire during the run. */
  ghost predicate Stays(s: State, es: seq<Event>, k: Key) {
    if es == [] then Live(s, k)
    else
      && Stays(s, es[..|es| - 1], k)
      && Remains(CacheProtocol.Run(s, es[..|es| - 1]), CacheProtocol.Run(s, es), k)
  }

  /** The acknowledgement that an event writes, if it writes one of the user in the chat. */
  ghost predicate MovesMark(s: State, e: Event, u: UserId, c: ChatId) {
    && e.Update? && Enabled(s, e) && RowIsThere(s.db, s.open[e.writer].ack)
    && s.open[e.writer].ack.user == u && s.open[e.writer].ack.chat == c
  }

  /** The id that the last update of the run wrote, the watermark at its start if there was none. */
  ghost function LastWrite(s: State, es: seq<Event>, u: UserId, c: ChatId): MessageId {
    if es == [] then Mark(s.db, u, c)
    else
      var mid, e := CacheProtocol.Run(s, es[..|es| - 1]), es[|es| - 1];
      if MovesMark(mid, e, u, c) then mid.open[e.writer].ack.id else LastWrite(s, es[..|es| - 1], u, c)
  }

  ghost predicate InsertsFor(s: State, e: Event, u: UserId) {
    e.Insert? && Enabled(s, e) && (u == s.open[e.writer].initiator || u == s.open[e.writer].recipient)
  }

  /** No event of the run inserts a chat of the user. */
  ghost predicate NothingInserted(s: State, es: seq<Event>, u: UserId) {
    es != [] ==>
      NothingInserted(s, es[..|es| - 1], u) && !InsertsFor(CacheProtocol.Run(s, es[..|es| - 1]), es[|es| - 1], u)
  }

  lemma WrittenUncovered(s: State, w: WriterId, x: Write, u: UserId)
    requires w !in s.pending && Possible(s.db, x) && !Covered(Wrote(s, w, x).pending, ListKey(u))
    ensures LeavesListAlone(s.db, x, u)
  {
    if SomeClears(ClearsAfter(s.db, x), ListKey(u)) {
      CoverageGrows(s, w, x, ListKey(u));
    }
  }

  lemma StepIsWrite(s: State, e: Event, u: UserId)
    requires Inv(s) && Enabled(s, e) && !Covered(Next(s, e).pending, ListKey(u))
    ensures match WriteOf(s, e)
            case None => Next(s, e).db == s.db
            case Some(x) => Next(s, e).db == Performed(s.db, x) && LeavesListAlone(s.db, x, u)
  {
    NextWrites(s, e);
    if WriteOf(s, e).Some? {
      WrittenUncovered(s, e.writer, WriteOf(s, e).value, u);
    }
  }

  /** What a step does to a list that it leaves uncleared. */
  lemma ListStep(was: Database, s: State, e: Event, u: UserId)
    requires RowsConsistent(was) && Inv(s) && Evolved(was, s.db, u)
    requires !Covered(CacheProtocol.Step(s, e).pending, ListKey(u))
    ensures Evolved(was, CacheProtocol.Step(s, e).db, u)
    ensures Later(was, CacheProtocol.Step(s, e).db, u) == [] <==> Later(was, s.db, u) == [] && !InsertsFor(s, e, u)
  {
    if Enabled(s, e) {
      StepIsWrite(s, e, u);
      if WriteOf(s, e).Some? {
        var x := WriteOf(s, e).value;
        EvolveStep(was, s.db, x, u);
        InsertedIsListed(s.db, x, u);
      }
    }
  }

  lemma MarkStep(was: Database, s: State, e: Event, u: UserId, chat: Chat)
    requires RowsConsistent(was) && Inv(s) && Evolved(was, s.db, u) && Evolved(was, CacheProtocol.Step(s, e).db, u)
    requires !Covered(CacheProtocol.Step(s, e).pending, ListKey(u)) && chat in was.chats && DirectOf(u)(chat)
    ensures Mark(CacheProtocol.Step(s, e).db, u, chat.id) ==
            if MovesMark(s, e, u, chat.id) then s.open[e.writer].ack.id else Mark(s.db, u, chat.id)
  {
    if Enabled(s, e) {
      StepIsWrite(s, e, u);
      if WriteOf(s, e).Some? {
        ListedIn(was.chats, DirectOf(u), chat);
        ListedIn(s.db.chats, DirectOf(u), chat);
        ListedIn(Next(s, e).db.chats, DirectOf(u), chat);
        NotDeleted(s.db, WriteOf(s, e).value, chat);
        MarkAfterWrite(s.db, WriteOf(s, e).value, u, chat);
      }
    }
  }

  lemma UncoveredBefore(s: State, e: Event, k: Key)
    requires Remains(s, CacheProtocol.Step(s, e), k) && !Covered(CacheProtocol.Step(s, e).pending, k)
    ensures !Covered(s.pending, k)
  {
    if Enabled(s, e) && Covered(s.pending, k) {
      CoverageStays(s, e, k);
    }
  }

  lemma RunIsInv(s: State, es: seq<Event>)
    requires Reachable(s)
    ensures Inv(CacheProtocol.Run(s, es))
  {
    WriterRuns.RunKeepsReachable(s, es, false);
    ReachableIsInv(CacheProtocol.Run(s, es), false);
  }

  lemma {:induction false} ListOverRun(s: State, es: seq<Event>, u: UserId)
    requires Reachable(s) && Stays(s, es, ListKey(u)) && !Covered(CacheProtocol.Run(s, es).pending, ListKey(u))
    ensures Inv(s) && Inv(CacheProtocol.Run(s, es)) && Evolved(s.db, CacheProtocol.Run(s, es).db, u)
    ensures Later(s.db, CacheProtocol.Run(s, es).db, u) == [] <==> NothingInserted(s, es, u)
    ensures forall chat :: chat in s.db.chats && DirectOf(u)(chat) ==>
      Mark(CacheProtocol.Run(s, es).db, u, chat.id) == LastWrite(s, es, u, chat.id)
  {
    ReachableIsInv(s, false);
    RunIsInv(s, es);
    if es == [] {
      EvolvedItself(s.db, u);
    } else {
      var past, e := es[..|es| - 1], es[|es| - 1];
      var mid := CacheProtocol.Run(s, past);
      UncoveredBefore(mid, e, ListKey(u));
      ListOverRun(s, past, u);
      ListStep(s.db, mid, e, u);
      forall chat | chat in s.db.chats && DirectOf(u)(chat)
        ensures Mark(CacheProtocol.Run(s, es).db, u, chat.id) == LastWrite(s, es, u, chat.id)
      {
        MarkStep(s.db, mid, e, u, chat);
      }
    }
  }

  lemma {:induction false} EntryOverRun(s: State, es: seq<Event>, k: Key)
    requires Stays(s, es, k)
    ensures Live(s, k) && Live(CacheProtocol.Run(s, es), k) && CacheProtocol.Run(s, es).cache[k] == s.cache[k]
  {
    if es != [] {
      EntryOverRun(s, es[..|es| - 1], k);
    }
  }

  /** The list was filled at the start of the run, and no writer is about to clear it at its end. */
  ghost predicate CachedThrough(s: State, es: seq<Event>, u: UserId) {
    && Reachable(s) && Stays(s, es, ListKey(u)) && !Covered(CacheProtocol.Run(s, es).pending, ListKey(u))
    && ListKey(u) in s.cache && s.cache[ListKey(u)].value == ListResponse(FreshList(s.db, u))
  }

  /** From the moment a user's list is filled until it is cleared, evicted, expired or filled anew, the cached list
      equals a fresh one if and only if no chat of the user was inserted, and in each listed chat no message of the
      other participant lies between the watermark at the start and the last one written since. */
  lemma {:induction false} CachedListIsFresh(s: State, es: seq<Event>, u: UserId)
    requires CachedThrough(s, es, u)
    ensures Live(CacheProtocol.Run(s, es), ListKey(u))
    ensures var s' := CacheProtocol.Run(s, es);
            s'.cache[ListKey(u)].value == ListResponse(FreshList(s'.db, u)) <==>
            && NothingInserted(s, es, u)
            && forall chat :: chat in s.db.chats && DirectOf(u)(chat) ==>
                 && !LiesBetween(ActiveMessages(s.db, chat.id), u, Mark(s.db, u, chat.id), LastWrite(s, es, u, chat.id))
                 && !LiesBetween(ActiveMessages(s.db, chat.id), u, LastWrite(s, es, u, chat.id), Mark(s.db, u, chat.id))
  {
    EntryOverRun(s, es, ListKey(u));
    ListOverRun(s, es, u);
    ListIsSame(s.db, CacheProtocol.Run(s, es).db, u);
  }

  /** ... and it under-reports a chat if and only if a message of the other participant lies above the last watermark
      written and not above the one at the start. */
  lemma {:induction false} CachedListReports(s: State, es: seq<Event>, u: UserId)
    requires CachedThrough(s, es, u)
    ensures Live(CacheProtocol.Run(s, es), ListKey(u))
    ensures var s' := CacheProtocol.Run(s, es);
            NeverUnderReports(s'.db, u, s'.cache[ListKey(u)].value) <==>
            forall chat :: chat in s.db.chats && DirectOf(u)(chat) ==>
              !LiesBetween(ActiveMessages(s.db, chat.id), u, LastWrite(s, es, u, chat.id), Mark(s.db, u, chat.id))
  {
    EntryOverRun(s, es, ListKey(u));
    ListOverRun(s, es, u);
    OldListReports(s.db, CacheProtocol.Run(s, es).db, u);
  }

  /** In every state of the run. */
  ghost predicate ReportsThroughout(s: State, es: seq<Event>, u: UserId, r: Response) {
    && NeverUnderReports(CacheProtocol.Run(s, es).db, u, r)
    && (es != [] ==> ReportsThroughout(s, es[..|es| - 1], u, r))
  }

  /** The event writes a watermark of a listed chat below a message of the other participant that the user had read in
      the given tables. */
  ghost predicate ReopensSince(was: Database, s: State, e: Event, u: UserId) {
    exists chat :: chat in was.chats && DirectOf(u)(chat) && MovesMark(s, e, u, chat.id) &&
                   LiesBetween(ActiveMessages(was, chat.id), u, s.open[e.writer].ack.id, Mark(was, u, chat.id))
  }

  /** At no event of the run. */
  ghost predicate NeverReopenedSince(s: State, es: seq<Event>, u: UserId) {
    es != [] ==>
      && NeverReopenedSince(s, es[..|es| - 1], u)
      && !ReopensSince(s.db, CacheProtocol.Run(s, es[..|es| - 1]), es[|es| - 1], u)
  }

  lemma ReportStep(s: State, es: seq<Event>, u: UserId)
    requires es != [] && CachedThrough(s, es, u) && CachedThrough(s, es[..|es| - 1], u)
    requires NeverUnderReports(CacheProtocol.Run(s, es[..|es| - 1]).db, u, s.cache[ListKey(u)].value)
    ensures NeverUnderReports(CacheProtocol.Run(s, es).db, u, s.cache[ListKey(u)].value) <==>
            !ReopensSince(s.db, CacheProtocol.Run(s, es[..|es| - 1]), es[|es| - 1], u)
  {
    var past := es[..|es| - 1];
    EntryOverRun(s, es, ListKey(u));
    EntryOverRun(s, past, ListKey(u));
    CachedListReports(s, es, u);
    CachedListReports(s, past, u);
  }

  lemma PastCachedThrough(s: State, es: seq<Event>, u: UserId)
    requires es != [] && CachedThrough(s, es, u)
    ensures CachedThrough(s, es[..|es| - 1], u)
  {
    UncoveredBefore(CacheProtocol.Run(s, es[..|es| - 1]), es[|es| - 1], ListKey(u));
  }

  /** From its filling on a cached list never under-reports, in any state, if and only if no update since has written a
      watermark of a listed chat below a message that had been read when the list was filled. */
  lemma {:induction false} ReportsUnlessReopened(s: State, es: seq<Event>, u: UserId)
    requires CachedThrough(s, es, u)
    ensures ReportsThroughout(s, es, u, s.cache[ListKey(u)].value) <==> NeverReopenedSince(s, es, u)
  {
    if es == [] {
      ReachableIsInv(s, false);
      FreshListNeverUnderReports(s.db, u);
    } else {
      PastCachedThrough(s, es, u);
      ReportsUnlessReopened(s, es[..|es| - 1], u);
      if ReportsThroughout(s, es[..|es| - 1], u, s.cache[ListKey(u)].value) {
        ReportStep(s, es, u);
      }
    }
  }
}
