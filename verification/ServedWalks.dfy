/** Walks as clients see them: from a served first page, over the states that the server goes through meanwhile. */
module ServedWalks {
  import opened Collections
  import opened Models
  import opened Queries
  import PageMeaning
  import opened Store
  import opened Writes
  import opened Pagination
  import C = CacheProtocol

  /** The walk of a client starts with the page it was served, from the cache or not. With no writer about to clear
      that page it is a walk from the fresh page of the size that the server asked for, and complete. */
  lemma {:induction false} ServedWalkIsComplete(s: C.State, dbs: nat -> Database, chat: Chat, u: UserId, size: nat,
                                                asked: nat, limits: nat -> nat, pages: seq<Page>)
    requires C.Reachable(s) && chat in s.db.chats && u in chat.users && size > 0
    requires PageSize(s.db, u, chat.id, size) == Ok(asked) && !C.Covered(s.pending, C.PageKey(chat.id, asked))
    requires dbs(0) == s.db && Growing(dbs, u, chat.id) && forall j: nat :: limits(j) > 0
    requires pages != [] && Continues(Served(dbs, u, chat.id, limits), 1, pages[0], pages[1..])
    requires var served := C.PageView(s.db, s.cache, s.now, u, chat.id, size).0;
             served.Ok? && served.value.PageResponse? ==> pages[0] == served.value.first.page
    ensures IsWalk(dbs, u, chat.id, asked, limits, pages) && asked >= size
    ensures Unflagged(Received(pages)) == Plain(PageMeaning.NewestFirst(s.db, chat.id))
    ensures OnlyLastIsFinal(pages[0], pages[1..])
  {
    C.ServedPageIsFresh(s, chat, u, size, asked);
    WalkIsComplete(dbs, u, chat.id, asked, limits, pages);
  }

  // ---- what the server does between the requests of a walk ----

  lemma SendGrows(db: Database, x: Write, u: UserId, c: ChatId)
    requires RowsConsistent(db) && x.Sending? && Possible(db, x) && Participates(db, u, c)
    ensures Participates(Performed(db, x), u, c)
    ensures ActiveMessages(db, c) <= ActiveMessages(Performed(db, x), c)
  {
    var chat :| chat in db.chats && chat.id == c && u in chat.users;
    SendSucceeds(db, x.author, x.chat, x.content, x.createdAt, x.now);
    TouchKeepsLookups(db, x.chat, x.now);
    assert Touch(x.chat, x.now)(chat) in Performed(db, x).chats;
    var added := [Message(db.nextMessageId, x.chat, x.author, x.content, x.createdAt, false)];
    FilterAppend(db.messages, added, ActiveIn(c));
  }

  /** A write that does not delete the chat only adds messages to it. */
  lemma WriteGrows(db: Database, x: Write, u: UserId, c: ChatId)
    requires RowsConsistent(db) && Possible(db, x) && Participates(db, u, c) && !(x.Deletion? && x.chat == c)
    ensures Participates(Performed(db, x), u, c)
    ensures ActiveMessages(db, c) <= ActiveMessages(Performed(db, x), c)
  {
    var chat :| chat in db.chats && chat.id == c && u in chat.users;
    match x
    case Insertion(_, _, _) => assert chat in Performed(db, x).chats;
    case Sending(_, _, _, _, _) => SendGrows(db, x, u, c);
    case Updating(_) => assert chat in Performed(db, x).chats;
    case Deletion(_, d) =>
      DeleteKeepsRows(db, d, c);
      FilterKeeps(db.chats, (y: Chat) => y.id != d, chat);
  }

  ghost predicate Keeps(e: C.Event, c: ChatId) {
    !(e.Whole? && e.write.Deletion? && e.write.chat == c)
  }

  lemma StepGrows(s: C.State, e: C.Event, u: UserId, c: ChatId)
    requires C.Inv(s) && Participates(s.db, u, c) && Keeps(e, c)
    ensures C.Inv(C.Step(s, e)) && Participates(C.Step(s, e).db, u, c)
    ensures ActiveMessages(s.db, c) <= ActiveMessages(C.Step(s, e).db, c)
  {
    if C.Enabled(s, e) {
      C.NextKeepsInv(s, e);
      C.NextWrites(s, e);
      if C.WriteOf(s, e).Some? {
        WriteGrows(s.db, C.WriteOf(s, e).value, u, c);
      }
    }
  }

  lemma {:induction false} RunGrows(s: C.State, es: seq<C.Event>, u: UserId, c: ChatId)
    requires C.Inv(s) && Participates(s.db, u, c) && forall e :: e in es ==> Keeps(e, c)
    ensures C.Inv(C.Run(s, es)) && Participates(C.Run(s, es).db, u, c)
    ensures ActiveMessages(s.db, c) <= ActiveMessages(C.Run(s, es).db, c)
  {
    if es != [] {
      var n := |es| - 1;
      RunGrows(s, es[..n], u, c);
      StepGrows(C.Run(s, es[..n]), es[n], u, c);
    }
  }

  function Tables(states: nat -> C.State): nat -> Database {
    (i: nat) => states(i).db
  }

  /** What the server goes through from one request of a walk to the next: anything that does not delete the chat. */
  ghost predicate GoesThrough(states: nat -> C.State, served: nat -> seq<C.Event>, c: ChatId) {
    && C.Reachable(states(0))
    && (forall i: nat :: states(i + 1) == C.Run(states(i), served(i)))
    && (forall i: nat, e :: e in served(i) ==> Keeps(e, c))
  }

  lemma OneMoreRun(states: nat -> C.State, served: nat -> seq<C.Event>, u: UserId, c: ChatId, i: nat)
    requires GoesThrough(states, served, c) && C.Inv(states(i)) && Participates(states(i).db, u, c)
    ensures states(i + 1) == C.Run(states(i), served(i))
    ensures C.Inv(states(i + 1)) && Participates(states(i + 1).db, u, c)
    ensures ActiveMessages(states(i).db, c) <= ActiveMessages(states(i + 1).db, c)
  {
    RunGrows(states(i), served(i), u, c);
  }

  lemma {:induction false} SnapshotGrows(states: nat -> C.State, served: nat -> seq<C.Event>, u: UserId, c: ChatId,
                                         i: nat)
    requires GoesThrough(states, served, c) && Participates(states(0).db, u, c)
    ensures C.Inv(states(i)) && Participates(states(i).db, u, c)
    ensures ActiveMessages(states(0).db, c) <= ActiveMessages(states(i).db, c)
    decreases i
  {
    if i == 0 {
      C.ReachableIsInv(states(0), false);
    } else {
      SnapshotGrows(states, served, u, c, i - 1);
      OneMoreRun(states, served, u, c, i - 1);
    }
  }

  /** Whatever the server does between the requests of a walk, racing requests included and short of deleting the chat,
      the walk sees it grow. */
  lemma {:induction false} ServedSnapshotsGrow(states: nat -> C.State, served: nat -> seq<C.Event>, u: UserId,
                                               c: ChatId)
    requires GoesThrough(states, served, c) && Participates(states(0).db, u, c)
    ensures Growing(Tables(states), u, c)
  {
    forall i: nat ensures GrownAt(Tables(states), u, c, i) {
      SnapshotGrows(states, served, u, c, i);
    }
  }

  // ---- the viewer's watermark between the requests ----

  /** An update that writes the viewer's watermark back. */
  ghost predicate Lowers(s: C.State, e: C.Event, u: UserId, c: ChatId) {
    && e.Update? && C.Enabled(s, e) && s.open[e.writer].ack.user == u && s.open[e.writer].ack.chat == c
    && s.open[e.writer].ack.id < Mark(s.db, u, c)
  }

  /** At no event of the run. */
  ghost predicate NothingLowered(s: C.State, es: seq<C.Event>, u: UserId, c: ChatId) {
    es != [] ==> NothingLowered(s, es[..|es| - 1], u, c) && !Lowers(C.Run(s, es[..|es| - 1]), es[|es| - 1], u, c)
  }

  lemma StepKeepsMark(s: C.State, e: C.Event, u: UserId, c: ChatId)
    requires C.Inv(s) && Participates(s.db, u, c) && Keeps(e, c) && !Lowers(s, e, u, c)
    ensures Mark(s.db, u, c) <= Mark(C.Step(s, e).db, u, c)
  {
    var chat :| chat in s.db.chats && chat.id == c && u in chat.users;
    if C.Enabled(s, e) {
      C.NextWrites(s, e);
      if C.WriteOf(s, e).Some? {
        MarkAfterWrite(s.db, C.WriteOf(s, e).value, u, chat);
      }
    }
  }

  lemma {:induction false} RunKeepsMark(s: C.State, es: seq<C.Event>, u: UserId, c: ChatId)
    requires C.Inv(s) && Participates(s.db, u, c) && forall e :: e in es ==> Keeps(e, c)
    requires NothingLowered(s, es, u, c)
    ensures Mark(s.db, u, c) <= Mark(C.Run(s, es).db, u, c)
  {
    if es != [] {
      var n := |es| - 1;
      RunKeepsMark(s, es[..n], u, c);
      RunGrows(s, es[..n], u, c);
      StepKeepsMark(C.Run(s, es[..n]), es[n], u, c);
    }
  }

  /** As long as no update writes it back, the viewer's watermark only grows from request to request, so that no message
      becomes new again. */
  lemma {:induction false} ServedMarksGrow(states: nat -> C.State, served: nat -> seq<C.Event>, u: UserId, c: ChatId,
                                           i: nat)
    requires GoesThrough(states, served, c) && Participates(states(0).db, u, c)
    requires forall j: nat :: NothingLowered(states(j), served(j), u, c)
    ensures Mark(states(0).db, u, c) <= Mark(states(i).db, u, c)
    decreases i
  {
    if i > 0 {
      ServedMarksGrow(states, served, u, c, i - 1);
      SnapshotGrows(states, served, u, c, i - 1);
      OneMoreRun(states, served, u, c, i - 1);
      RunKeepsMark(states(i - 1), served(i - 1), u, c);
    }
  }
}
