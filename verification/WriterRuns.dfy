/** A request that is not interrupted is one run of the cache protocol's split steps. */
module WriterRuns {
  import opened Models
  import Queries
  import opened Store
  import opened Writes
  import opened CacheProtocol

  function Without(cache: Cache, p: Pattern): Cache {
    cache - Scanned(cache, p)
  }

  /** What is left of a cache when a list of clearing loops has run. */
  function Cleared(cache: Cache, ops: seq<Clearing>): Cache {
    if ops == [] then cache else Cleared(Without(cache, ops[0].pattern), ops[1..])
  }

  lemma {:induction false} ClearedAppend(cache: Cache, ops: seq<Clearing>, op: Clearing)
    ensures Cleared(cache, ops + [op]) == Without(Cleared(cache, ops), op.pattern)
  {
    if ops == [] {
      assert ops + [op] == [op] && [op][1..] == [];
    } else {
      ClearedAppend(Without(cache, ops[0].pattern), ops[1..], op);
      assert (ops + [op])[1..] == ops[1..] + [op];
    }
  }

  /** Exactly the keys in `gone` have been deleted. */
  ghost predicate Dropped(was: Cache, now: Cache, gone: iset<Key>) {
    && (forall k :: k in now <==> k in was && k !in gone)
    && (forall k :: k in now ==> now[k] == was[k])
  }

  lemma {:induction false} ListsAreDropped(entries: Cache, users: seq<UserId>)
    ensures Dropped(entries, Cleared(entries, ClearLists(users)), iset k: Key | k.ListKey? && k.user in users)
  {
    if users != [] {
      var ops := ClearLists(users);
      assert ops[1..] == ClearLists(users[1..]);
      ListsAreDropped(Without(entries, ops[0].pattern), users[1..]);
      assert users == [users[0]] + users[1..];
    }
  }

  /** What the request of a transaction clears in the end. */
  function Clears(db: Database, t: Transaction): seq<Clearing> {
    match t
    case CreateChat(_, _, _) => []
    case SendMessage(u, c, content, createdAt, now) =>
      if SaveMessage(db, u, c, content, createdAt, now).Ok?
      then ClearLists(UsersOf(db, c)) + [Scan(PagesOf(c))] else []
    case ReadMessage(u, c, id) =>
      var r := MarkLastRead(db, u, c, id);
      if r.Ok? && r.value.1 then [Scan(PagesOf(c))] else []
    case RemoveChat(u, c) => ClearLists(UsersOf(db, c))
  }

  // ---- a request that is not interrupted is one run of the protocol's steps ----

  /** A run leads from one state to the other, and re-opens nothing. */
  ghost predicate LeadsTo(s: State, end: State) {
    exists es :: NothingReopened(s, es) && CacheProtocol.Run(s, es) == end
  }

  lemma RunOneMore(s: State, es: seq<Event>, e: Event)
    ensures CacheProtocol.Run(s, es + [e]) == CacheProtocol.Step(CacheProtocol.Run(s, es), e)
    ensures NothingReopened(s, es + [e]) <==> NothingReopened(s, es) && !Reopening(CacheProtocol.Run(s, es), e)
  {
    assert (es + [e])[..|es|] == es;
  }

  lemma LeadsToItself(s: State)
    ensures LeadsTo(s, s)
  {
    var none: seq<Event> := [];
    assert NothingReopened(s, none) && CacheProtocol.Run(s, none) == s;
  }

  lemma LeadsToNext(s: State, mid: State, e: Event)
    requires LeadsTo(s, mid) && Enabled(mid, e) && !Reopening(mid, e)
    ensures LeadsTo(s, Next(mid, e))
  {
    var es :| NothingReopened(s, es) && CacheProtocol.Run(s, es) == mid;
    RunOneMore(s, es, e);
  }

  /** The state in which writer w is about to work through `ops`. */
  function Working(base: State, cache: Cache, w: WriterId, ops: seq<Clearing>): State {
    base.(cache := cache, pending := if ops == [] then base.pending else base.pending[w := ops])
  }

  lemma DeleteIsOneStep(base: State, cache: Cache, w: WriterId, p: Pattern, left: set<Key>, rest: seq<Clearing>, k: Key)
    requires Matches(p, k)
    ensures var mid := Working(base, cache, w, [CacheProtocol.Delete(p, left)] + rest);
            && Enabled(mid, DeleteKey(w, k))
            && Next(mid, DeleteKey(w, k)) == Working(base, cache - {k}, w, [CacheProtocol.Delete(p, left - {k})] + rest)
  {
    assert ([CacheProtocol.Delete(p, left)] + rest)[1..] == rest;
  }

  lemma {:induction false} DrainKeys(s: State, base: State, cache: Cache, w: WriterId, p: Pattern, left: set<Key>,
                                     rest: seq<Clearing>)
    requires w !in base.pending && (forall k :: k in left ==> Matches(p, k))
    requires LeadsTo(s, Working(base, cache, w, [CacheProtocol.Delete(p, left)] + rest))
    ensures LeadsTo(s, Working(base, cache - left, w, [CacheProtocol.Delete(p, {})] + rest))
    decreases left
  {
    if left == {} {
      assert cache - left == cache;
    } else {
      var k :| k in left;
      var mid := Working(base, cache, w, [CacheProtocol.Delete(p, left)] + rest);
      DeleteIsOneStep(base, cache, w, p, left, rest, k);
      LeadsToNext(s, mid, DeleteKey(w, k));
      DrainKeys(s, base, cache - {k}, w, p, left - {k}, rest);
      assert cache - {k} - (left - {k}) == cache - left;
    }
  }

  lemma ScanBegins(base: State, cache: Cache, w: WriterId, p: Pattern, ops: seq<Clearing>)
    requires ops != [] && ops[0] == Scan(p)
    ensures var before := Working(base, cache, w, ops);
            && Enabled(before, BeginScan(w))
            && Next(before, BeginScan(w)) ==
                 Working(base, cache, w, [CacheProtocol.Delete(p, Scanned(cache, p))] + ops[1..])
  {
  }

  lemma ScanEnds(base: State, cache: Cache, w: WriterId, p: Pattern, rest: seq<Clearing>)
    requires w !in base.pending
    ensures var after := Working(base, cache, w, [CacheProtocol.Delete(p, {})] + rest);
            Enabled(after, EndScan(w)) && Next(after, EndScan(w)) == Working(base, cache, w, rest)
  {
    var ops := [CacheProtocol.Delete(p, {})] + rest;
    assert ops[1..] == rest;
    assert base.pending[w := ops] - {w} == base.pending;
    assert base.pending[w := ops][w := rest] == base.pending[w := rest];
  }

  lemma DrainOne(s: State, base: State, cache: Cache, w: WriterId, p: Pattern, ops: seq<Clearing>)
    requires w !in base.pending && ops != [] && ops[0] == Scan(p)
    requires LeadsTo(s, Working(base, cache, w, ops))
    ensures LeadsTo(s, Working(base, Without(cache, p), w, ops[1..]))
  {
    ScanBegins(base, cache, w, p, ops);
    LeadsToNext(s, Working(base, cache, w, ops), BeginScan(w));
    DrainKeys(s, base, cache, w, p, Scanned(cache, p), ops[1..]);
    ScanEnds(base, Without(cache, p), w, p, ops[1..]);
    LeadsToNext(s, Working(base, Without(cache, p), w, [CacheProtocol.Delete(p, {})] + ops[1..]), EndScan(w));
  }

  ghost predicate OnlyScans(ops: seq<Clearing>) {
    forall op :: op in ops ==> op.Scan?
  }

  lemma ScansBelow(ops: seq<Clearing>)
    requires OnlyScans(ops) && ops != []
    ensures ops[0] == Scan(ops[0].pattern) && OnlyScans(ops[1..])
  {
    assert ops[0] in ops;
  }

  lemma {:induction false} DrainAll(s: State, base: State, cache: Cache, w: WriterId, ops: seq<Clearing>)
    requires w !in base.pending && OnlyScans(ops)
    requires LeadsTo(s, Working(base, cache, w, ops))
    ensures LeadsTo(s, Working(base, Cleared(cache, ops), w, []))
    decreases ops
  {
    if ops != [] {
      ScansBelow(ops);
      var p := ops[0].pattern;
      DrainOne(s, base, cache, w, p, ops);
      DrainAll(s, base, Without(cache, p), w, ops[1..]);
      assert Cleared(cache, ops) == Cleared(Without(cache, p), ops[1..]);
    }
  }

  /** The state in which the request of a transaction has written and is about to clear. */
  function Cleaning(s: State, t: Transaction, w: WriterId): State {
    Working(s.(db := Apply(s.db, t)), s.cache, w, Clears(s.db, t))
  }

  lemma CreateRunsAlone(s: State, t: Transaction, w: WriterId)
    requires Free(s, w) && t.CreateChat? && Expected(s.db, t)
    ensures LeadsTo(s, Cleaning(s, t, w))
  {
    var check := Check(w, t.initiator, t.recipient);
    LeadsToItself(s);
    LeadsToNext(s, s, check);
    if w in Next(s, check).open {
      LeadsToNext(s, Next(s, check), Insert(w, t.now));
      assert s.open[w := Checked(t.initiator, t.recipient)] - {w} == s.open;
    }
  }

  lemma SelectedRunsOn(s: State, a: Ack, w: WriterId)
    requires RowsConsistent(s.db) && Free(s, w) && Expected(s.db, ReadMessage(a.user, a.chat, a.id))
    requires a.id > Queries.Mark(s.db, a.user, a.chat)
    ensures Enabled(s, Select(w, a)) && Next(s, Select(w, a)) == s.(open := s.open[w := Selected(a)])
    ensures var mid := Next(s, Select(w, a));
            && Enabled(mid, Update(w)) && !Reopening(mid, Update(w))
            && Next(mid, Update(w)) == Working(s.(db := Written(s.db, a)), s.cache, w, [Scan(PagesOf(a.chat))])
  {
    SelectedIsOpen(s.db, a);
    assert s.open[w := Selected(a)] - {w} == s.open;
  }

  lemma ReadRunsAlone(s: State, t: Transaction, w: WriterId)
    requires RowsConsistent(s.db) && Free(s, w) && t.ReadMessage? && Expected(s.db, t)
    ensures LeadsTo(s, Cleaning(s, t, w))
  {
    var a := Ack(t.user, t.chat, t.id);
    SelectedIsOpen(s.db, a);
    LeadsToItself(s);
    LeadsToNext(s, s, Select(w, a));
    if t.id > Queries.Mark(s.db, t.user, t.chat) {
      SelectedRunsOn(s, a, w);
      LeadsToNext(s, Next(s, Select(w, a)), Update(w));
    }
  }

  lemma WholeRunsAlone(s: State, t: Transaction, w: WriterId)
    requires Free(s, w) && (t.SendMessage? || t.RemoveChat?) && Expected(s.db, t)
    ensures LeadsTo(s, Cleaning(s, t, w))
  {
    var x := if t.SendMessage? then Sending(t.author, t.chat, t.content, t.createdAt, t.now)
             else Deletion(t.user, t.chat);
    if t.SendMessage? {
      SendSucceeds(s.db, t.author, t.chat, t.content, t.createdAt, t.now);
    }
    LeadsToItself(s);
    LeadsToNext(s, s, Whole(w, x));
    assert s.open - {w} == s.open;
  }

  /** Checking or selecting, writing and then clearing without interruption is one possible run of the split steps. */
  lemma WriterRunsAlone(s: State, t: Transaction, w: WriterId)
    requires RowsConsistent(s.db) && Free(s, w) && Expected(s.db, t)
    ensures LeadsTo(s, s.(db := Apply(s.db, t), cache := Cleared(s.cache, Clears(s.db, t))))
  {
    match t {
      case CreateChat(_, _, _) => CreateRunsAlone(s, t, w);
      case ReadMessage(_, _, _) => ReadRunsAlone(s, t, w);
      case _ => WholeRunsAlone(s, t, w);
    }
    var base := s.(db := Apply(s.db, t));
    DrainAll(s, base, s.cache, w, Clears(s.db, t));
    assert Working(base, Cleared(s.cache, Clears(s.db, t)), w, []) == base.(cache := Cleared(s.cache, Clears(s.db, t)));
  }

  // ---- runs one after the other ----

  lemma ReachableNext(s: State, e: Event, calm: bool)
    requires ReachableBy(s, calm) && (calm ==> !Reopening(s, e))
    ensures ReachableBy(CacheProtocol.Step(s, e), calm)
  {
    var users, now, es :|
      (calm ==> NothingReopened(Initial(users, now), es)) && s == CacheProtocol.Run(Initial(users, now), es);
    RunOneMore(Initial(users, now), es, e);
  }

  /** Any key can be evicted at any time, and the clock can move on by any amount. */
  lemma EntriesCanGo(s: State, k: Key, later: Models.Time, calm: bool)
    requires ReachableBy(s, calm) && s.now <= later
    ensures ReachableBy(s.(cache := s.cache - {k}), calm) && ReachableBy(s.(now := later), calm)
  {
    ReachableNext(s, Evict(k), calm);
    ReachableNext(s, Tick(later), calm);
  }

  lemma {:induction false} RunKeepsReachable(s: State, es: seq<Event>, calm: bool)
    requires ReachableBy(s, calm) && (calm ==> NothingReopened(s, es))
    ensures ReachableBy(CacheProtocol.Run(s, es), calm)
  {
    if es != [] {
      var past := es[..|es| - 1];
      RunKeepsReachable(s, past, calm);
      ReachableNext(CacheProtocol.Run(s, past), es[|es| - 1], calm);
    }
  }

  /** What leads on from a reachable state is reachable. */
  lemma ReachableThrough(s: State, end: State, calm: bool)
    requires ReachableBy(s, calm) && LeadsTo(s, end)
    ensures ReachableBy(end, calm)
  {
    var es :| NothingReopened(s, es) && CacheProtocol.Run(s, es) == end;
    RunKeepsReachable(s, es, calm);
  }

  lemma InitialIsReachable(users: set<UserId>, now: Time, calm: bool)
    ensures ReachableBy(Initial(users, now), calm)
  {
    var none: seq<Event> := [];
    assert NothingReopened(Initial(users, now), none);
    assert CacheProtocol.Run(Initial(users, now), none) == Initial(users, now);
  }

  lemma {:induction false} AboveAll(ids: set<nat>) returns (w: nat)
    ensures forall id :: id in ids ==> id < w
    decreases ids
  {
    w := 0;
    if ids != {} {
      var id :| id in ids;
      var v := AboveAll(ids - {id});
      w := if id < v then v else id + 1;
      assert forall x :: x in ids ==> x == id || x in ids - {id};
    }
  }

  /** There is always a writer id that nobody uses. */
  lemma FreshWriter(s: State) returns (w: WriterId)
    ensures Free(s, w)
  {
    w := AboveAll(s.open.Keys + s.pending.Keys);
  }

  /** A request with its clearing, uninterrupted, leads from a reachable state to a reachable one. */
  lemma WriterKeepsReachable(s: State, t: Transaction, calm: bool)
    requires ReachableBy(s, calm) && Expected(s.db, t)
    ensures ReachableBy(s.(db := Apply(s.db, t), cache := Cleared(s.cache, Clears(s.db, t))), calm)
  {
    var w := FreshWriter(s);
    ReachableIsInv(s, calm);
    WriterRunsAlone(s, t, w);
    ReachableThrough(s, s.(db := Apply(s.db, t), cache := Cleared(s.cache, Clears(s.db, t))), calm);
  }
}
