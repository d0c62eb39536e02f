/** Requests that race: creating a chat is an existence check and an insert, acknowledging a message is a select, an
    update and a broadcast, and between the parts the server serves other requests. */
module Races {
  import opened Collections
  import opened Models
  import opened Queries
  import opened Store
  import opened ReadTracking
  import opened Writes

  type Request = nat

  /** A request between two of its parts. `since` is the next chat id at the time of the check; `written` and `heard`
      are how many acknowledgements had been written and broadcast at the time of the select. */
  datatype Window =
    | Creating(initiator: UserId, recipient: UserId, since: ChatId)
    | Advancing(ack: Ack, written: nat, heard: nat)
    | Announcing(ack: Ack, heard: nat)

  /** `written` are the acknowledgements that were written, `answered` also those that were no advance, and
      `broadcasts` those that were announced, each in order. */
  datatype State = State(db: Database, windows: map<Request, Window>, written: seq<Ack>, answered: seq<Ack>,
                         broadcasts: seq<Ack>)

  datatype Event =
    | Check(request: Request, initiator: UserId, recipient: UserId)
    | Insert(request: Request, now: Time)
    | Select(request: Request, ack: Ack)
    | Update(request: Request)
    | Publish(request: Request)
    | Whole(t: Transaction)

  ghost predicate Enabled(s: State, e: Event) {
    match e
    case Check(r, a, b) => r !in s.windows && a != b
    case Insert(r, _) => r in s.windows && s.windows[r].Creating?
    case Select(r, a) => r !in s.windows && Expected(s.db, ReadMessage(a.user, a.chat, a.id))
    case Update(r) => r in s.windows && s.windows[r].Advancing?
    case Publish(r) => r in s.windows && s.windows[r].Announcing?
    case Whole(t) => (t.SendMessage? || t.RemoveChat?) && Expected(s.db, t)
  }

  function Next(s: State, e: Event): State
    requires Enabled(s, e)
  {
    match e
    case Check(r, a, b) =>
      if b in s.db.users && DirectChatExists(s.db, a, b) == Ok(false)
      then s.(windows := s.windows[r := Creating(a, b, s.db.nextChatId)]) else s
    case Insert(r, now) =>
      var w := s.windows[r];
      s.(db := CreateDirectChat(s.db, w.initiator, w.recipient, now), windows := s.windows - {r})
    case Select(r, a) =>
      var found := MarkLastRead(s.db, a.user, a.chat, a.id);
      if found.Err? then s
      else if found.value.1 then s.(windows := s.windows[r := Advancing(a, |s.written|, |s.broadcasts|)])
      else s.(answered := s.answered + [a])
    case Update(r) =>
      var a := s.windows[r].ack;
      if RowIsThere(s.db, a) then
        State(Written(s.db, a), s.windows[r := Announcing(a, s.windows[r].heard)], s.written + [a], s.answered + [a],
              s.broadcasts)
      else s.(windows := s.windows - {r})
    case Publish(r) => s.(broadcasts := s.broadcasts + [s.windows[r].ack], windows := s.windows - {r})
    case Whole(t) => s.(db := Apply(s.db, t))
  }

  function Start(users: set<UserId>): State {
    State(Empty(users), map[], [], [], [])
  }

  ghost function Step(s: State, e: Event): State {
    if Enabled(s, e) then Next(s, e) else s
  }

  /** A run from an empty database; an event that cannot happen where it stands is skipped. */
  ghost function After(users: set<UserId>, es: seq<Event>): State {
    if es == [] then Start(users) else Step(After(users, es[..|es| - 1]), es[|es| - 1])
  }

  // ---- the three promises, and what breaks them ----

  /** No user pair has two active direct chats. */
  ghost predicate PairsAreUnique(s: State) {
    OneDirectChatPerPair(s.db)
  }

  /** Every watermark is the highest id that its user has had answered in its chat. */
  ghost predicate MarksAreHighest(s: State) {
    forall chat, u {:trigger chat in s.db.chats, u in chat.users} :: chat in s.db.chats && u in chat.users ==>
      Mark(s.db, u, chat.id) == HighestBy(s.answered, u, chat.id)
  }

  /** For each user and chat the broadcasts carry strictly increasing ids. */
  ghost predicate BroadcastsAscend(s: State) {
    forall u, c :: Increasing(Filter(s.broadcasts, By(u, c)), BROADCAST_ID)
  }

  /** An insert for a pair whose chat was created after the check, and is still there. */
  ghost predicate PairTaken(s: State, e: Event) {
    && e.Insert? && Enabled(s, e)
    && exists chat :: chat in s.db.chats && chat.id >= s.windows[e.request].since &&
                      DirectPair(s.windows[e.request].initiator, s.windows[e.request].recipient)(chat)
  }

  ghost predicate HigherSince(acks: seq<Ack>, since: nat, a: Ack, least: MessageId) {
    exists i :: since <= i < |acks| && By(a.user, a.chat)(acks[i]) && acks[i].id >= least
  }

  /** An update, of a chat that is still there, after a higher id was written since the select. */
  ghost predicate MarkPassed(s: State, e: Event) {
    && e.Update? && Enabled(s, e) && RowIsThere(s.db, s.windows[e.request].ack)
    && HigherSince(s.written, s.windows[e.request].written, s.windows[e.request].ack, s.windows[e.request].ack.id + 1)
  }

  /** A broadcast after one as high was sent since the select. */
  ghost predicate BroadcastPassed(s: State, e: Event) {
    && e.Publish? && Enabled(s, e)
    && HigherSince(s.broadcasts, s.windows[e.request].heard, s.windows[e.request].ack, s.windows[e.request].ack.id)
  }

  // ---- what every run keeps, raced or not ----

  /** The watermark is what some acknowledgement wrote since the select. */
  ghost predicate LastWritten(s: State, a: Ack, since: nat) {
    exists i :: since <= i < |s.written| && s.written[i] == Ack(a.user, a.chat, Mark(s.db, a.user, a.chat))
  }

  ghost predicate WindowOk(s: State, w: Window) {
    match w
    case Creating(a, b, since) =>
      && a != b && since <= s.db.nextChatId
      && forall chat :: chat in s.db.chats && DirectPair(a, b)(chat) ==> chat.id >= since
    case Advancing(a, written, heard) =>
      && heard <= |s.broadcasts| && a.chat < s.db.nextChatId
      && (RowIsThere(s.db, a) ==> Participates(s.db, a.user, a.chat) && IsMessageOf(s.db, a.chat, a.id))
      && (RowIsThere(s.db, a) ==> Mark(s.db, a.user, a.chat) < a.id || LastWritten(s, a, written))
    case Announcing(a, heard) => heard <= |s.broadcasts| && a in s.answered
  }

  ghost predicate Inv(s: State) {
    && RowsConsistent(s.db)
    && (forall r :: r in s.windows ==> WindowOk(s, s.windows[r]))
    && (forall a :: a in s.written ==> a in s.answered)
    && (forall a :: a in s.broadcasts ==> a in s.answered)
    && (forall a :: a in s.answered ==> a.chat < s.db.nextChatId)
  }

  /** The rows stay consistent in every interleaving, so every lookup by guid or participant stays single. */
  lemma RowsStay(s: State, e: Event)
    requires Inv(s) && Enabled(s, e)
    ensures RowsConsistent(Next(s, e).db)
  {
    match e
    case Insert(r, now) => CreateKeepsRows(s.db, s.windows[r].initiator, s.windows[r].recipient, now);
    case Update(r) =>
      assert WindowOk(s, s.windows[r]);
      if RowIsThere(s.db, s.windows[r].ack) {
        WrittenKeepsRows(s.db, s.windows[r].ack);
      }
    case Whole(t) =>
      if t.SendMessage? {
        SendKeepsConsistent(s.db, t.author, t.chat, t.content, t.createdAt, t.now);
      } else {
        DeleteKeepsConsistent(s.db, t.chat);
      }
    case _ =>
  }

  lemma IdsOnlyGrow(s: State, e: Event)
    requires Enabled(s, e)
    ensures s.db.nextChatId <= Next(s, e).db.nextChatId
    ensures s.broadcasts <= Next(s, e).broadcasts && s.written <= Next(s, e).written
    ensures forall a :: a in s.answered ==> a in Next(s, e).answered
  {
  }

  lemma SentPairs(db: Database, t: Transaction, p: Chat -> bool)
    requires t.SendMessage? && Expected(db, t) && forall chat :: p(Touch(t.chat, t.now)(chat)) == p(chat)
    ensures forall chat :: chat in Apply(db, t).chats && p(chat) ==>
      exists was :: was in db.chats && was.id == chat.id && p(was)
  {
    SendSucceeds(db, t.author, t.chat, t.content, t.createdAt, t.now);
    TouchKeepsLookups(db, t.chat, t.now);
  }

  /** A pair's chats after a step were its chats before, or are new. */
  lemma CreatingStays(s: State, e: Event, w: Window)
    requires Inv(s) && Enabled(s, e) && w.Creating? && WindowOk(s, w)
    ensures WindowOk(Next(s, e), w)
  {
    var pair := DirectPair(w.initiator, w.recipient);
    if e.Whole? && e.t.SendMessage? {
      SentPairs(s.db, e.t, pair);
    }
    assert forall chat :: chat in Next(s, e).db.chats && pair(chat) ==> chat.id >= w.since;
  }

  // ---- an open acknowledgement ----

  lemma StillLastWritten(s: State, s': State, a: Ack, since: nat)
    requires LastWritten(s, a, since) && s.written <= s'.written
    requires Mark(s'.db, a.user, a.chat) == Mark(s.db, a.user, a.chat)
    ensures LastWritten(s', a, since)
  {
    var i :| since <= i < |s.written| && s.written[i] == Ack(a.user, a.chat, Mark(s.db, a.user, a.chat));
    assert s'.written[i] == s.written[i];
  }

  lemma MarkStays(s: State, s': State, w: Window)
    requires w.Advancing? && s.written <= s'.written
    requires Mark(s.db, w.ack.user, w.ack.chat) < w.ack.id || LastWritten(s, w.ack, w.written)
    requires Mark(s'.db, w.ack.user, w.ack.chat) == Mark(s.db, w.ack.user, w.ack.chat)
    ensures Mark(s'.db, w.ack.user, w.ack.chat) < w.ack.id || LastWritten(s', w.ack, w.written)
  {
    if LastWritten(s, w.ack, w.written) {
      StillLastWritten(s, s', w.ack, w.written);
    }
  }

  lemma UpdateKeepsAdvancing(s: State, e: Event, w: Window)
    requires Inv(s) && Enabled(s, e) && e.Update? && w.Advancing? && w.written <= |s.written| && WindowOk(s, w)
    ensures WindowOk(Next(s, e), w)
  {
    var a, b, s' := w.ack, s.windows[e.request].ack, Next(s, e);
    assert WindowOk(s, s.windows[e.request]);
    if RowIsThere(s.db, b) {
      UpdateKeepsTalk(s.db, b, a);
      if RowIsThere(s.db, a) {
        WrittenElsewhere(s.db, b, a);
        if a.user == b.user && a.chat == b.chat {
          assert s'.written[|s.written|] == Ack(a.user, a.chat, Mark(s'.db, a.user, a.chat));
        } else {
          MarkStays(s, s', w);
        }
      }
    }
  }

  lemma AdvancingStays(s: State, e: Event, w: Window)
    requires Inv(s) && Enabled(s, e) && w.Advancing? && w.written <= |s.written| && WindowOk(s, w)
    ensures WindowOk(Next(s, e), w)
  {
    var a, s' := w.ack, Next(s, e);
    IdsOnlyGrow(s, e);
    match e
    case Whole(t) =>
      WholeKeepsStatuses(s.db, t, a);
      if RowIsThere(s'.db, a) {
        WholeKeepsTalk(s.db, t, a);
        MarkStays(s, s', w);
      }
    case Insert(r, now) =>
      InsertKeepsTalk(s.db, s.windows[r].initiator, s.windows[r].recipient, now, a);
      if RowIsThere(s'.db, a) {
        MarkStays(s, s', w);
      }
    case Update(r) => UpdateKeepsAdvancing(s, e, w);
    case _ =>
      if RowIsThere(s'.db, a) {
        MarkStays(s, s', w);
      }
  }

  // ---- the invariant ----

  lemma SelectedWindowOk(s: State, r: Request, a: Ack)
    requires Inv(s) && Enabled(s, Select(r, a)) && r in Next(s, Select(r, a)).windows
    ensures WindowOk(Next(s, Select(r, a)), Next(s, Select(r, a)).windows[r])
  {
    var chat :| chat in s.db.chats && chat.id == a.chat && a.user in chat.users;
    var m :| m in ActiveMessages(s.db, a.chat) && m.id == a.id;
    assert m in s.db.messages && ChatConsistent(s.db, chat);
    ReadIsOneMap(s.db, chat, a.user, a.id);
  }

  lemma OpenedWindowOk(s: State, e: Event, r: Request)
    requires Inv(s) && Enabled(s, e) && r in Next(s, e).windows
    requires r !in s.windows || Next(s, e).windows[r] != s.windows[r]
    ensures WindowOk(Next(s, e), Next(s, e).windows[r])
  {
    match e
    case Check(_, a, b) => NoPairFound(s.db, a, b);
    case Select(_, a) => SelectedWindowOk(s, r, a);
    case Update(_) => assert WindowOk(s, s.windows[r]);
  }

  /** Windows name positions that exist. */
  ghost predicate Dated(s: State) {
    forall r :: r in s.windows && s.windows[r].Advancing? ==> s.windows[r].written <= |s.written|
  }

  lemma AnswersAreKnown(s: State, e: Event)
    requires Inv(s) && Enabled(s, e)
    ensures var s' := Next(s, e);
            && (forall a :: a in s'.written ==> a in s'.answered)
            && (forall a :: a in s'.broadcasts ==> a in s'.answered)
            && (forall a :: a in s'.answered ==> a.chat < s'.db.nextChatId)
  {
    match e
    case Select(_, a) =>
      var chat :| chat in s.db.chats && chat.id == a.chat && a.user in chat.users;
      assert ChatConsistent(s.db, chat);
    case Update(r) => assert WindowOk(s, s.windows[r]);
    case Publish(r) => assert WindowOk(s, s.windows[r]);
    case _ => IdsOnlyGrow(s, e);
  }

  lemma WindowStays(s: State, e: Event, r: Request)
    requires Inv(s) && Dated(s) && Enabled(s, e) && r in Next(s, e).windows
    ensures WindowOk(Next(s, e), Next(s, e).windows[r])
  {
    if r in s.windows && Next(s, e).windows[r] == s.windows[r] {
      assert WindowOk(s, s.windows[r]);
      match s.windows[r]
      case Creating(_, _, _) => CreatingStays(s, e, s.windows[r]);
      case Advancing(_, _, _) => AdvancingStays(s, e, s.windows[r]);
      case Announcing(_, _) => IdsOnlyGrow(s, e);
    } else {
      OpenedWindowOk(s, e, r);
    }
  }

  lemma StepKeepsDated(s: State, e: Event)
    requires Dated(s) && Enabled(s, e)
    ensures Dated(Next(s, e))
  {
  }

  lemma StepKeepsInv(s: State, e: Event)
    requires Inv(s) && Dated(s) && Enabled(s, e)
    ensures Inv(Next(s, e)) && Dated(Next(s, e))
  {
    RowsStay(s, e);
    StepKeepsDated(s, e);
    forall r | r in Next(s, e).windows ensures WindowOk(Next(s, e), Next(s, e).windows[r]) {
      WindowStays(s, e, r);
    }
    AnswersAreKnown(s, e);
  }

  lemma {:induction false} EveryRunKeepsInv(users: set<UserId>, es: seq<Event>)
    ensures Inv(After(users, es)) && Dated(After(users, es))
  {
    if es != [] {
      var s := After(users, es[..|es| - 1]);
      EveryRunKeepsInv(users, es[..|es| - 1]);
      if Enabled(s, es[|es| - 1]) {
        StepKeepsInv(s, es[|es| - 1]);
      }
    }
  }

  /** However requests race, each chat has two distinct participants with one non-null watermark each, and every
      lookup of a chat by its guid, or of a read status by its participant, finds one row. */
  lemma {:induction false} LookupsStaySingle(users: set<UserId>, es: seq<Event>, chat: Chat, u: UserId)
    requires chat in After(users, es).db.chats && u in chat.users
    ensures var db := After(users, es).db;
            && ChatConsistent(db, chat) && ChatByGuid(db, chat.id) == Ok(Some(chat))
            && |Filter(db.statuses, StatusOf(u, chat.id))| == 1
  {
    EveryRunKeepsInv(users, es);
    var db := After(users, es).db;
    ChatLookupIsSingle(db, chat.id);
    StatusLookupIsSingle(db, chat, u);
  }

  // ---- creating a chat ----

  lemma WholeKeepsPairs(s: State, e: Event)
    requires Inv(s) && Enabled(s, e) && PairsAreUnique(s) && !e.Insert?
    ensures PairsAreUnique(Next(s, e))
  {
    match e
    case Whole(t) =>
      if t.SendMessage? {
        SendKeepsConsistent(s.db, t.author, t.chat, t.content, t.createdAt, t.now);
      } else {
        DeleteKeepsConsistent(s.db, t.chat);
      }
    case _ =>
  }

  lemma {:induction false} StepKeepsPairs(s: State, e: Event)
    requires Inv(s) && PairsAreUnique(s)
    ensures PairsAreUnique(Step(s, e)) <==> !PairTaken(s, e)
  {
    if Enabled(s, e) {
      if e.Insert? {
        assert WindowOk(s, s.windows[e.request]);
        CreateKeepsUnique(s.db, s.windows[e.request].initiator, s.windows[e.request].recipient, e.now);
      } else {
        WholeKeepsPairs(s, e);
      }
    }
  }

  /** In every state of the run. */
  ghost predicate PairsStayUnique(users: set<UserId>, es: seq<Event>) {
    && PairsAreUnique(After(users, es))
    && (es != [] ==> PairsStayUnique(users, es[..|es| - 1]))
  }

  /** At every event of the run. */
  ghost predicate NoPairTaken(users: set<UserId>, es: seq<Event>) {
    es != [] ==>
      NoPairTaken(users, es[..|es| - 1]) && !PairTaken(After(users, es[..|es| - 1]), es[|es| - 1])
  }

  /** A run keeps every pair to one active direct chat if and only if no insert finds that a chat for its pair was
      created since its own existence check. */
  lemma {:induction false} OneChatUnlessTaken(users: set<UserId>, es: seq<Event>)
    ensures PairsStayUnique(users, es) <==> NoPairTaken(users, es)
  {
    if es != [] {
      var past := es[..|es| - 1];
      OneChatUnlessTaken(users, past);
      EveryRunKeepsInv(users, past);
      if PairsStayUnique(users, past) {
        StepKeepsPairs(After(users, past), es[|es| - 1]);
      }
    }
  }

  // ---- acknowledging a message ----

  lemma HighestIsAbove(acks: seq<Ack>, a: Ack)
    requires a in acks
    ensures a.id <= HighestBy(acks, a.user, a.chat)
  {
    IdsByMembers(acks, a.user, a.chat, a.id);
    HighestOfSet(Map(Filter(acks, By(a.user, a.chat)), (x: Ack) => x.id));
  }

  lemma OneMoreAnswer(acks: seq<Ack>, a: Ack, u: UserId, c: ChatId)
    ensures HighestBy(acks + [a], u, c) ==
            if By(u, c)(a) then Max(HighestBy(acks, u, c), a.id) else HighestBy(acks, u, c)
  {
    HighestByLast(acks + [a], u, c);
    assert (acks + [a])[..|acks|] == acks;
  }

  /** At the update the watermark is past the id exactly when a higher one was written since the select. */
  lemma PassedMeansAbove(s: State, r: Request)
    requires Inv(s) && MarksAreHighest(s) && Enabled(s, Update(r)) && RowIsThere(s.db, s.windows[r].ack)
    ensures var a := s.windows[r].ack;
            MarkPassed(s, Update(r)) <==> Mark(s.db, a.user, a.chat) > a.id
  {
    var w := s.windows[r];
    var a := w.ack;
    assert WindowOk(s, w);
    var chat :| chat in s.db.chats && chat.id == a.chat && a.user in chat.users;
    assert Mark(s.db, a.user, a.chat) == HighestBy(s.answered, a.user, a.chat);
    if MarkPassed(s, Update(r)) {
      var i :| w.written <= i < |s.written| && By(a.user, a.chat)(s.written[i]) && s.written[i].id >= a.id + 1;
      assert s.written[i] in s.written;
      HighestIsAbove(s.answered, s.written[i]);
    }
    if Mark(s.db, a.user, a.chat) > a.id {
      var i :| w.written <= i < |s.written| && s.written[i] == Ack(a.user, a.chat, Mark(s.db, a.user, a.chat));
      assert By(a.user, a.chat)(s.written[i]);
    }
  }

  lemma {:induction false} UpdateKeepsMarks(s: State, r: Request)
    requires Inv(s) && MarksAreHighest(s) && Enabled(s, Update(r)) && RowIsThere(s.db, s.windows[r].ack)
    ensures MarksAreHighest(Next(s, Update(r))) <==> !MarkPassed(s, Update(r))
  {
    var a, s' := s.windows[r].ack, Next(s, Update(r));
    assert WindowOk(s, s.windows[r]);
    PassedMeansAbove(s, r);
    forall chat, u | chat in s'.db.chats && u in chat.users
      ensures Mark(s'.db, u, chat.id) == HighestBy(s'.answered, u, chat.id)
         <==> (By(u, chat.id)(a) ==> Mark(s.db, a.user, a.chat) <= a.id)
    {
      WrittenMark(s.db, a, chat, u);
      OneMoreAnswer(s.answered, a, u, chat.id);
    }
    var chat :| chat in s.db.chats && chat.id == a.chat && a.user in chat.users;
    assert chat in s'.db.chats;
  }

  lemma InsertKeepsMark(s: State, r: Request, now: Time, chat: Chat, u: UserId)
    requires Inv(s) && MarksAreHighest(s) && Enabled(s, Insert(r, now))
    requires chat in Next(s, Insert(r, now)).db.chats && u in chat.users
    ensures Mark(Next(s, Insert(r, now)).db, u, chat.id) == HighestBy(s.answered, u, chat.id)
  {
    var w := s.windows[r];
    assert WindowOk(s, w);
    if chat in s.db.chats {
      CreateKeepsOthers(s.db, w.initiator, w.recipient, now, chat);
    } else {
      NewChatIsUnread(s.db, w.initiator, w.recipient, now, u);
      FilterNone(s.answered, By(u, chat.id));
    }
  }

  lemma WholeKeepsMark(s: State, t: Transaction, chat: Chat, u: UserId)
    requires MarksAreHighest(s) && Enabled(s, Whole(t)) && chat in Apply(s.db, t).chats && u in chat.users
    ensures Mark(Apply(s.db, t), u, chat.id) == HighestBy(s.answered, u, chat.id)
  {
    if t.SendMessage? {
      SendSucceeds(s.db, t.author, t.chat, t.content, t.createdAt, t.now);
      TouchKeepsLookups(s.db, t.chat, t.now);
      var was :| was in s.db.chats && chat == Touch(t.chat, t.now)(was);
      assert Mark(Apply(s.db, t), u, chat.id) == Mark(s.db, u, was.id);
    } else {
      DeleteKeepsRows(s.db, t.chat, chat.id);
    }
  }

  /** An acknowledgement that is no advance raises nothing. */
  lemma SelectKeepsMarks(s: State, r: Request, a: Ack)
    requires Inv(s) && MarksAreHighest(s) && Enabled(s, Select(r, a))
    ensures MarksAreHighest(Next(s, Select(r, a)))
  {
    var s' := Next(s, Select(r, a));
    var read :| read in s.db.chats && read.id == a.chat && a.user in read.users;
    ReadIsOneMap(s.db, read, a.user, a.id);
    forall chat, u | chat in s'.db.chats && u in chat.users
      ensures Mark(s'.db, u, chat.id) == HighestBy(s'.answered, u, chat.id)
    {
      OneMoreAnswer(s.answered, a, u, chat.id);
    }
  }

  lemma {:induction false} StepKeepsMarks(s: State, e: Event)
    requires Inv(s) && MarksAreHighest(s)
    ensures MarksAreHighest(Step(s, e)) <==> !MarkPassed(s, e)
  {
    if Enabled(s, e) {
      match e
      case Update(r) =>
        if RowIsThere(s.db, s.windows[r].ack) {
          UpdateKeepsMarks(s, r);
        }
      case Select(r, a) => SelectKeepsMarks(s, r, a);
      case Check(_, _, _) =>
      case Publish(_) =>
      case _ =>
        forall chat, u | chat in Next(s, e).db.chats && u in chat.users
          ensures Mark(Next(s, e).db, u, chat.id) == HighestBy(s.answered, u, chat.id)
        {
          match e
          case Insert(r, now) => InsertKeepsMark(s, r, now, chat, u);
          case Whole(t) => WholeKeepsMark(s, t, chat, u);
        }
    }
  }

  // ---- broadcasting it ----

  ghost predicate AllBelow(acks: seq<Ack>, n: nat, a: Ack) {
    forall j :: 0 <= j < n && j < |acks| && By(a.user, a.chat)(acks[j]) ==> acks[j].id < a.id
  }

  /** What had been broadcast at the select of an open acknowledgement is below it. */
  ghost predicate HeardBelow(s: State) {
    forall r :: r in s.windows && !s.windows[r].Creating? ==>
      AllBelow(s.broadcasts, s.windows[r].heard, s.windows[r].ack)
  }

  lemma SelectHearsBelow(s: State, r: Request, a: Ack)
    requires Inv(s) && MarksAreHighest(s) && Enabled(s, Select(r, a)) && r in Next(s, Select(r, a)).windows
    ensures AllBelow(s.broadcasts, |s.broadcasts|, a)
  {
    var chat :| chat in s.db.chats && chat.id == a.chat && a.user in chat.users;
    ReadIsOneMap(s.db, chat, a.user, a.id);
    assert Mark(s.db, a.user, a.chat) == HighestBy(s.answered, a.user, a.chat);
    forall j | 0 <= j < |s.broadcasts| && By(a.user, a.chat)(s.broadcasts[j]) ensures s.broadcasts[j].id < a.id {
      assert s.broadcasts[j] in s.broadcasts;
      HighestIsAbove(s.answered, s.broadcasts[j]);
    }
  }

  /** A window that stays open has heard what it had heard. */
  lemma KeptWindowHears(s: State, e: Event, r: Request)
    requires Inv(s) && HeardBelow(s) && Enabled(s, e) && r in s.windows && !s.windows[r].Creating?
    requires r in Next(s, e).windows && !Next(s, e).windows[r].Creating?
    ensures AllBelow(Next(s, e).broadcasts, Next(s, e).windows[r].heard, Next(s, e).windows[r].ack)
  {
    assert AllBelow(s.broadcasts, s.windows[r].heard, s.windows[r].ack) && WindowOk(s, s.windows[r]);
    IdsOnlyGrow(s, e);
  }

  lemma StepKeepsHeard(s: State, e: Event)
    requires Inv(s) && MarksAreHighest(s) && HeardBelow(s)
    ensures HeardBelow(Step(s, e))
  {
    if Enabled(s, e) {
      var s' := Next(s, e);
      forall r | r in s'.windows && !s'.windows[r].Creating?
        ensures AllBelow(s'.broadcasts, s'.windows[r].heard, s'.windows[r].ack)
      {
        if r in s.windows && !s.windows[r].Creating? {
          KeptWindowHears(s, e, r);
        } else {
          SelectHearsBelow(s, r, e.ack);
        }
      }
    }
  }

  lemma AscendsWithLast(acks: seq<Ack>, a: Ack)
    requires Increasing(acks, BROADCAST_ID)
    ensures Increasing(acks + [a], BROADCAST_ID) <==> forall b :: b in acks ==> b.id < a.id
  {
    var more := acks + [a];
    if Increasing(more, BROADCAST_ID) {
      forall b | b in acks ensures b.id < a.id {
        var i :| 0 <= i < |acks| && acks[i] == b;
        assert BROADCAST_ID(more[i]) < BROADCAST_ID(more[|acks|]);
      }
    }
  }

  lemma AppendAscends(acks: seq<Ack>, a: Ack, u: UserId, c: ChatId)
    requires Increasing(Filter(acks, By(u, c)), BROADCAST_ID)
    ensures Increasing(Filter(acks + [a], By(u, c)), BROADCAST_ID)
       <==> (By(u, c)(a) ==> forall b :: b in acks && By(u, c)(b) ==> b.id < a.id)
  {
    var mine := Filter(acks, By(u, c));
    FilterAppend(acks, [a], By(u, c));
    FilterFew([a], By(u, c));
    if By(u, c)(a) {
      forall b | b in acks && By(u, c)(b) ensures b in mine {
        FilterKeeps(acks, By(u, c), b);
      }
      AscendsWithLast(mine, a);
    } else {
      assert mine + [] == mine;
    }
  }

  lemma LaterIsHigher(acks: seq<Ack>, n: nat, a: Ack)
    requires AllBelow(acks, n, a)
    ensures HigherSince(acks, n, a, a.id) <==> !(forall b :: b in acks && By(a.user, a.chat)(b) ==> b.id < a.id)
  {
    if !HigherSince(acks, n, a, a.id) {
      forall b | b in acks && By(a.user, a.chat)(b) ensures b.id < a.id {
        var i :| 0 <= i < |acks| && acks[i] == b;
      }
    }
  }

  lemma {:induction false} StepKeepsAscending(s: State, e: Event)
    requires Inv(s) && HeardBelow(s) && BroadcastsAscend(s)
    ensures BroadcastsAscend(Step(s, e)) <==> !BroadcastPassed(s, e)
  {
    if Enabled(s, e) && e.Publish? {
      var w := s.windows[e.request];
      assert AllBelow(s.broadcasts, w.heard, w.ack);
      forall u, c
        ensures Increasing(Filter(s.broadcasts + [w.ack], By(u, c)), BROADCAST_ID)
           <==> (By(u, c)(w.ack) ==> !HigherSince(s.broadcasts, w.heard, w.ack, w.ack.id))
      {
        AppendAscends(s.broadcasts, w.ack, u, c);
        if By(u, c)(w.ack) {
          LaterIsHigher(s.broadcasts, w.heard, w.ack);
        }
      }
      assert By(w.ack.user, w.ack.chat)(w.ack);
    }
  }

  // ---- whole runs ----

  /** Both promises about acknowledgements. */
  ghost predicate AcksInOrder(s: State) {
    MarksAreHighest(s) && BroadcastsAscend(s)
  }

  ghost predicate Passed(s: State, e: Event) {
    MarkPassed(s, e) || BroadcastPassed(s, e)
  }

  lemma StepKeepsOrder(s: State, e: Event)
    requires Inv(s) && HeardBelow(s) && AcksInOrder(s)
    ensures AcksInOrder(Step(s, e)) <==> !Passed(s, e)
  {
    StepKeepsMarks(s, e);
    StepKeepsAscending(s, e);
  }

  /** In every state of the run. */
  ghost predicate AcksStayInOrder(users: set<UserId>, es: seq<Event>) {
    && AcksInOrder(After(users, es))
    && (es != [] ==> AcksStayInOrder(users, es[..|es| - 1]))
  }

  /** At every event of the run. */
  ghost predicate NonePassed(users: set<UserId>, es: seq<Event>) {
    es != [] ==>
      NonePassed(users, es[..|es| - 1]) && !Passed(After(users, es[..|es| - 1]), es[|es| - 1])
  }

  /** A run keeps every watermark at the highest answered id and the broadcasts of every user and chat in increasing
      order, all the way, if and only if no update comes after a higher id was written, and no broadcast after one as
      high was sent, since the select of its own request. */
  lemma {:induction false} AcksInOrderUnlessPassed(users: set<UserId>, es: seq<Event>)
    ensures AcksStayInOrder(users, es) <==> NonePassed(users, es)
    ensures AcksStayInOrder(users, es) ==> HeardBelow(After(users, es))
  {
    if es == [] {
      assert AcksInOrder(Start(users));
    } else {
      var past := es[..|es| - 1];
      AcksInOrderUnlessPassed(users, past);
      EveryRunKeepsInv(users, past);
      if AcksStayInOrder(users, past) {
        StepKeepsOrder(After(users, past), es[|es| - 1]);
        StepKeepsHeard(After(users, past), es[|es| - 1]);
      }
    }
  }

  /** In every state of the run. */
  ghost predicate MarksStayHighest(users: set<UserId>, es: seq<Event>) {
    && MarksAreHighest(After(users, es))
    && (es != [] ==> MarksStayHighest(users, es[..|es| - 1]))
  }

  /** At every event of the run. */
  ghost predicate NoMarkPassed(users: set<UserId>, es: seq<Event>) {
    es != [] ==>
      NoMarkPassed(users, es[..|es| - 1]) && !MarkPassed(After(users, es[..|es| - 1]), es[|es| - 1])
  }

  /** A run keeps every watermark at the highest answered id throughout if and only if no update comes after a higher
      id was written since its own select. */
  lemma {:induction false} MarksHighestUnlessPassed(users: set<UserId>, es: seq<Event>)
    ensures MarksStayHighest(users, es) <==> NoMarkPassed(users, es)
    ensures MarksStayHighest(users, es) ==> HeardBelow(After(users, es))
  {
    if es != [] {
      var past := es[..|es| - 1];
      MarksHighestUnlessPassed(users, past);
      EveryRunKeepsInv(users, past);
      if MarksStayHighest(users, past) {
        StepKeepsMarks(After(users, past), es[|es| - 1]);
        StepKeepsHeard(After(users, past), es[|es| - 1]);
      }
    }
  }

  ghost predicate BroadcastsStayAscending(users: set<UserId>, es: seq<Event>) {
    && BroadcastsAscend(After(users, es))
    && (es != [] ==> BroadcastsStayAscending(users, es[..|es| - 1]))
  }

  ghost predicate NoBroadcastPassed(users: set<UserId>, es: seq<Event>) {
    es != [] ==>
      NoBroadcastPassed(users, es[..|es| - 1]) && !BroadcastPassed(After(users, es[..|es| - 1]), es[|es| - 1])
  }

  /** In a run in which no update is passed, the broadcasts ascend throughout if and only if no broadcast comes after
      one as high was sent since its own select. */
  lemma {:induction false} BroadcastsAscendUnlessPassed(users: set<UserId>, es: seq<Event>)
    requires NoMarkPassed(users, es)
    ensures BroadcastsStayAscending(users, es) <==> NoBroadcastPassed(users, es)
  {
    if es == [] {
      assert BroadcastsAscend(Start(users));
    } else {
      var past := es[..|es| - 1];
      BroadcastsAscendUnlessPassed(users, past);
      MarksHighestUnlessPassed(users, past);
      EveryRunKeepsInv(users, past);
      if BroadcastsStayAscending(users, past) {
        StepKeepsAscending(After(users, past), es[|es| - 1]);
      }
    }
  }

  // ---- requests that nobody interrupts are the transactions of the store ----

  lemma {:induction false} UninterruptedCreation(s: State, r: Request, a: UserId, b: UserId, now: Time)
    requires Inv(s) && Enabled(s, Check(r, a, b))
    ensures Step(Step(s, Check(r, a, b)), Insert(r, now)) == s.(db := Apply(s.db, CreateChat(a, b, now)))
  {
    assert s.windows[r := Creating(a, b, s.db.nextChatId)] - {r} == s.windows;
  }

  lemma {:induction false} UninterruptedAcknowledgement(s: State, r: Request, a: Ack)
    requires Inv(s) && Enabled(s, Select(r, a))
    ensures var t := ReadMessage(a.user, a.chat, a.id);
            var end := Step(Step(Step(s, Select(r, a)), Update(r)), Publish(r));
            && end.db == Apply(s.db, t) && end.windows == s.windows && end.answered == s.answered + [a]
            && end.broadcasts == s.broadcasts + Announced(s.db, t)
  {
    var chat :| chat in s.db.chats && chat.id == a.chat && a.user in chat.users;
    ReadIsOneMap(s.db, chat, a.user, a.id);
    ParticipantHasRow(s.db, a);
    var w := Advancing(a, |s.written|, |s.broadcasts|);
    assert s.windows[r := w][r := Announcing(a, w.heard)] - {r} == s.windows;
  }
}
