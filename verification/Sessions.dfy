/** The session loop of src/websocket/router.py. */
module Sessions {
  import opened Collections
  import opened Models
  import Store
  import opened CacheProtocol
  import opened Managers
  import opened Effects
  import opened Handlers
  import ChatServices
  import DirectChats
  import F = Fanout
  import M = Membership
  import Presence

  /** `ws` has been added to the sockets of exactly the given chats. */
  ghost predicate With(now: Manager, was: Manager, chats: set<ChatGuid>, ws: Socket) {
    forall c :: SocketsOf(now, c) == SocketsOf(was, c) + if c in chats then {ws} else {}
  }

  /** `ws` has been taken from the sockets of exactly the given chats. */
  ghost predicate Less(now: Manager, was: Manager, chats: set<ChatGuid>, ws: Socket) {
    forall c :: SocketsOf(now, c) == SocketsOf(was, c) - if c in chats then {ws} else {}
  }

  lemma WithGrows(was: Manager, connected: Manager, joined: Manager, now: Manager, first: set<ChatGuid>,
                  chats: set<ChatGuid>, ws: Socket)
    requires connected.chats == was.chats && first <= chats
    requires With(joined, connected, first, ws) && With(now, joined, chats, ws)
    ensures With(now, was, chats, ws)
  {
    forall c ensures SocketsOf(now, c) == SocketsOf(was, c) + if c in chats then {ws} else {} {
      assert SocketsOf(joined, c) == SocketsOf(connected, c) + if c in first then {ws} else {};
    }
  }

  ghost predicate SameSockets(a: Manager, b: Manager) {
    forall c :: SocketsOf(a, c) == SocketsOf(b, c)
  }

  lemma BackToStart(was: Manager, full: Manager, left: Manager, chats: set<ChatGuid>, ws: Socket)
    requires With(full, was, chats, ws) && Less(left, full, chats, ws)
    requires forall c :: ws !in SocketsOf(was, c)
    ensures SameSockets(left, was)
  {
    forall c ensures SocketsOf(left, c) == SocketsOf(was, c) {
      assert SocketsOf(full, c) == SocketsOf(was, c) + if c in chats then {ws} else {};
      assert ws !in SocketsOf(was, c);
    }
  }

  lemma LessOneMore(was: Manager, mid: Manager, now: Manager, chats: set<ChatGuid>, chat: ChatGuid, ws: Socket)
    requires Less(mid, was, chats, ws) && Less(now, mid, {chat}, ws)
    ensures Less(now, was, chats + {chat}, ws)
  {
    forall c ensures SocketsOf(now, c) == SocketsOf(was, c) - if c in chats + {chat} then {ws} else {} {
      assert SocketsOf(mid, c) == SocketsOf(was, c) - if c in chats then {ws} else {};
      assert SocketsOf(now, c) == SocketsOf(mid, c) - if c in {chat} then {ws} else {};
    }
  }

  lemma StillMember(was: Manager, mid: Manager, left: set<ChatGuid>, chat: ChatGuid, ws: Socket)
    requires Less(mid, was, left, ws) && chat !in left && ws in SocketsOf(was, chat)
    ensures ws in SocketsOf(mid, chat)
  {
    assert SocketsOf(mid, chat) == SocketsOf(was, chat) - if chat in left then {ws} else {};
  }

  /** The socket is registered and its user marked online: whoever asks within a minute is told so. */
  method ConnectSocket(session: Session, start: Time)
    requires session.Valid()
    modifies session.manager`userGuidToWebsocket, session.presence
    ensures session.Valid()
    ensures session.manager.State() == AddUserSocket(old(session.manager.State()), session.user, session.websocket)
    ensures session.presence.log == old(session.presence.log) + [Presence.Online(session.user, start)]
    ensures forall now :: start <= now < start + 60 ==>
      Presence.RecentlyOnline(session.presence.log, session.user, now)
  {
    ghost var was := session.manager.State();
    session.manager.AddUserSocketConnection(session.user, session.websocket);
    F.UserMapsApart(was, session.manager.State());
    assert forall c :: SocketsOf(session.manager.State(), c) == SocketsOf(was, c);
    session.presence.MarkUserAsOnline(session.user, start);
    forall now | start <= now < start + 60
      ensures Presence.RecentlyOnline(session.presence.log, session.user, now)
    {
      Presence.JustOnline(session.presence.log, session.user, start, now);
    }
  }

  method SubscribeOne(session: Session, c: ChatGuid)
    requires session.manager.Valid() && F.ManagerOk(session.manager.State())
    modifies session.manager`chats, session.manager`readers, session.manager.pubsubClient
    ensures session.manager.Valid() && F.ManagerOk(session.manager.State())
    ensures With(session.manager.State(), old(session.manager.State()), {c}, session.websocket)
    ensures session.manager.userGuidToWebsocket == old(session.manager.userGuidToWebsocket)
  {
    F.JoinKeepsManagerOk(session.manager.State(), c, session.websocket);
    session.manager.AddUserToChat(c, session.websocket);
  }

  lemma WithOneMore(was: Manager, mid: Manager, now: Manager, chats: set<ChatGuid>, chat: ChatGuid, ws: Socket)
    requires With(mid, was, chats, ws) && With(now, mid, {chat}, ws)
    ensures With(now, was, chats + {chat}, ws)
  {
    forall c ensures SocketsOf(now, c) == SocketsOf(was, c) + if c in chats + {chat} then {ws} else {} {
      assert SocketsOf(mid, c) == SocketsOf(was, c) + if c in chats then {ws} else {};
      assert SocketsOf(now, c) == SocketsOf(mid, c) + if c in {chat} then {ws} else {};
    }
  }

  /** add_user_to_chat for each chat of a set. */
  method SubscribeAll(session: Session, chats: set<ChatGuid>)
    requires session.manager.Valid() && F.ManagerOk(session.manager.State())
    modifies session.manager`chats, session.manager`readers, session.manager.pubsubClient
    ensures session.manager.Valid() && F.ManagerOk(session.manager.State())
    ensures With(session.manager.State(), old(session.manager.State()), chats, session.websocket)
    ensures session.manager.userGuidToWebsocket == old(session.manager.userGuidToWebsocket)
  {
    ghost var was := session.manager.State();
    ghost var done: set<ChatGuid> := {};
    var left := chats;
    while left != {}
      invariant done + left == chats
      invariant session.manager.Valid() && F.ManagerOk(session.manager.State())
      invariant With(session.manager.State(), was, done, session.websocket)
      invariant session.manager.userGuidToWebsocket == old(session.manager.userGuidToWebsocket)
      decreases left
    {
      var c :| c in left;
      ghost var mid := session.manager.State();
      SubscribeOne(session, c);
      WithOneMore(was, mid, session.manager.State(), done, c, session.websocket);
      left, done := left - {c}, done + {c};
    }
  }

  /** Subscribe to each of the user's active direct chats. */
  method JoinAll(session: Session)
    requires session.Valid() && session.chats == map[]
    modifies session, session.manager`chats, session.manager`readers, session.manager.pubsubClient
    ensures session.Valid()
    ensures With(session.manager.State(), old(session.manager.State()), session.chats.Keys, session.websocket)
    ensures session.manager.userGuidToWebsocket == old(session.manager.userGuidToWebsocket)
    ensures session.chats == DirectChats.ActiveChats(session.db.Tables(), session.user)
    ensures Echoed(session.chats)
  {
    var found := ChatServices.GetUserActiveDirectChats(session.db.Tables(), session.user);
    if found.Some? {
      SubscribeAll(session, found.value.Keys);
      session.chats := found.value;
    }
  }

  /** Joining adds the socket to the one chat, which then is in the local map. */
  lemma JoinIsWith(was: Manager, before: set<ChatGuid>, chat: ChatGuid, ws: Socket)
    requires forall c :: c in before <==> ws in SocketsOf(was, c)
    ensures Join(was, chat, ws).userSockets == was.userSockets
    ensures With(Join(was, chat, ws), was, before + {chat}, ws)
    ensures With(was, was, before, ws)
  {
  }

  lemma JoinedIfAsked(was: Manager, now: Manager, before: map<ChatGuid, ChatId>, chats: map<ChatGuid, ChatId>,
                      joins: bool, chat: ChatGuid, ws: Socket)
    requires forall c :: c in before <==> ws in SocketsOf(was, c)
    requires if joins then chats == before[chat := chat] && now == Join(was, chat, ws)
             else chats == before && now == was
    ensures now.userSockets == was.userSockets && With(now, was, chats.Keys, ws)
    ensures forall c :: c in before ==> c in chats
  {
    JoinIsWith(was, before.Keys, chat, ws);
    assert joins ==> chats.Keys == before.Keys + {chat};
  }

  method OnNewMessage(session: Session, chat: ChatGuid, content: string, createdAt: Time, now: Time)
    returns (out: Outcome)
    requires session.Valid()
    modifies session, session.manager`chats, session.manager`readers, session.manager.pubsubClient
    modifies session.db, session.cache, session.presence, session.broker
    ensures session.Valid()
    ensures session.manager.userGuidToWebsocket == old(session.manager.userGuidToWebsocket)
    ensures forall c :: c in old(session.chats) ==> c in session.chats
    ensures With(session.manager.State(), old(session.manager.State()), session.chats.Keys, session.websocket)
    ensures session.chats == MapAfter(old(session.db.Tables()), old(session.chats),
                                      NewMessageFrame(chat, content, createdAt, now))
    ensures Echoed(old(session.chats)) ==>
      var frame := NewMessageFrame(chat, content, createdAt, now);
      Echoed(session.chats) &&
      IsDone(old(session.World()), session.World(), session.user, old(session.chats), frame, out.Raised?)
  {
    ghost var was, before := session.manager.State(), session.chats;
    ghost var joins := Joins(session.db.Tables(), session.chats, chat);
    out := session.NewMessageHandler(chat, content, createdAt, now);
    JoinedIfAsked(was, session.manager.State(), before, session.chats, joins, chat, session.websocket);
  }

  method OnMessageRead(session: Session, chat: ChatGuid, message: MessageId, now: Time) returns (out: Outcome)
    requires session.Valid()
    modifies session.db, session.cache, session.presence, session.broker
    ensures session.Valid()
    ensures With(session.manager.State(), session.manager.State(), session.chats.Keys, session.websocket)
    ensures Echoed(session.chats) ==>
      var frame := MessageReadFrame(chat, message, now);
      IsDone(old(session.World()), session.World(), session.user, session.chats, frame, out.Raised?)
  {
    JoinIsWith(session.manager.State(), session.chats.Keys, chat, session.websocket);
    out := session.MessageReadHandler(chat, message, now);
  }

  method OnAddUser(session: Session, chat: ChatGuid, id: ChatId, now: Time)
    requires session.Valid()
    modifies session, session.manager`chats, session.manager`readers, session.manager.pubsubClient
    modifies session.presence, session.broker
    ensures session.Valid() && session.chats == old(session.chats)[chat := id]
    ensures session.manager.userGuidToWebsocket == old(session.manager.userGuidToWebsocket)
    ensures With(session.manager.State(), old(session.manager.State()), session.chats.Keys, session.websocket)
    ensures RunsAs(old(session.World()), session.World(), [])
    ensures Marked(old(session.World()), session.World(), [(chat, Presence.Online(session.user, now))])
    ensures IsDone(old(session.World()), session.World(), session.user, old(session.chats),
                   AddUserToChatFrame(chat, id, now), false)
  {
    ghost var world, before := session.World(), session.chats;
    JoinIsWith(session.manager.State(), session.chats.Keys, chat, session.websocket);
    session.AddUserToChatHandler(chat, id, now);
    AddingIsDone(world, session.World(), session.user, before, chat, id, now);
    assert session.chats.Keys == old(session.chats).Keys + {chat};
  }

  /** One round of the dispatch loop. */
  method Dispatch(session: Session, frame: Frame) returns (out: Outcome)
    requires session.Valid()
    modifies session, session.manager`chats, session.manager`readers, session.manager.pubsubClient
    modifies session.db, session.cache, session.presence, session.broker
    ensures session.Valid()
    ensures session.manager.userGuidToWebsocket == old(session.manager.userGuidToWebsocket)
    ensures forall c :: c in old(session.chats) ==> c in session.chats
    ensures With(session.manager.State(), old(session.manager.State()), session.chats.Keys, session.websocket)
    ensures session.chats == MapAfter(old(session.db.Tables()), old(session.chats), frame)
    ensures Echoed(old(session.chats)) && Echoes(frame) ==>
      && Echoed(session.chats)
      && IsDone(old(session.World()), session.World(), session.user, old(session.chats), frame, out.Raised?)
    ensures frame.UnknownFrame? ==> out == Handled([WrongFormat], {}) && session.World() == old(session.World())
  {
    ghost var was := session.manager.State();
    match frame
    case NewMessageFrame(chat, content, createdAt, now) =>
      out := OnNewMessage(session, chat, content, createdAt, now);
    case MessageReadFrame(chat, message, now) =>
      out := OnMessageRead(session, chat, message, now);
    case AddUserToChatFrame(chat, id, now) =>
      OnAddUser(session, chat, id, now);
      out := Handled([], {});
    case UnknownFrame =>
      JoinIsWith(was, session.chats.Keys, 0, session.websocket);
      UnknownIsDone(session.World(), session.user, session.chats);
      out := Handled([WrongFormat], {});
  }

  ghost predicate AllEcho(incoming: seq<Frame>) {
    forall i :: 0 <= i < |incoming| ==> Echoes(incoming[i])
  }

  /** What has happened since `was` is what the frames asked for. */
  ghost predicate DoneAsAsked(was: World, now: World, user: UserId, before: map<ChatGuid, ChatId>,
                              chats: map<ChatGuid, ChatId>, frames: seq<Frame>)
  {
    var asked := Asked(was.tables, user, before, frames);
    chats == asked.1 && RunsAs(was, now, asked.0) && Marked(was, now, MarksAsked(was.tables, user, before, frames))
  }

  lemma AskedOneMore(tables: Database, user: UserId, chats: map<ChatGuid, ChatId>, frames: seq<Frame>, i: nat)
    requires i < |frames|
    ensures var (ts, now) := Asked(tables, user, chats, frames[..i]);
            var mid := Store.Run(tables, ts);
            Asked(tables, user, chats, frames[..i + 1]) ==
              (ts + Asks(mid, user, now, frames[i]), MapAfter(mid, now, frames[i]))
    ensures var (ts, now) := Asked(tables, user, chats, frames[..i]);
            MarksAsked(tables, user, chats, frames[..i + 1]) ==
              MarksAsked(tables, user, chats, frames[..i]) + MarksOf(Store.Run(tables, ts), user, now, frames[i])
  {
    assert frames[..i + 1][..i] == frames[..i];
  }

  /** The handler of the i-th frame raises, where it stands. */
  ghost predicate RaisesAt(tables: Database, user: UserId, chats: map<ChatGuid, ChatId>, frames: seq<Frame>, i: nat)
    requires i < |frames|
  {
    var (ts, now) := Asked(tables, user, chats, frames[..i]);
    Raises(Store.Run(tables, ts), user, now, frames[i])
  }

  ghost predicate NoneRaises(tables: Database, user: UserId, chats: map<ChatGuid, ChatId>, frames: seq<Frame>, n: nat)
    requires n <= |frames|
  {
    forall i :: 0 <= i < n ==> !RaisesAt(tables, user, chats, frames, i)
  }

  /** The loop goes on to the disconnect unless a frame raises, which then is the last one handled. */
  ghost predicate EndsAt(tables: Database, user: UserId, chats: map<ChatGuid, ChatId>, frames: seq<Frame>,
                         handled: nat, disconnected: bool)
    requires handled <= |frames|
  {
    if disconnected then handled == |frames| && NoneRaises(tables, user, chats, frames, handled)
    else
      && handled > 0 && NoneRaises(tables, user, chats, frames, handled - 1)
      && RaisesAt(tables, user, chats, frames, handled - 1)
  }

  lemma DoneOneMore(was: World, mid: World, now: World, user: UserId, before: map<ChatGuid, ChatId>,
                    chats: map<ChatGuid, ChatId>, frames: seq<Frame>, i: nat, raised: bool)
    requires i < |frames| && DoneAsAsked(was, mid, user, before, chats, frames[..i])
    requires NoneRaises(was.tables, user, before, frames, i)
    requires IsDone(mid, now, user, chats, frames[i], raised)
    ensures DoneAsAsked(was, now, user, before, MapAfter(mid.tables, chats, frames[i]), frames[..i + 1])
    ensures if raised then EndsAt(was.tables, user, before, frames, i + 1, false)
            else NoneRaises(was.tables, user, before, frames, i + 1)
  {
    assert raised <==> RaisesAt(was.tables, user, before, frames, i);
    AskedOneMore(was.tables, user, before, frames, i);
    RunsAsBoth(was, mid, now, Asked(was.tables, user, before, frames[..i]).0,
               Asks(mid.tables, user, chats, frames[i]));
    MarkedTwice(was, mid, now, MarksAsked(was.tables, user, before, frames[..i]),
                MarksOf(mid.tables, user, chats, frames[i]));
  }

  lemma {:induction false} AskedPrefix(tables: Database, user: UserId, chats: map<ChatGuid, ChatId>, frames: seq<Frame>,
                                       i: nat)
    requires i <= |frames|
    ensures Asked(tables, user, chats, frames[..i]).0 <= Asked(tables, user, chats, frames).0
    decreases |frames| - i
  {
    if i == |frames| {
      assert frames[..i] == frames;
    } else {
      var (ts, now) := Asked(tables, user, chats, frames[..i]);
      AskedOneMore(tables, user, chats, frames, i);
      assert Asked(tables, user, chats, frames[..i + 1]).0 == ts + Asks(Store.Run(tables, ts), user, now, frames[i]);
      AskedPrefix(tables, user, chats, frames, i + 1);
    }
  }

  lemma ExpectedPrefix(db: Database, ts: seq<Store.Transaction>, more: seq<Store.Transaction>)
    requires Store.ExpectedRun(db, ts) && more <= ts
    ensures Store.ExpectedRun(db, more)
  {
    forall i | 0 <= i < |more| ensures Store.Expected(Store.Run(db, more[..i]), more[i]) {
      assert ts[..i] == more[..i] && ts[i] == more[i];
    }
  }

  lemma AsksAreExpected(db: Database, asks: seq<Store.Transaction>)
    requires Store.ExpectedRun(db, asks) && |asks| <= 1
    ensures forall t :: t in asks ==> Store.Expected(db, t)
  {
    if asks != [] {
      assert asks[..0] == [] && Store.Expected(Store.Run(db, asks[..0]), asks[0]);
    }
  }

  lemma ExpectedUpTo(tables: Database, user: UserId, chats: map<ChatGuid, ChatId>, frames: seq<Frame>, i: nat)
    requires Consistent(tables) && Store.ExpectedRun(tables, Asked(tables, user, chats, frames).0) && i < |frames|
    ensures var (ts, now) := Asked(tables, user, chats, frames[..i]);
            var mid := Store.Run(tables, ts);
            Consistent(mid) && Store.ExpectedRun(mid, Asks(mid, user, now, frames[i]))
  {
    var (ts, now) := Asked(tables, user, chats, frames[..i]);
    var asks := Asks(Store.Run(tables, ts), user, now, frames[i]);
    AskedOneMore(tables, user, chats, frames, i);
    AskedPrefix(tables, user, chats, frames, i + 1);
    ExpectedPrefix(tables, Asked(tables, user, chats, frames).0, ts + asks);
    ExpectedParts(tables, ts, asks);
    Store.RunKeepsConsistent(tables, ts);
  }

  /** Frames that ask for nothing but what is expected never raise. */
  lemma {:induction false} ExpectedFramesPass(tables: Database, user: UserId, chats: map<ChatGuid, ChatId>,
                                              frames: seq<Frame>, i: nat)
    requires Consistent(tables) && Store.ExpectedRun(tables, Asked(tables, user, chats, frames).0) && i < |frames|
    ensures !RaisesAt(tables, user, chats, frames, i)
  {
    var (ts, now) := Asked(tables, user, chats, frames[..i]);
    var mid := Store.Run(tables, ts);
    ExpectedUpTo(tables, user, chats, frames, i);
    AsksAreExpected(mid, Asks(mid, user, now, frames[i]));
    ExpectedNeverRaises(mid, user, now, frames[i]);
  }

  /** So a session of such frames goes on to its disconnect. */
  lemma {:induction false} ExpectedSessionEnds(tables: Database, user: UserId, chats: map<ChatGuid, ChatId>,
                                               frames: seq<Frame>, handled: nat, disconnected: bool)
    requires Consistent(tables) && Store.ExpectedRun(tables, Asked(tables, user, chats, frames).0)
    requires handled <= |frames| && EndsAt(tables, user, chats, frames, handled, disconnected)
    ensures disconnected
  {
    if !disconnected {
      ExpectedFramesPass(tables, user, chats, frames, handled - 1);
    }
  }

  /** The first frames have been handled, none of them raised, and what has happened is what they asked for. */
  ghost predicate Handles(was: World, now: World, user: UserId, before: map<ChatGuid, ChatId>,
                          chats: map<ChatGuid, ChatId>, frames: seq<Frame>, n: nat)
  {
    && n <= |frames| && Echoed(chats)
    && DoneAsAsked(was, now, user, before, chats, frames[..n]) && NoneRaises(was.tables, user, before, frames, n)
  }

  /** ... after which the loop ends, by an exception in the last of them or by the disconnect. */
  ghost predicate Ends(was: World, now: World, user: UserId, before: map<ChatGuid, ChatId>,
                       chats: map<ChatGuid, ChatId>, frames: seq<Frame>, n: nat, disconnected: bool)
  {
    && n <= |frames|
    && DoneAsAsked(was, now, user, before, chats, frames[..n])
    && EndsAt(was.tables, user, before, frames, n, disconnected)
  }

  lemma HandlesNothing(was: World, user: UserId, chats: map<ChatGuid, ChatId>, frames: seq<Frame>)
    requires Echoed(chats)
    ensures Handles(was, was, user, chats, chats, frames, 0)
  {
    RunsAsNothing(was, was);
  }

  lemma HandlesOneMore(was: World, mid: World, now: World, user: UserId, before: map<ChatGuid, ChatId>,
                       local: map<ChatGuid, ChatId>, chats: map<ChatGuid, ChatId>, frames: seq<Frame>, i: nat,
                       raised: bool)
    requires i < |frames| && Handles(was, mid, user, before, local, frames, i) && Echoed(chats)
    requires chats == MapAfter(mid.tables, local, frames[i]) && IsDone(mid, now, user, local, frames[i], raised)
    ensures if raised then Ends(was, now, user, before, chats, frames, i + 1, false)
            else Handles(was, now, user, before, chats, frames, i + 1)
  {
    DoneOneMore(was, mid, now, user, before, local, frames, i, raised);
  }

  lemma HandlesAll(was: World, now: World, user: UserId, before: map<ChatGuid, ChatId>, chats: map<ChatGuid, ChatId>,
                   frames: seq<Frame>)
    requires Handles(was, now, user, before, chats, frames, |frames|)
    ensures Ends(was, now, user, before, chats, frames, |frames|, true)
  {
  }

  /** One turn of the dispatch loop. */
  method ServeOne(session: Session, incoming: seq<Frame>, i: nat, ghost start: Manager, ghost was: World,
                  ghost before: map<ChatGuid, ChatId>)
    returns (out: Outcome)
    requires session.Valid() && i < |incoming|
    requires With(session.manager.State(), start, session.chats.Keys, session.websocket)
    requires AllEcho(incoming) ==>
      Echoed(before) ==> Handles(was, session.World(), session.user, before, session.chats, incoming, i)
    modifies session, session.manager`chats, session.manager`readers, session.manager.pubsubClient
    modifies session.db, session.cache, session.presence, session.broker
    ensures session.Valid()
    ensures session.manager.userGuidToWebsocket == old(session.manager.userGuidToWebsocket)
    ensures forall c :: c in old(session.chats) ==> c in session.chats
    ensures With(session.manager.State(), start, session.chats.Keys, session.websocket)
    ensures AllEcho(incoming) ==> Echoed(before) ==>
      if out.Raised? then Ends(was, session.World(), session.user, before, session.chats, incoming, i + 1, false)
      else Handles(was, session.World(), session.user, before, session.chats, incoming, i + 1)
  {
    ghost var mid, local, manager := session.World(), session.chats, session.manager.State();
    out := Dispatch(session, incoming[i]);
    WithGrows(start, start, manager, session.manager.State(), local.Keys, session.chats.Keys, session.websocket);
    if AllEcho(incoming) && Echoed(before) {
      HandlesOneMore(was, mid, session.World(), session.user, before, local, session.chats, incoming, i, out.Raised?);
    }
  }

  /** The dispatch loop; it ends by the disconnect, or early by an exception, after handling some of the frames. */
  method Serve(session: Session, incoming: seq<Frame>) returns (disconnected: bool, ghost handled: nat)
    requires session.Valid()
    modifies session, session.manager`chats, session.manager`readers, session.manager.pubsubClient
    modifies session.db, session.cache, session.presence, session.broker
    ensures session.Valid()
    ensures session.manager.userGuidToWebsocket == old(session.manager.userGuidToWebsocket)
    ensures forall c :: c in old(session.chats) ==> c in session.chats
    ensures With(session.manager.State(), old(session.manager.State()), session.chats.Keys, session.websocket)
    ensures handled <= |incoming| && (disconnected ==> handled == |incoming|)
    ensures Echoed(old(session.chats)) && AllEcho(incoming) ==>
      Ends(old(session.World()), session.World(), session.user, old(session.chats), session.chats, incoming, handled,
           disconnected)
  {
    ghost var was, before, start := session.World(), session.chats, session.manager.State();
    handled := 0;
    if Echoed(before) {
      HandlesNothing(was, session.user, before, incoming);
    }
    for i := 0 to |incoming|
      invariant handled == i
      invariant session.Valid()
      invariant session.manager.userGuidToWebsocket == old(session.manager.userGuidToWebsocket)
      invariant forall c :: c in old(session.chats) ==> c in session.chats
      invariant With(session.manager.State(), start, session.chats.Keys, session.websocket)
      invariant AllEcho(incoming) ==> Echoed(before) ==>
        Handles(was, session.World(), session.user, before, session.chats, incoming, i)
    {
      var out := ServeOne(session, incoming, i, start, was, before);
      handled := i + 1;
      if out.Raised? {
        return false, handled;
      }
    }
    if AllEcho(incoming) && Echoed(before) {
      HandlesAll(was, session.World(), session.user, before, session.chats, incoming);
    }
    disconnected := true;
  }

  /** remove_user_from_chat and mark_user_as_offline for one chat; the socket is never found absent. */
  method LeaveOne(session: Session, c: ChatGuid, end: Time)
    requires session.manager.Valid() && F.ManagerOk(session.manager.State()) && session.presence.Valid()
    requires session.websocket in SocketsOf(session.manager.State(), c)
    modifies session.manager`chats, session.manager.pubsubClient, session.presence, session.broker
    ensures session.manager.Valid() && F.ManagerOk(session.manager.State()) && session.presence.Valid()
    ensures session.manager.userGuidToWebsocket == old(session.manager.userGuidToWebsocket)
    ensures Less(session.manager.State(), old(session.manager.State()), {c}, session.websocket)
    ensures session.user !in session.presence.keys
    ensures session.presence.log == old(session.presence.log) + [Presence.Offline(session.user, end)]
    ensures session.broker.published == old(session.broker.published) + [(c, StatusNote(session.user, false))]
  {
    F.LeaveKeepsManagerOk(session.manager.State(), c, session.websocket);
    var r := session.manager.RemoveUserFromChat(c, session.websocket);
    session.presence.MarkUserAsOffline(session.user, end);
    session.Broadcast(c, StatusNote(session.user, false));
  }

  /** The user is marked offline once for each chat that is left, and announced as offline in it. */
  function Leaving(user: UserId, order: seq<ChatGuid>, end: Time): seq<Announcement> {
    Map(order, (c: ChatGuid) => (c, Presence.Offline(user, end)))
  }

  lemma NothingLeft(was: World, user: UserId, end: Time)
    ensures WithMarks(was, Leaving(user, [], end)) == was
  {
  }

  lemma AfterOneMore(was: World, user: UserId, order: seq<ChatGuid>, i: nat, end: Time)
    requires i < |order|
    ensures var mid := WithMarks(was, Leaving(user, order[..i], end));
            WithMarks(was, Leaving(user, order[..i + 1], end)) ==
              mid.(published := mid.published + [(order[i], StatusNote(user, false))],
                   log := mid.log + [Presence.Offline(user, end)])
  {
    var done := Leaving(user, order[..i], end);
    assert order[..i + 1] == order[..i] + [order[i]];
    assert Leaving(user, order[..i + 1], end) == done + [(order[i], Presence.Offline(user, end))];
    assert Map(Leaving(user, order[..i + 1], end), MARK_NOTE)
        == Map(done, MARK_NOTE) + [(order[i], StatusNote(user, false))];
    assert Map(Leaving(user, order[..i + 1], end), MARK_OF) == Map(done, MARK_OF) + [Presence.Offline(user, end)];
  }

  /** The sequence has the elements of the set, each of them once. */
  ghost predicate ListsOnce(order: seq<ChatGuid>, chats: set<ChatGuid>) {
    && (forall i, j :: 0 <= i < j < |order| ==> order[i] != order[j])
    && (forall c :: c in order <==> c in chats)
  }

  /** The order in which the chats of the local map are iterated over. */
  method Iterate(chats: set<ChatGuid>) returns (order: seq<ChatGuid>)
    ensures ListsOnce(order, chats)
  {
    order := [];
    var left := chats;
    while left != {}
      invariant left <= chats && ListsOnce(order, chats - left)
      decreases left
    {
      var c :| c in left;
      left, order := left - {c}, order + [c];
    }
  }

  function Elements(order: seq<ChatGuid>): set<ChatGuid> {
    set c | c in order
  }

  lemma OneMoreElement(order: seq<ChatGuid>, i: nat)
    requires i < |order| && forall x, y :: 0 <= x < y < |order| ==> order[x] != order[y]
    ensures order[i] !in Elements(order[..i])
    ensures Elements(order[..i + 1]) == Elements(order[..i]) + {order[i]} && order[..i + 1] == order[..i] + [order[i]]
  {
  }

  /** One turn of the cleanup loop, when the chats in `done` have been left. */
  method LeaveNext(session: Session, c: ChatGuid, end: Time, ghost was: Manager, ghost done: set<ChatGuid>)
    requires session.manager.Valid() && F.ManagerOk(session.manager.State()) && session.presence.Valid()
    requires Less(session.manager.State(), was, done, session.websocket)
    requires c !in done && session.websocket in SocketsOf(was, c)
    modifies session.manager`chats, session.manager.pubsubClient, session.presence, session.broker
    ensures session.manager.Valid() && F.ManagerOk(session.manager.State()) && session.presence.Valid()
    ensures session.manager.userGuidToWebsocket == old(session.manager.userGuidToWebsocket)
    ensures Less(session.manager.State(), was, done + {c}, session.websocket)
    ensures session.user !in session.presence.keys
    ensures session.presence.log == old(session.presence.log) + [Presence.Offline(session.user, end)]
    ensures session.broker.published == old(session.broker.published) + [(c, StatusNote(session.user, false))]
  {
    ghost var mid := session.manager.State();
    StillMember(was, mid, done, c, session.websocket);
    LeaveOne(session, c, end);
    LessOneMore(was, mid, session.manager.State(), done, c, session.websocket);
  }

  /** The world when the first n chats have been left. */
  ghost function Left(was: World, user: UserId, order: seq<ChatGuid>, n: nat, end: Time): World
    requires n <= |order|
  {
    if n == 0 then was
    else
      var mid := Left(was, user, order, n - 1, end);
      mid.(published := mid.published + [(order[n - 1], StatusNote(user, false))],
           log := mid.log + [Presence.Offline(user, end)])
  }

  lemma {:induction false} LeftIsMarked(was: World, user: UserId, order: seq<ChatGuid>, n: nat, end: Time)
    requires n <= |order|
    ensures Left(was, user, order, n, end) == WithMarks(was, Leaving(user, order[..n], end))
  {
    if n > 0 {
      LeftIsMarked(was, user, order, n - 1, end);
      AfterOneMore(was, user, order, n - 1, end);
    }
  }

  /** The cleanup loop, over chats of which the socket is a member. */
  method LeaveEach(session: Session, order: seq<ChatGuid>, end: Time)
    requires session.manager.Valid() && F.ManagerOk(session.manager.State()) && session.presence.Valid()
    requires forall i, j :: 0 <= i < j < |order| ==> order[i] != order[j]
    requires forall c :: c in order ==> session.websocket in SocketsOf(session.manager.State(), c)
    modifies session.manager`chats, session.manager.pubsubClient, session.presence, session.broker
    ensures session.manager.Valid() && F.ManagerOk(session.manager.State()) && session.presence.Valid()
    ensures Less(session.manager.State(), old(session.manager.State()), Elements(order), session.websocket)
    ensures session.manager.userGuidToWebsocket == old(session.manager.userGuidToWebsocket)
    ensures order != [] ==> session.user !in session.presence.keys
    ensures session.World() == WithMarks(old(session.World()), Leaving(session.user, order, end))
  {
    ghost var was, before := session.manager.State(), session.World();
    ghost var done: set<ChatGuid> := {};
    for i := 0 to |order|
      invariant session.manager.Valid() && F.ManagerOk(session.manager.State()) && session.presence.Valid()
      invariant Less(session.manager.State(), was, done, session.websocket) && done == Elements(order[..i])
      invariant session.manager.userGuidToWebsocket == old(session.manager.userGuidToWebsocket)
      invariant i == 0 || session.user !in session.presence.keys
      invariant session.World() == Left(before, session.user, order, i, end)
    {
      OneMoreElement(order, i);
      LeaveNext(session, order[i], end, was, done);
      done := done + {order[i]};
    }
    assert order[..|order|] == order;
    LeftIsMarked(before, session.user, order, |order|, end);
  }

  /** The cleanup: the chats of the local map are left one after the other, and nothing else happens to the world. */
  method LeaveAll(session: Session, end: Time) returns (order: seq<ChatGuid>)
    requires session.Valid()
    modifies session.manager`chats, session.manager.pubsubClient, session.presence, session.broker
    ensures session.manager.Valid() && F.ManagerOk(session.manager.State()) && session.presence.Valid()
    ensures Less(session.manager.State(), old(session.manager.State()), session.chats.Keys, session.websocket)
    ensures session.manager.userGuidToWebsocket == old(session.manager.userGuidToWebsocket)
    ensures session.chats != map[] || order != [] ==> session.user !in session.presence.keys
    ensures ListsOnce(order, session.chats.Keys)
    ensures session.World() == WithMarks(old(session.World()), Leaving(session.user, order, end))
  {
    order := Iterate(session.chats.Keys);
    assert Elements(order) == session.chats.Keys;
    assert session.chats != map[] ==> exists c :: c in session.chats && c in order;
    LeaveEach(session, order, end);
  }

  /** The world right after a user was marked online without a broadcast. */
  function Online(was: World, user: UserId, start: Time): World {
    was.(log := was.log + [Presence.Online(user, start)])
  }

  /** A session that served its frames and then left its chats has done what the frames asked for. */
  lemma SessionDone(idle: World, before: World, served: World, now: World, user: UserId, chats: map<ChatGuid, ChatId>,
                    frames: seq<Frame>, left: seq<ChatGuid>, start: Time, end: Time)
    requires before == Online(idle, user, start)
    requires var asked := Asked(before.tables, user, chats, frames);
             RunsAs(before, served, asked.0) && Marked(before, served, MarksAsked(before.tables, user, chats, frames))
    requires now == WithMarks(served, Leaving(user, left, end))
    ensures RunsAs(idle, now, Asked(before.tables, user, chats, frames).0)
    ensures Marked(Online(idle, user, start), now,
                   MarksAsked(before.tables, user, chats, frames) + Leaving(user, left, end))
  {
    var ts := Asked(before.tables, user, chats, frames).0;
    OnlyMarked(served, Leaving(user, left, end));
    RunsAsBoth(before, served, now, ts, []);
    MarkedTwice(before, served, now, MarksAsked(before.tables, user, chats, frames), Leaving(user, left, end));
    assert ts + [] == ts;
  }

  /** The last step of the cleanup, after the chats have been left. */
  method RemoveSocket(session: Session, ghost was: Manager)
    requires session.manager.Valid() && F.ManagerOk(session.manager.State()) && F.ManagerOk(was)
    requires SameSockets(session.manager.State(), was)
    requires forall u :: session.websocket !in SocketsOfUser(was, u)
    requires session.manager.userGuidToWebsocket == AddUserSocket(was, session.user, session.websocket).userSockets
    modifies session.manager`userGuidToWebsocket
    ensures session.manager.Valid() && F.ManagerOk(session.manager.State())
    ensures session.manager.chats == was.chats
    ensures forall u :: SocketsOfUser(session.manager.State(), u) == SocketsOfUser(was, u)
  {
    ghost var before := session.manager.State();
    M.ChatsFromMembers(before, was);
    var r := session.manager.RemoveUserGuidToWebsocket(session.user, session.websocket);
    F.UserMapsApart(before, session.manager.State());
    forall u ensures SocketsOfUser(session.manager.State(), u) == SocketsOfUser(was, u) {
      assert session.websocket !in SocketsOfUser(was, u);
    }
  }

  /** What follows the disconnect: both maps of the manager are as before the session. */
  method CleanUp(session: Session, end: Time, ghost was: Manager) returns (left: seq<ChatGuid>)
    requires session.Valid() && F.ManagerOk(was)
    requires With(session.manager.State(), was, session.chats.Keys, session.websocket)
    requires forall c :: session.websocket !in SocketsOf(was, c)
    requires forall u :: session.websocket !in SocketsOfUser(was, u)
    requires session.manager.userGuidToWebsocket == AddUserSocket(was, session.user, session.websocket).userSockets
    modifies session.manager, session.manager.pubsubClient, session.presence, session.broker
    ensures session.manager.Valid() && F.ManagerOk(session.manager.State())
    ensures session.manager.chats == was.chats
    ensures forall u :: SocketsOfUser(session.manager.State(), u) == SocketsOfUser(was, u)
    ensures ListsOnce(left, session.chats.Keys)
    ensures session.chats != map[] || left != [] ==> session.user !in session.presence.keys
    ensures session.World() == WithMarks(old(session.World()), Leaving(session.user, left, end))
  {
    ghost var full := session.manager.State();
    left := LeaveAll(session, end);
    BackToStart(was, full, session.manager.State(), session.chats.Keys, session.websocket);
    RemoveSocket(session, was);
  }

  /** websocket_endpoint: joins, the dispatch loop over the frames received before the disconnect, and the cleanup.
      A session that ends by disconnecting has undone its membership and nobody else's; when a handler lets an
      exception through there is no cleanup and the socket stays in the chats of its local map. Either way the tables,
      the broadcasts and the cache have gone through the transactions that the frames asked for, and the user has been
      marked online at the start and by the frames, and offline in each chat that was left. */
  method WebsocketEndpoint(session: Session, incoming: seq<Frame>, start: Time, end: Time)
    returns (disconnected: bool, ghost handled: nat, left: seq<ChatGuid>)
    requires session.Valid() && session.chats == map[]
    requires forall u :: session.websocket !in SocketsOfUser(session.manager.State(), u)
    modifies session, session.manager, session.manager.pubsubClient
    modifies session.db, session.cache, session.presence, session.broker
    ensures session.manager.Valid() && F.ManagerOk(session.manager.State())
    ensures disconnected ==>
      && session.manager.chats == old(session.manager.chats)
      && forall u :: SocketsOfUser(session.manager.State(), u) == SocketsOfUser(old(session.manager.State()), u)
    ensures handled <= |incoming| && (disconnected ==> handled == |incoming|)
    ensures ListsOnce(left, if disconnected then session.chats.Keys else {})
    ensures AllEcho(incoming) ==>
      var was, chats := old(session.World()), DirectChats.ActiveChats(old(session.db.Tables()), session.user);
      && RunsAs(was, session.World(), Asked(was.tables, session.user, chats, incoming[..handled]).0)
      && Marked(Online(was, session.user, start), session.World(),
                MarksAsked(was.tables, session.user, chats, incoming[..handled]) + Leaving(session.user, left, end))
      && EndsAt(was.tables, session.user, chats, incoming, handled, disconnected)
      && (Consistent(was.tables)
          && Store.ExpectedRun(was.tables, Asked(was.tables, session.user, chats, incoming).0)
          ==> disconnected)
    ensures disconnected && left != [] ==> session.user !in session.presence.keys
    ensures !disconnected ==>
      && With(session.manager.State(), old(session.manager.State()), session.chats.Keys, session.websocket)
      && session.websocket in SocketsOfUser(session.manager.State(), session.user)
  {
    ghost var was, idle := session.manager.State(), session.World();
    ConnectSocket(session, start);
    ghost var connected := session.manager.State();
    JoinAll(session);
    ghost var joined, first := session.manager.State(), session.chats.Keys;
    ghost var before, chats := session.World(), session.chats;
    disconnected, handled := Serve(session, incoming);
    ghost var served := session.World();
    WithGrows(was, connected, joined, session.manager.State(), first, session.chats.Keys, session.websocket);
    left := [];
    NothingLeft(served, session.user, end);
    if disconnected {
      left := CleanUp(session, end, was);
    }
    if AllEcho(incoming) {
      SessionDone(idle, before, served, session.World(), session.user, chats, incoming[..handled], left, start, end);
      if Consistent(idle.tables) &&
         Store.ExpectedRun(idle.tables, Asked(idle.tables, session.user, chats, incoming).0) {
        ExpectedSessionEnds(idle.tables, session.user, chats, incoming, handled, disconnected);
      }
    }
  }
}
