/** Sessions, managers and Redis subscriptions of all processes as one transition system. */
module Fanout {
  import opened Collections
  import opened Managers

  type ChatId = nat

  /** A session joins its chats one by one, is active, and leaves its chats one by one. */
  datatype Phase = Joining | Active | Leaving

  /** `chats` is the session's local map; `todo` what is left to join or to leave. */
  datatype Session = Session(process: nat, user: UserGuid, chats: map<ChatGuid, ChatId>, phase: Phase,
                             todo: set<ChatGuid>)

  /** `inbox` holds the broadcasts each socket was sent, `published` the next number. */
  datatype Cluster = Cluster(managers: seq<Manager>, sessions: map<Socket, Session>, inbox: map<Socket, seq<Note>>,
                             published: nat)

  datatype Event =
    | Open(socket: Socket, process: nat, user: UserGuid, chats: map<ChatGuid, ChatId>)
    | JoinNext(socket: Socket, chat: ChatGuid)
    | Start(socket: Socket)
    | Enter(socket: Socket, chat: ChatGuid, id: ChatId)
    | Hangup(socket: Socket)
    | LeaveNext(socket: Socket, chat: ChatGuid)
    | Close(socket: Socket)
    | Broadcast(process: nat, chat: ChatGuid)
    | Deliver(process: nat, pubsub: nat)

  /** The chats of which the session's socket is a member at its manager. */
  function Member(s: Session): set<ChatGuid> {
    match s.phase
    case Joining => s.chats.Keys - s.todo
    case Active => s.chats.Keys
    case Leaving => s.todo
  }

  function Inbox(c: Cluster, s: Socket): seq<Note> {
    if s in c.inbox then c.inbox[s] else []
  }

  function WithManager(c: Cluster, p: nat, m: Manager): Cluster
    requires p < |c.managers|
  {
    c.(managers := c.managers[p := m])
  }

  function WithSession(c: Cluster, s: Socket, session: Session): Cluster {
    c.(sessions := c.sessions[s := session])
  }

  ghost predicate InPhase(c: Cluster, s: Socket, phase: Phase) {
    s in c.sessions && c.sessions[s].phase == phase && c.sessions[s].process < |c.managers|
  }

  ghost predicate Enabled(c: Cluster, e: Event) {
    match e
    case Open(s, p, u, chats) => s !in c.sessions && p < |c.managers|
    case JoinNext(s, chat) => InPhase(c, s, Joining) && chat in c.sessions[s].todo
    case Start(s) => InPhase(c, s, Joining) && c.sessions[s].todo == {}
    case Enter(s, chat, id) => InPhase(c, s, Active)
    case Hangup(s) => InPhase(c, s, Active)
    case LeaveNext(s, chat) =>
      InPhase(c, s, Leaving) && chat in c.sessions[s].todo &&
      (var m := c.managers[c.sessions[s].process]; m.chats != map[] ==> m.pubsubs != [])
    case Close(s) => InPhase(c, s, Leaving) && c.sessions[s].todo == {}
    case Broadcast(p, chat) => p < |c.managers| && c.managers[p].pubsubs != []
    case Deliver(p, i) =>
      p < |c.managers| && i in c.managers[p].readers && i < |c.managers[p].pubsubs| &&
      c.managers[p].pubsubs[i].queue != []
  }

  /** Redis delivers a note to the subscribed pubsub objects of every process. */
  function PublishAll(managers: seq<Manager>, note: Note): seq<Manager> {
    Map(managers, (m: Manager) => m.(pubsubs := Enqueued(m.pubsubs, note)))
  }

  function Sent(c: Cluster, sockets: set<Socket>, note: Note): map<Socket, seq<Note>> {
    map s | s in c.inbox.Keys + sockets :: if s in sockets then Inbox(c, s) + [note] else Inbox(c, s)
  }

  function OkOr<T, E>(r: Result<T, E>, default: T): T {
    if r.Ok? then r.value else default
  }

  function Next(c: Cluster, e: Event): Cluster
    requires Enabled(c, e)
  {
    match e
    case Open(s, p, u, chats) =>
      WithSession(WithManager(c, p, AddUserSocket(c.managers[p], u, s)), s,
                  Session(p, u, chats, Joining, chats.Keys))
    case JoinNext(s, chat) =>
      var session := c.sessions[s];
      WithSession(WithManager(c, session.process, Join(c.managers[session.process], chat, s)), s,
                  session.(todo := session.todo - {chat}))
    case Start(s) => WithSession(c, s, c.sessions[s].(phase := Active))
    case Enter(s, chat, id) =>
      var session := c.sessions[s];
      WithSession(WithManager(c, session.process, Join(c.managers[session.process], chat, s)), s,
                  session.(chats := session.chats[chat := id]))
    case Hangup(s) => WithSession(c, s, c.sessions[s].(phase := Leaving, todo := c.sessions[s].chats.Keys))
    case LeaveNext(s, chat) =>
      var session := c.sessions[s];
      var m := c.managers[session.process];
      WithSession(WithManager(c, session.process, OkOr(Leave(m, chat, s), m)), s,
                  session.(todo := session.todo - {chat}))
    case Close(s) =>
      var session := c.sessions[s];
      var m := c.managers[session.process];
      WithManager(c, session.process, OkOr(RemoveUserSocket(m, session.user, s), m)).(sessions := c.sessions - {s})
    case Broadcast(p, chat) =>
      c.(managers := PublishAll(c.managers, Note(chat, c.published)), published := c.published + 1)
    case Deliver(p, i) =>
      var m := c.managers[p];
      var note := m.pubsubs[i].queue[0];
      WithManager(c, p, m.(pubsubs := Popped(m.pubsubs, i))).(inbox := Sent(c, SocketsOf(m, note.channel), note))
  }

  function Initial(processes: nat): Cluster {
    Cluster(seq(processes, _ => Manager(map[], map[], [], {})), map[], map[], 0)
  }

  /** An event that cannot happen where it stands is skipped. */
  ghost function Step(c: Cluster, e: Event): Cluster {
    if Enabled(c, e) then Next(c, e) else c
  }

  ghost function After(c: Cluster, es: seq<Event>): Cluster {
    if es == [] then c else Step(After(c, es[..|es| - 1]), es[|es| - 1])
  }

  // ---- what every state keeps ----

  predicate IsMember(c: Cluster, p: nat, chat: ChatGuid, s: Socket) {
    s in c.sessions && c.sessions[s].process == p && chat in Member(c.sessions[s])
  }

  ghost predicate MembersMatch(c: Cluster) {
    forall p, chat, s :: 0 <= p < |c.managers| ==>
      (s in SocketsOf(c.managers[p], chat) <==> IsMember(c, p, chat, s))
  }

  ghost predicate UsersMatch(c: Cluster) {
    forall p, u, s :: 0 <= p < |c.managers| ==>
      (s in SocketsOfUser(c.managers[p], u) <==>
       s in c.sessions && c.sessions[s].process == p && c.sessions[s].user == u)
  }

  ghost predicate SessionOk(c: Cluster, s: Session) {
    s.process < |c.managers| && s.todo <= s.chats.Keys && (s.phase.Active? ==> s.todo == {})
  }

  /** Some pubsub object with a running reader is subscribed to the chat. */
  ghost predicate Listening(m: Manager, chat: ChatGuid) {
    exists i :: 0 <= i < |m.pubsubs| && chat in m.pubsubs[i].channels && i in m.readers
  }

  /** No chat is left without sockets or without a listener; no pubsub object follows two chats. */
  ghost predicate ManagerOk(m: Manager) {
    && (forall chat :: chat in m.chats ==> m.chats[chat] != {} && Listening(m, chat))
    && (forall i, x, y {:trigger x in m.pubsubs[i].channels, y in m.pubsubs[i].channels} ::
          0 <= i < |m.pubsubs| && x in m.pubsubs[i].channels && y in m.pubsubs[i].channels ==> x == y)
    && (forall i :: i in m.readers <==> 0 <= i < |m.pubsubs|)
  }

  ghost predicate Inv(c: Cluster) {
    && MembersMatch(c)
    && UsersMatch(c)
    && (forall s :: s in c.sessions ==> SessionOk(c, c.sessions[s]))
    && (forall p :: 0 <= p < |c.managers| ==> ManagerOk(c.managers[p]))
  }

  lemma {:induction false} JoinKeepsManagerOk(m: Manager, chat: ChatGuid, s: Socket)
    requires ManagerOk(m)
    ensures ManagerOk(Join(m, chat, s))
    ensures forall x :: SocketsOf(Join(m, chat, s), x) == SocketsOf(m, x) + if x == chat then {s} else {}
    ensures forall u :: SocketsOfUser(Join(m, chat, s), u) == SocketsOfUser(m, u)
  {
    var m' := Join(m, chat, s);
    forall x | x in m'.chats ensures Listening(m', x) {
      if chat !in m.chats && x == chat {
        assert chat in m'.pubsubs[|m.pubsubs|].channels && |m.pubsubs| in m'.readers;
      } else {
        assert Listening(m, x);
        var i :| 0 <= i < |m.pubsubs| && x in m.pubsubs[i].channels && i in m.readers;
        assert m'.pubsubs[i] == m.pubsubs[i] && i in m'.readers;
      }
    }
  }

  lemma {:induction false} LeaveKeepsManagerOk(m: Manager, chat: ChatGuid, s: Socket)
    requires ManagerOk(m) && s in SocketsOf(m, chat)
    ensures m.pubsubs != [] && Leave(m, chat, s).Ok?
    ensures ManagerOk(Leave(m, chat, s).value)
    ensures forall x :: SocketsOf(Leave(m, chat, s).value, x) == SocketsOf(m, x) - if x == chat then {s} else {}
    ensures forall u :: SocketsOfUser(Leave(m, chat, s).value, u) == SocketsOfUser(m, u)
  {
    assert Listening(m, chat);
    var m' := Leave(m, chat, s).value;
    forall x | x in m'.chats ensures Listening(m', x) {
      assert Listening(m, x);
      var i :| 0 <= i < |m.pubsubs| && x in m.pubsubs[i].channels && i in m.readers;
      assert x in m'.pubsubs[i].channels;
    }
    forall i, x, y | 0 <= i < |m'.pubsubs| && x in m'.pubsubs[i].channels && y in m'.pubsubs[i].channels
      ensures x == y
    {
      assert x in m.pubsubs[i].channels && y in m.pubsubs[i].channels;
    }
  }

  lemma PublishKeepsManagerOk(m: Manager, note: Note)
    requires ManagerOk(m)
    ensures ManagerOk(m.(pubsubs := Enqueued(m.pubsubs, note)))
  {
    var m' := m.(pubsubs := Enqueued(m.pubsubs, note));
    forall chat | chat in m'.chats ensures Listening(m', chat) {
      assert Listening(m, chat);
      var i :| 0 <= i < |m.pubsubs| && chat in m.pubsubs[i].channels && i in m.readers;
      assert chat in m'.pubsubs[i].channels;
    }
    forall i, x, y | 0 <= i < |m'.pubsubs| && x in m'.pubsubs[i].channels && y in m'.pubsubs[i].channels
      ensures x == y
    {
      assert x in m.pubsubs[i].channels && y in m.pubsubs[i].channels;
    }
  }

  lemma PopKeepsManagerOk(m: Manager, i: nat)
    requires ManagerOk(m) && i < |m.pubsubs| && m.pubsubs[i].queue != []
    ensures ManagerOk(m.(pubsubs := Popped(m.pubsubs, i)))
  {
    var m' := m.(pubsubs := Popped(m.pubsubs, i));
    forall chat | chat in m'.chats ensures Listening(m', chat) {
      assert Listening(m, chat);
      var j :| 0 <= j < |m.pubsubs| && chat in m.pubsubs[j].channels && j in m.readers;
      assert chat in m'.pubsubs[j].channels;
    }
    forall j, x, y | 0 <= j < |m'.pubsubs| && x in m'.pubsubs[j].channels && y in m'.pubsubs[j].channels
      ensures x == y
    {
      assert x in m.pubsubs[j].channels && y in m.pubsubs[j].channels;
    }
  }

  lemma SocketIsMember(c: Cluster, p: nat, chat: ChatGuid, s: Socket)
    requires Inv(c) && p < |c.managers|
    ensures s in SocketsOf(c.managers[p], chat) <==> IsMember(c, p, chat, s)
  {
  }

  lemma InboxAfterDeliver(c: Cluster, q: nat, i: nat, s: Socket)
    requires Enabled(c, Deliver(q, i))
    ensures var note := c.managers[q].pubsubs[i].queue[0];
            Inbox(Next(c, Deliver(q, i)), s) ==
            Inbox(c, s) + if s in SocketsOf(c.managers[q], note.channel) then [note] else []
  {
  }

  /** Which sockets a step adds to or takes from a chat of a process. */
  function Joined(c: Cluster, e: Event, p: nat, chat: ChatGuid): set<Socket> {
    if (e.JoinNext? || e.Enter?) && e.chat == chat && e.socket in c.sessions && c.sessions[e.socket].process == p
    then {e.socket} else {}
  }

  function Gone(c: Cluster, e: Event, p: nat, chat: ChatGuid): set<Socket> {
    if e.LeaveNext? && e.chat == chat && e.socket in c.sessions && c.sessions[e.socket].process == p
    then {e.socket} else {}
  }

  function Opened(e: Event, p: nat, u: UserGuid): set<Socket> {
    if e.Open? && e.process == p && e.user == u then {e.socket} else {}
  }

  function Closed(c: Cluster, e: Event, p: nat, u: UserGuid): set<Socket> {
    if e.Close? && e.socket in c.sessions && c.sessions[e.socket].process == p && c.sessions[e.socket].user == u
    then {e.socket} else {}
  }

  lemma MemberStepEffect(c: Cluster, e: Event, p: nat)
    requires Inv(c) && Enabled(c, e) && p < |c.managers| && (e.JoinNext? || e.Enter? || e.LeaveNext?)
    ensures |Next(c, e).managers| == |c.managers| && ManagerOk(Next(c, e).managers[p])
    ensures forall x :: SocketsOf(Next(c, e).managers[p], x) ==
                        SocketsOf(c.managers[p], x) + Joined(c, e, p, x) - Gone(c, e, p, x)
    ensures forall u :: SocketsOfUser(Next(c, e).managers[p], u) == SocketsOfUser(c.managers[p], u)
  {
    var m := c.managers[p];
    if e.LeaveNext? {
      if c.sessions[e.socket].process == p {
        assert e.socket in SocketsOf(m, e.chat);
        LeaveKeepsManagerOk(m, e.chat, e.socket);
      }
    } else {
      JoinKeepsManagerOk(m, e.chat, e.socket);
    }
  }

  lemma UserMapsApart(m: Manager, m': Manager)
    requires ManagerOk(m) && m' == m.(userSockets := m'.userSockets)
    ensures ManagerOk(m')
  {
    forall chat | chat in m'.chats ensures Listening(m', chat) {
      assert Listening(m, chat);
    }
  }

  lemma UserStepEffect(c: Cluster, e: Event, p: nat)
    requires Inv(c) && Enabled(c, e) && p < |c.managers| && (e.Open? || e.Close?)
    ensures |Next(c, e).managers| == |c.managers| && ManagerOk(Next(c, e).managers[p])
    ensures forall x :: SocketsOf(Next(c, e).managers[p], x) == SocketsOf(c.managers[p], x)
    ensures forall u :: SocketsOfUser(Next(c, e).managers[p], u) ==
                        SocketsOfUser(c.managers[p], u) + Opened(e, p, u) - Closed(c, e, p, u)
  {
    if e.Close? && c.sessions[e.socket].process == p {
      assert e.socket in SocketsOfUser(c.managers[p], c.sessions[e.socket].user);
    }
    UserMapsApart(c.managers[p], Next(c, e).managers[p]);
  }

  lemma MessageStepEffect(c: Cluster, e: Event, p: nat)
    requires Inv(c) && Enabled(c, e) && p < |c.managers| && (e.Broadcast? || e.Deliver? || e.Start? || e.Hangup?)
    ensures |Next(c, e).managers| == |c.managers| && ManagerOk(Next(c, e).managers[p])
    ensures forall x :: SocketsOf(Next(c, e).managers[p], x) == SocketsOf(c.managers[p], x)
    ensures forall u :: SocketsOfUser(Next(c, e).managers[p], u) == SocketsOfUser(c.managers[p], u)
  {
    if e.Broadcast? {
      PublishKeepsManagerOk(c.managers[p], Note(e.chat, c.published));
    } else if e.Deliver? && e.process == p {
      PopKeepsManagerOk(c.managers[p], e.pubsub);
    }
  }

  /** The whole effect of a step on the membership maps of one process. */
  lemma {:induction false} StepEffect(c: Cluster, e: Event, p: nat)
    requires Inv(c) && Enabled(c, e) && p < |c.managers|
    ensures |Next(c, e).managers| == |c.managers| && ManagerOk(Next(c, e).managers[p])
    ensures forall x :: SocketsOf(Next(c, e).managers[p], x) ==
                        SocketsOf(c.managers[p], x) + Joined(c, e, p, x) - Gone(c, e, p, x)
    ensures forall u :: SocketsOfUser(Next(c, e).managers[p], u) ==
                        SocketsOfUser(c.managers[p], u) + Opened(e, p, u) - Closed(c, e, p, u)
  {
    if e.JoinNext? || e.Enter? || e.LeaveNext? {
      MemberStepEffect(c, e, p);
    } else if e.Open? || e.Close? {
      UserStepEffect(c, e, p);
    } else {
      MessageStepEffect(c, e, p);
    }
  }

  /** The session's own map changes in step with the membership map. */
  lemma {:induction false} SessionEffect(c: Cluster, e: Event, p: nat, chat: ChatGuid, s: Socket)
    requires Enabled(c, e) && forall x :: x in c.sessions ==> SessionOk(c, c.sessions[x])
    ensures IsMember(Next(c, e), p, chat, s) <==>
            (IsMember(c, p, chat, s) || s in Joined(c, e, p, chat)) && s !in Gone(c, e, p, chat)
  {
    if s in c.sessions {
      assert SessionOk(c, c.sessions[s]);
    }
  }

  lemma StepKeepsMembers(c: Cluster, e: Event)
    requires Inv(c) && Enabled(c, e)
    ensures MembersMatch(Next(c, e))
  {
    var c' := Next(c, e);
    forall p, chat, s | 0 <= p < |c'.managers|
      ensures s in SocketsOf(c'.managers[p], chat) <==> IsMember(c', p, chat, s)
    {
      StepEffect(c, e, p);
      assert s in SocketsOf(c.managers[p], chat) <==> IsMember(c, p, chat, s);
      SessionEffect(c, e, p, chat, s);
    }
  }

  lemma StepKeepsUsers(c: Cluster, e: Event)
    requires Inv(c) && Enabled(c, e)
    ensures UsersMatch(Next(c, e))
  {
    var c' := Next(c, e);
    forall p, u, s | 0 <= p < |c'.managers|
      ensures s in SocketsOfUser(c'.managers[p], u) <==>
              s in c'.sessions && c'.sessions[s].process == p && c'.sessions[s].user == u
    {
      StepEffect(c, e, p);
      assert s in SocketsOfUser(c.managers[p], u) <==>
             s in c.sessions && c.sessions[s].process == p && c.sessions[s].user == u;
    }
  }

  lemma StepKeepsSessions(c: Cluster, e: Event)
    requires Inv(c) && Enabled(c, e)
    ensures forall s :: s in Next(c, e).sessions ==> SessionOk(Next(c, e), Next(c, e).sessions[s])
  {
    assert |Next(c, e).managers| == |c.managers|;
  }

  lemma {:induction false} StepKeepsInv(c: Cluster, e: Event)
    requires Inv(c)
    ensures Inv(Step(c, e))
  {
    if Enabled(c, e) {
      StepKeepsMembers(c, e);
      StepKeepsUsers(c, e);
      forall p | 0 <= p < |c.managers|
        ensures |Next(c, e).managers| == |c.managers| && ManagerOk(Next(c, e).managers[p])
      {
        StepEffect(c, e, p);
      }
      StepKeepsSessions(c, e);
    }
  }

  lemma {:induction false} EveryRunKeepsInv(c: Cluster, es: seq<Event>)
    requires Inv(c)
    ensures Inv(After(c, es))
  {
    if es != [] {
      EveryRunKeepsInv(c, es[..|es| - 1]);
      StepKeepsInv(After(c, es[..|es| - 1]), es[|es| - 1]);
    }
  }

  lemma InitialInv(processes: nat)
    ensures Inv(Initial(processes))
  {
  }
}
