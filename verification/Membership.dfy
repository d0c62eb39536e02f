/** What the sessions of all processes may rely on about membership, in every run. */
module Membership {
  import opened Collections
  import opened Managers
  import opened Fanout

  ghost function State(processes: nat, es: seq<Event>): Cluster {
    After(Initial(processes), es)
  }

  lemma StateInv(processes: nat, es: seq<Event>)
    ensures Inv(State(processes, es))
  {
    InitialInv(processes);
    EveryRunKeepsInv(Initial(processes), es);
  }

  /** In every reachable state an active session's local map holds a chat exactly when its socket is in the set of
      that chat at its manager; while it joins or leaves, the chats still to be done are the only difference. */
  lemma LocalMapAgrees(processes: nat, es: seq<Event>, s: Socket, chat: ChatGuid)
    requires s in State(processes, es).sessions
    ensures var c := State(processes, es);
            var session := c.sessions[s];
            && session.process < |c.managers|
            && (s in SocketsOf(c.managers[session.process], chat) <==>
                match session.phase
                case Joining => chat in session.chats && chat !in session.todo
                case Active => chat in session.chats
                case Leaving => chat in session.todo)
            && (forall p :: 0 <= p < |c.managers| && p != session.process ==> s !in SocketsOf(c.managers[p], chat))
  {
    StateInv(processes, es);
    var c := State(processes, es);
    var p := c.sessions[s].process;
    assert SessionOk(c, c.sessions[s]);
    assert s in SocketsOf(c.managers[p], chat) <==> IsMember(c, p, chat, s);
    forall q | 0 <= q < |c.managers| && q != p ensures s !in SocketsOf(c.managers[q], chat) {
      assert s in SocketsOf(c.managers[q], chat) <==> IsMember(c, q, chat, s);
    }
  }

  /** No chat is kept without a socket, and every chat kept is heard: some pubsub object with a running reader
      is subscribed to it, although unsubscribing always acts on the newest one. */
  lemma EveryChatIsHeard(processes: nat, es: seq<Event>, p: nat, chat: ChatGuid)
    requires p < |State(processes, es).managers| && chat in State(processes, es).managers[p].chats
    ensures var m := State(processes, es).managers[p];
            m.chats[chat] != {} && exists i :: 0 <= i < |m.pubsubs| && chat in m.pubsubs[i].channels && i in m.readers
  {
    StateInv(processes, es);
    assert ManagerOk(State(processes, es).managers[p]);
    assert Listening(State(processes, es).managers[p], chat);
  }

  /** Disconnect cleanup never removes an absent socket, from a chat or from its user. */
  lemma CleanupNeverFails(processes: nat, es: seq<Event>, s: Socket)
    requires InPhase(State(processes, es), s, Leaving)
    ensures var c := State(processes, es);
            var m := c.managers[c.sessions[s].process];
            && (m.chats != map[] ==> m.pubsubs != [])
            && (forall chat :: chat in c.sessions[s].todo ==> Enabled(c, LeaveNext(s, chat)) && Leave(m, chat, s).Ok?)
            && c.sessions[s].user in m.userSockets && RemoveUserSocket(m, c.sessions[s].user, s).Ok?
  {
    StateInv(processes, es);
    var c := State(processes, es);
    var p := c.sessions[s].process;
    var m := c.managers[p];
    forall chat | chat in m.chats ensures m.pubsubs != [] {
      assert Listening(m, chat);
    }
    forall chat | chat in c.sessions[s].todo
      ensures m.pubsubs != [] && Enabled(c, LeaveNext(s, chat)) && Leave(m, chat, s).Ok?
    {
      assert s in SocketsOf(m, chat) <==> IsMember(c, p, chat, s);
      LeaveKeepsManagerOk(m, chat, s);
    }
    assert s in SocketsOfUser(m, c.sessions[s].user);
  }

  /** A session that has joined a chat can broadcast: its process has a redis connection. */
  lemma MembersCanBroadcast(processes: nat, es: seq<Event>, s: Socket, chat: ChatGuid, to: ChatGuid)
    requires s in State(processes, es).sessions && chat in Member(State(processes, es).sessions[s])
    ensures Enabled(State(processes, es), Broadcast(State(processes, es).sessions[s].process, to))
  {
    StateInv(processes, es);
    var c := State(processes, es);
    var p := c.sessions[s].process;
    assert SessionOk(c, c.sessions[s]);
    assert s in SocketsOf(c.managers[p], chat) <==> IsMember(c, p, chat, s);
    assert Listening(c.managers[p], chat);
  }

  lemma ChatsFromMembers(m: Manager, m': Manager)
    requires ManagerOk(m) && ManagerOk(m')
    requires forall chat :: SocketsOf(m, chat) == SocketsOf(m', chat)
    ensures m.chats == m'.chats
  {
    forall chat ensures chat in m.chats <==> chat in m'.chats {
      assert SocketsOf(m, chat) == SocketsOf(m', chat);
    }
    forall chat | chat in m.chats ensures m.chats[chat] == m'.chats[chat] {
      assert SocketsOf(m, chat) == SocketsOf(m', chat);
    }
  }

  /** Once all sessions have ended no manager keeps any chat. */
  lemma NothingIsLeft(processes: nat, es: seq<Event>, p: nat)
    requires State(processes, es).sessions == map[] && p < |State(processes, es).managers|
    ensures State(processes, es).managers[p].chats == map[]
  {
    StateInv(processes, es);
    var c := State(processes, es);
    var m := c.managers[p];
    forall chat ensures SocketsOf(m, chat) == {} {
      forall s ensures s !in SocketsOf(m, chat) {
        assert s in SocketsOf(m, chat) <==> IsMember(c, p, chat, s);
      }
    }
    ChatsFromMembers(m, m.(chats := map[]));
  }

  // ---- sessions do not disturb each other ----

  /** The socket whose session takes a step. */
  function Actor(e: Event): Option<Socket> {
    match e
    case Broadcast(_, _) => None
    case Deliver(_, _) => None
    case _ => Some(e.socket)
  }

  function SessionOf(c: Cluster, s: Socket): Option<Session> {
    if s in c.sessions then Some(c.sessions[s]) else None
  }

  lemma OthersStay(c: Cluster, e: Event, s: Socket)
    requires Actor(e) != Some(s)
    ensures SessionOf(Step(c, e), s) == SessionOf(c, s)
  {
  }

  lemma LeavingIsPossible(c: Cluster, s: Socket, chat: ChatGuid)
    requires Inv(c)
    ensures Enabled(c, LeaveNext(s, chat)) <==> InPhase(c, s, Leaving) && chat in c.sessions[s].todo
  {
    if InPhase(c, s, Leaving) && chat in c.sessions[s].todo {
      var p := c.sessions[s].process;
      assert s in SocketsOf(c.managers[p], chat) <==> IsMember(c, p, chat, s);
      assert Listening(c.managers[p], chat);
    }
  }

  lemma OwnStepIsLocal(c: Cluster, d: Cluster, e: Event, s: Socket)
    requires Inv(c) && Inv(d) && |c.managers| == |d.managers| && SessionOf(c, s) == SessionOf(d, s)
    requires Actor(e) == Some(s)
    ensures SessionOf(Step(c, e), s) == SessionOf(Step(d, e), s)
  {
    if e.LeaveNext? {
      LeavingIsPossible(c, s, e.chat);
      LeavingIsPossible(d, s, e.chat);
    }
    assert Enabled(c, e) == Enabled(d, e);
  }

  lemma StepKeepsProcesses(c: Cluster, e: Event)
    ensures |Step(c, e).managers| == |c.managers|
  {
  }

  lemma {:induction false} ProcessesStay(c: Cluster, es: seq<Event>)
    ensures |After(c, es).managers| == |c.managers|
  {
    if es != [] {
      ProcessesStay(c, es[..|es| - 1]);
      StepKeepsProcesses(After(c, es[..|es| - 1]), es[|es| - 1]);
    }
  }

  function NotBy(s: Socket): Event -> bool {
    (e: Event) => Actor(e) != Some(s)
  }

  lemma {:induction false} OtherSessionsUnaffected(c: Cluster, es: seq<Event>, s: Socket, other: Socket)
    requires Inv(c) && other != s
    ensures SessionOf(After(c, es), other) == SessionOf(After(c, Filter(es, NotBy(s))), other)
  {
    if es != [] {
      var n := |es| - 1;
      OtherSessionsUnaffected(c, es[..n], s, other);
      var kept := Filter(es[..n], NotBy(s));
      var e := es[n];
      var full, rest := After(c, es[..n]), After(c, kept);
      assert NotBy(s)(e) ==> (kept + [e])[..|kept + [e]| - 1] == kept;
      if Actor(e) == Some(other) {
        EveryRunKeepsInv(c, es[..n]);
        EveryRunKeepsInv(c, kept);
        ProcessesStay(c, es[..n]);
        ProcessesStay(c, kept);
        OwnStepIsLocal(full, rest, e, other);
      } else {
        OthersStay(full, e, other);
        OthersStay(rest, e, other);
      }
    }
  }

  lemma SameSessionSameMembership(c: Cluster, d: Cluster, s: Socket, p: nat, chat: ChatGuid, u: UserGuid)
    requires Inv(c) && Inv(d) && p < |c.managers| && p < |d.managers| && SessionOf(c, s) == SessionOf(d, s)
    ensures s in SocketsOf(c.managers[p], chat) <==> s in SocketsOf(d.managers[p], chat)
    ensures s in SocketsOfUser(c.managers[p], u) <==> s in SocketsOfUser(d.managers[p], u)
  {
    assert s in SocketsOf(c.managers[p], chat) <==> IsMember(c, p, chat, s);
    assert s in SocketsOf(d.managers[p], chat) <==> IsMember(d, p, chat, s);
    assert c.sessions.Keys * {s} == d.sessions.Keys * {s};
  }

  /** Striking out everything one session does, its whole lifetime included, leaves every other socket's chat and
      user membership in every process as it was. */
  lemma {:induction false} SessionsDoNotInterfere(processes: nat, es: seq<Event>, s: Socket, other: Socket, p: nat,
                                                  chat: ChatGuid, u: UserGuid)
    requires other != s && p < processes
    ensures var with, without := State(processes, es), State(processes, Filter(es, NotBy(s)));
            && |with.managers| == |without.managers| == processes
            && (other in SocketsOf(with.managers[p], chat) <==> other in SocketsOf(without.managers[p], chat))
            && (other in SocketsOfUser(with.managers[p], u) <==> other in SocketsOfUser(without.managers[p], u))
  {
    var with, without := State(processes, es), State(processes, Filter(es, NotBy(s)));
    InitialInv(processes);
    ProcessesStay(Initial(processes), es);
    ProcessesStay(Initial(processes), Filter(es, NotBy(s)));
    OtherSessionsUnaffected(Initial(processes), es, s, other);
    StateInv(processes, es);
    StateInv(processes, Filter(es, NotBy(s)));
    SameSessionSameMembership(with, without, other, p, chat, u);
  }

  lemma {:induction false} LoneSessionLeavesOthers(c: Cluster, es: seq<Event>, s: Socket, other: Socket)
    requires other != s && forall e :: e in es ==> Actor(e) == None || Actor(e) == Some(s)
    ensures SessionOf(After(c, es), other) == SessionOf(c, other)
  {
    if es != [] {
      var n := |es| - 1;
      LoneSessionLeavesOthers(c, es[..n], s, other);
      assert es[n] in es;
      OthersStay(After(c, es[..n]), es[n], other);
    }
  }

  /** From its first step to its last a session undoes its own membership: the chat map of every process ends
      exactly as it began. */
  lemma {:induction false} LifetimeIsNeutral(c: Cluster, es: seq<Event>, s: Socket, p: nat)
    requires Inv(c) && p < |c.managers| && s !in c.sessions && s !in After(c, es).sessions
    requires forall e :: e in es ==> Actor(e) == None || Actor(e) == Some(s)
    ensures |After(c, es).managers| == |c.managers| && After(c, es).managers[p].chats == c.managers[p].chats
  {
    var d := After(c, es);
    ProcessesStay(c, es);
    EveryRunKeepsInv(c, es);
    forall chat ensures SocketsOf(d.managers[p], chat) == SocketsOf(c.managers[p], chat) {
      forall x ensures x in SocketsOf(d.managers[p], chat) <==> x in SocketsOf(c.managers[p], chat) {
        if x != s {
          LoneSessionLeavesOthers(c, es, s, x);
        }
        assert SessionOf(d, x) == SessionOf(c, x);
        assert x in SocketsOf(d.managers[p], chat) <==> IsMember(d, p, chat, x);
        assert x in SocketsOf(c.managers[p], chat) <==> IsMember(c, p, chat, x);
      }
    }
    ChatsFromMembers(d.managers[p], c.managers[p]);
  }

  lemma {:induction false} StruckOutNeverOpens(c: Cluster, es: seq<Event>, s: Socket)
    requires s !in c.sessions
    ensures s !in After(c, Filter(es, NotBy(s))).sessions
  {
    if es != [] {
      var n := |es| - 1;
      var kept := Filter(es[..n], NotBy(s));
      StruckOutNeverOpens(c, es[..n], s);
      if NotBy(s)(es[n]) {
        assert (kept + [es[n]])[..|kept + [es[n]]| - 1] == kept;
        OthersStay(After(c, kept), es[n], s);
        assert SessionOf(After(c, kept), s) == None;
      }
    }
  }

  /** A session that has come and gone, with any other sessions, broadcasts and deliveries in between, leaves the chat
      map of every process as if it had never been there. */
  lemma {:induction false} LifetimeLeavesNoTrace(processes: nat, es: seq<Event>, s: Socket, p: nat)
    requires p < processes && s !in State(processes, es).sessions
    ensures var with, without := State(processes, es), State(processes, Filter(es, NotBy(s)));
            && |with.managers| == |without.managers| == processes
            && with.managers[p].chats == without.managers[p].chats
  {
    var kept := Filter(es, NotBy(s));
    var with, without := State(processes, es), State(processes, kept);
    ProcessesStay(Initial(processes), es);
    ProcessesStay(Initial(processes), kept);
    StateInv(processes, es);
    StateInv(processes, kept);
    StruckOutNeverOpens(Initial(processes), es, s);
    forall chat ensures SocketsOf(with.managers[p], chat) == SocketsOf(without.managers[p], chat) {
      forall x ensures x in SocketsOf(with.managers[p], chat) <==> x in SocketsOf(without.managers[p], chat) {
        if x == s {
          assert SessionOf(with, s) == SessionOf(without, s);
          SameSessionSameMembership(with, without, s, p, chat, 0);
        } else {
          SessionsDoNotInterfere(processes, es, s, x, p, chat, 0);
        }
      }
    }
    ChatsFromMembers(with.managers[p], without.managers[p]);
  }
}
