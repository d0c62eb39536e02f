/** A run in which a socket is sent one broadcast twice. */
module DuplicateDelivery {
  import opened Collections
  import opened Managers
  import opened Fanout
  import opened Membership
  import Delivery

  function Below(n: nat): set<nat> {
    if n == 0 then {} else Below(n - 1) + {n - 1}
  }

  /** One process: its chats and pubsub objects, its sessions, and what the sockets were sent. */
  function One(chats: map<ChatGuid, set<Socket>>, users: map<UserGuid, set<Socket>>, pubsubs: seq<PubSub>,
               sessions: map<Socket, Session>, inbox: map<Socket, seq<Note>>, published: nat): Cluster
  {
    Cluster([Manager(chats, users, pubsubs, Below(|pubsubs|))], sessions, inbox, published)
  }

  function Follower(chat: ChatGuid, queue: seq<Note>): PubSub {
    PubSub({chat}, queue)
  }

  function In(user: UserGuid, chat: ChatGuid, phase: Phase, todo: set<ChatGuid>): Session {
    Session(0, user, map[chat := chat], phase, todo)
  }

  lemma Opens(chats: map<ChatGuid, set<Socket>>, users: map<UserGuid, set<Socket>>, pubsubs: seq<PubSub>,
              sessions: map<Socket, Session>, s: Socket, chat: ChatGuid)
    requires s !in sessions && s !in users
    ensures Step(One(chats, users, pubsubs, sessions, map[], 0), Open(s, 0, s, map[chat := chat]))
         == One(chats, users[s := {s}], pubsubs, sessions[s := In(s, chat, Joining, {chat})], map[], 0)
  {
    var m := Manager(chats, users, pubsubs, Below(|pubsubs|));
    assert map[chat := chat].Keys == {chat};
    assert SocketsOfUser(m, s) + {s} == {s};
    assert [m][0 := AddUserSocket(m, s, s)] == [m.(userSockets := users[s := {s}])];
  }

  lemma Subscribes(pubsubs: seq<PubSub>, chat: ChatGuid)
    ensures Subscribed(Connected(pubsubs), chat) == pubsubs + [Follower(chat, [])]
    ensures Below(|pubsubs + [Follower(chat, [])]|) == Below(|pubsubs|) + {|pubsubs|}
  {
    var connected := Connected(pubsubs);
    assert connected[|pubsubs|] == PubSub({}, []) && {} + {chat} == {chat};
    assert Newest(connected) == PubSub({}, []);
    assert connected[|pubsubs| := Follower(chat, [])] == pubsubs + [Follower(chat, [])];
  }

  /** A session of a new socket opens and joins a chat that nobody has joined. */
  lemma Enters(chats: map<ChatGuid, set<Socket>>, users: map<UserGuid, set<Socket>>, pubsubs: seq<PubSub>,
               sessions: map<Socket, Session>, s: Socket, chat: ChatGuid)
    requires s !in sessions && s !in users && chat !in chats
    ensures Step(Step(One(chats, users, pubsubs, sessions, map[], 0), Open(s, 0, s, map[chat := chat])),
                 JoinNext(s, chat)) ==
            One(chats[chat := {s}], users[s := {s}], pubsubs + [Follower(chat, [])],
                sessions[s := In(s, chat, Joining, {})], map[], 0)
  {
    var m := Manager(chats, users[s := {s}], pubsubs, Below(|pubsubs|));
    Opens(chats, users, pubsubs, sessions, s, chat);
    Subscribes(pubsubs, chat);
    assert [m][0 := Join(m, chat, s)] == [Join(m, chat, s)];
    assert {chat} - {chat} == {};
    assert sessions[s := In(s, chat, Joining, {chat})][s := In(s, chat, Joining, {})]
        == sessions[s := In(s, chat, Joining, {})];
  }

  /** The last socket of a chat leaves it while another chat's pubsub object is the newest. */
  lemma Leaves(chats: map<ChatGuid, set<Socket>>, users: map<UserGuid, set<Socket>>, pubsubs: seq<PubSub>,
               sessions: map<Socket, Session>, s: Socket, chat: ChatGuid)
    requires s in sessions && sessions[s] == In(s, chat, Joining, {})
    requires chat in chats && chats[chat] == {s}
    requires pubsubs != [] && chat !in Newest(pubsubs).channels
    ensures var c := One(chats, users, pubsubs, sessions, map[], 0);
            Step(Step(Step(c, Start(s)), Hangup(s)), LeaveNext(s, chat)) ==
              One(chats - {chat}, users, pubsubs, sessions[s := In(s, chat, Leaving, {})], map[], 0)
  {
    var active := sessions[s := In(s, chat, Active, {})];
    var leaving := sessions[s := In(s, chat, Leaving, {chat})];
    assert map[chat := chat].Keys == {chat};
    assert Step(One(chats, users, pubsubs, sessions, map[], 0), Start(s))
        == One(chats, users, pubsubs, active, map[], 0);
    assert active[s := In(s, chat, Leaving, {chat})] == leaving;
    assert Step(One(chats, users, pubsubs, active, map[], 0), Hangup(s))
        == One(chats, users, pubsubs, leaving, map[], 0);
    assert {s} - {s} == {} && {chat} - {chat} == {};
    assert Newest(pubsubs).channels - {chat} == Newest(pubsubs).channels;
    assert Unsubscribed(pubsubs, chat) == pubsubs;
    assert leaving[s := In(s, chat, Leaving, {})] == sessions[s := In(s, chat, Leaving, {})];
  }

  /** Sockets 0 and 1 join chats 1 and 2, socket 0 leaves chat 1 while chat 2's pubsub object is the newest, socket 2
      joins chat 1 again, and a broadcast goes out on it. */
  function Rejoining(): seq<Event> {
    [Open(0, 0, 0, map[1 := 1])] + [JoinNext(0, 1)] + [Open(1, 0, 1, map[2 := 2])] + [JoinNext(1, 2)] +
    [Start(0)] + [Hangup(0)] + [LeaveNext(0, 1)] + [Open(2, 0, 2, map[1 := 1])] + [JoinNext(2, 1)]
  }

  function Delivering(): seq<Event> {
    Rejoining() + [Broadcast(0, 1)] + [Deliver(0, 0)] + [Deliver(0, 2)]
  }

  lemma OneMoreEvent(es: seq<Event>, e: Event)
    ensures State(1, es + [e]) == Step(State(1, es), e)
  {
    assert (es + [e])[..|es|] == es;
  }

  const USERS_OF: map<UserGuid, set<Socket>> := map[0 := {0}, 1 := {1}, 2 := {2}]

  const SESSIONS: map<Socket, Session> :=
    map[0 := In(0, 1, Leaving, {}), 1 := In(1, 2, Joining, {}), 2 := In(2, 1, Joining, {})]

  function Waiting(first: seq<Note>, last: seq<Note>, inbox: map<Socket, seq<Note>>, published: nat): Cluster {
    One(map[2 := {1}, 1 := {2}], USERS_OF, [Follower(1, first), Follower(2, []), Follower(1, last)], SESSIONS, inbox,
        published)
  }

  lemma FirstJoined()
    ensures State(1, [Open(0, 0, 0, map[1 := 1])] + [JoinNext(0, 1)]) ==
            One(map[1 := {0}], map[0 := {0}], [Follower(1, [])], map[0 := In(0, 1, Joining, {})], map[], 0)
  {
    var none: seq<Event> := [];
    assert State(1, none).managers == [Manager(map[], map[], [], Below(0))];
    assert none + [Open(0, 0, 0, map[1 := 1])] == [Open(0, 0, 0, map[1 := 1])];
    OneMoreEvent(none, Open(0, 0, 0, map[1 := 1]));
    OneMoreEvent([Open(0, 0, 0, map[1 := 1])], JoinNext(0, 1));
    Enters(map[], map[], [], map[], 0, 1);
    assert [] + [Follower(1, [])] == [Follower(1, [])];
  }

  lemma SecondJoined(es: seq<Event>)
    requires State(1, es) ==
             One(map[1 := {0}], map[0 := {0}], [Follower(1, [])], map[0 := In(0, 1, Joining, {})], map[], 0)
    ensures State(1, es + [Open(1, 0, 1, map[2 := 2])] + [JoinNext(1, 2)]) ==
            One(map[1 := {0}, 2 := {1}], map[0 := {0}, 1 := {1}], [Follower(1, []), Follower(2, [])],
                map[0 := In(0, 1, Joining, {}), 1 := In(1, 2, Joining, {})], map[], 0)
  {
    OneMoreEvent(es, Open(1, 0, 1, map[2 := 2]));
    OneMoreEvent(es + [Open(1, 0, 1, map[2 := 2])], JoinNext(1, 2));
    Enters(map[1 := {0}], map[0 := {0}], [Follower(1, [])], map[0 := In(0, 1, Joining, {})], 1, 2);
    assert [Follower(1, [])] + [Follower(2, [])] == [Follower(1, []), Follower(2, [])];
  }

  lemma FirstLeft(es: seq<Event>)
    requires State(1, es) ==
             One(map[1 := {0}, 2 := {1}], map[0 := {0}, 1 := {1}], [Follower(1, []), Follower(2, [])],
                 map[0 := In(0, 1, Joining, {}), 1 := In(1, 2, Joining, {})], map[], 0)
    ensures State(1, es + [Start(0)] + [Hangup(0)] + [LeaveNext(0, 1)]) ==
            One(map[2 := {1}], map[0 := {0}, 1 := {1}], [Follower(1, []), Follower(2, [])],
                map[0 := In(0, 1, Leaving, {}), 1 := In(1, 2, Joining, {})], map[], 0)
  {
    OneMoreEvent(es, Start(0));
    OneMoreEvent(es + [Start(0)], Hangup(0));
    OneMoreEvent(es + [Start(0)] + [Hangup(0)], LeaveNext(0, 1));
    var sessions: map<Socket, Session> := map[0 := In(0, 1, Joining, {}), 1 := In(1, 2, Joining, {})];
    var chats: map<ChatGuid, set<Socket>> := map[1 := {0}, 2 := {1}];
    Leaves(chats, map[0 := {0}, 1 := {1}], [Follower(1, []), Follower(2, [])], sessions, 0, 1);
    assert chats - {1} == map[2 := {1}];
    assert sessions[0 := In(0, 1, Leaving, {})] == map[0 := In(0, 1, Leaving, {}), 1 := In(1, 2, Joining, {})];
  }

  lemma ThirdJoined(es: seq<Event>)
    requires State(1, es) ==
             One(map[2 := {1}], map[0 := {0}, 1 := {1}], [Follower(1, []), Follower(2, [])],
                 map[0 := In(0, 1, Leaving, {}), 1 := In(1, 2, Joining, {})], map[], 0)
    ensures State(1, es + [Open(2, 0, 2, map[1 := 1])] + [JoinNext(2, 1)]) == Waiting([], [], map[], 0)
  {
    OneMoreEvent(es, Open(2, 0, 2, map[1 := 1]));
    OneMoreEvent(es + [Open(2, 0, 2, map[1 := 1])], JoinNext(2, 1));
    Enters(map[2 := {1}], map[0 := {0}, 1 := {1}], [Follower(1, []), Follower(2, [])],
           map[0 := In(0, 1, Leaving, {}), 1 := In(1, 2, Joining, {})], 2, 1);
    assert [Follower(1, []), Follower(2, [])] + [Follower(1, [])]
        == [Follower(1, []), Follower(2, []), Follower(1, [])];
  }

  lemma RejoinedState()
    ensures State(1, Rejoining()) == Waiting([], [], map[], 0)
  {
    var es := [Open(0, 0, 0, map[1 := 1])] + [JoinNext(0, 1)];
    var joined := es + [Open(1, 0, 1, map[2 := 2])] + [JoinNext(1, 2)];
    FirstJoined();
    SecondJoined(es);
    FirstLeft(joined);
    ThirdJoined(joined + [Start(0)] + [Hangup(0)] + [LeaveNext(0, 1)]);
  }

  lemma BroadcastStep()
    ensures Step(Waiting([], [], map[], 0), Broadcast(0, 1)) == Waiting([Note(1, 0)], [Note(1, 0)], map[], 1)
  {
    var pubsubs := [Follower(1, []), Follower(2, []), Follower(1, [])];
    var after := Enqueued(pubsubs, Note(1, 0));
    assert [] + [Note(1, 0)] == [Note(1, 0)];
    assert after[0] == after[2] == Follower(1, [Note(1, 0)]) && after[1] == Follower(2, []);
    assert after == [Follower(1, [Note(1, 0)]), Follower(2, []), Follower(1, [Note(1, 0)])];
    var m := Waiting([], [], map[], 0).managers[0];
    assert PublishAll([m], Note(1, 0)) == [m.(pubsubs := after)];
  }

  /** A pubsub object hands its note to socket 2. */
  lemma DeliverStep(first: seq<Note>, last: seq<Note>, inbox: map<Socket, seq<Note>>, i: nat)
    requires inbox == map[] || inbox.Keys == {2}
    requires if i == 0 then first == [Note(1, 0)] else i == 2 && last == [Note(1, 0)]
    ensures var received := (if 2 in inbox then inbox[2] else []) + [Note(1, 0)];
            Step(Waiting(first, last, inbox, 1), Deliver(0, i)) ==
            if i == 0 then Waiting([], last, map[2 := received], 1) else Waiting(first, [], map[2 := received], 1)
  {
    var c := Waiting(first, last, inbox, 1);
    var m := c.managers[0];
    assert m.readers == {0, 1, 2} by {
      assert Below(3) == Below(2) + {2} && Below(2) == Below(1) + {1} && Below(1) == Below(0) + {0};
    }
    assert [Note(1, 0)][1..] == [];
    assert SocketsOf(m, 1) == {2};
    assert Sent(c, {2}, Note(1, 0)) == map[2 := Inbox(c, 2) + [Note(1, 0)]];
    assert Popped(m.pubsubs, i) == if i == 0 then [Follower(1, []), Follower(2, []), Follower(1, last)]
                                   else [Follower(1, first), Follower(2, []), Follower(1, [])];
  }

  /** The run is a run of the system, and in it socket 2 is sent broadcast 0 twice. */
  lemma {:induction false} RejoiningDuplicates()
    ensures Delivery.Received(State(1, Delivering()), 2, 0) == 2
  {
    RejoinedState();
    OneMoreEvent(Rejoining(), Broadcast(0, 1));
    BroadcastStep();
    OneMoreEvent(Rejoining() + [Broadcast(0, 1)], Deliver(0, 0));
    OneMoreEvent(Rejoining() + [Broadcast(0, 1)] + [Deliver(0, 0)], Deliver(0, 2));
    DeliverStep([Note(1, 0)], [Note(1, 0)], map[], 0);
    DeliverStep([], [Note(1, 0)], map[2 := [Note(1, 0)]], 2);
    assert [] + [Note(1, 0)] == [Note(1, 0)] && [Note(1, 0)] + [Note(1, 0)] == [Note(1, 0), Note(1, 0)];
    FilterAll([Note(1, 0), Note(1, 0)], Delivery.Numbered(0));
  }
}
