/** In which order a socket receives the broadcasts of a chat, and that it can receive them all. */
module DeliveryOrder {
  import opened Collections
  import opened Managers
  import opened Fanout
  import opened Membership
  import opened Delivery

  const NUMBER: Note -> int := (note: Note) => note.number

  /** The broadcasts of a chat from a number on. */
  function Since(chat: ChatGuid, first: nat): Note -> bool {
    (note: Note) => note.channel == chat && note.number >= first
  }

  function Got(c: Cluster, s: Socket, chat: ChatGuid, first: nat): seq<Note> {
    Filter(Inbox(c, s), Since(chat, first))
  }

  function Queue(c: Cluster, p: nat, i: nat, chat: ChatGuid, first: nat): seq<Note>
    requires p < |c.managers| && i < |c.managers[p].pubsubs|
  {
    Filter(c.managers[p].pubsubs[i].queue, Since(chat, first))
  }

  function New(c: Cluster, e: Event, chat: ChatGuid): seq<Note> {
    if e.Broadcast? && e.chat == chat then [Note(chat, c.published)] else []
  }

  /** What is broadcast on a chat in a run, in order. */
  ghost function SentOn(c: Cluster, es: seq<Event>, chat: ChatGuid): seq<Note> {
    if es == [] then []
    else
      var past, e := es[..|es| - 1], es[|es| - 1];
      SentOn(c, past, chat) + if Enabled(After(c, past), e) then New(After(c, past), e, chat) else []
  }

  lemma {:induction false} SentAscends(c: Cluster, es: seq<Event>, chat: ChatGuid)
    ensures Increasing(SentOn(c, es, chat), NUMBER)
    ensures forall note :: note in SentOn(c, es, chat) ==> note.number < After(c, es).published
    ensures c.published <= After(c, es).published
  {
    if es != [] {
      SentAscends(c, es[..|es| - 1], chat);
    }
  }

  ghost predicate NotFollowing(c: Cluster, p: nat, j: nat, chat: ChatGuid, first: nat)
    requires p < |c.managers| && j < |c.managers[p].pubsubs|
  {
    chat !in c.managers[p].pubsubs[j].channels && Queue(c, p, j, chat, first) == []
  }

  /** Only the i-th pubsub object of the process follows the chat, and what the socket has got and what waits there
      is, in this order, what was sent. */
  ghost predicate InOrder(c: Cluster, p: nat, i: nat, chat: ChatGuid, first: nat, s: Socket, sent: seq<Note>) {
    && p < |c.managers| && i < |c.managers[p].pubsubs| && chat in c.managers[p].pubsubs[i].channels
    && first <= c.published
    && (forall j :: 0 <= j < |c.managers[p].pubsubs| && j != i ==> NotFollowing(c, p, j, chat, first))
    && Got(c, s, chat, first) + Queue(c, p, i, chat, first) == sent
  }

  // ---- the start of a run ----

  lemma {:induction false} OneFollower(pubsubs: seq<PubSub>, chat: ChatGuid) returns (i: nat)
    requires |Filter(pubsubs, Follows(chat))| == 1
    ensures i < |pubsubs| && chat in pubsubs[i].channels
    ensures forall j :: 0 <= j < |pubsubs| && j != i ==> chat !in pubsubs[j].channels
  {
    var k := |pubsubs| - 1;
    if chat in pubsubs[k].channels {
      i := k;
      forall j | 0 <= j < k ensures chat !in pubsubs[j].channels {
        if chat in pubsubs[j].channels {
          assert pubsubs[j] in pubsubs[..k];
          FilterKeeps(pubsubs[..k], Follows(chat), pubsubs[j]);
        }
      }
    } else {
      i := OneFollower(pubsubs[..k], chat);
      assert forall j :: 0 <= j < k ==> pubsubs[..k][j] == pubsubs[j];
    }
  }

  lemma NothingSince(c: Cluster, notes: seq<Note>, chat: ChatGuid)
    requires forall note :: note in notes ==> note.number < c.published
    ensures Filter(notes, Since(chat, c.published)) == []
  {
    FilterNone(notes, Since(chat, c.published));
  }

  lemma StartsInOrder(c: Cluster, p: nat, chat: ChatGuid, s: Socket) returns (i: nat)
    requires NumbersBelow(c) && p < |c.managers| && Subscriptions(c.managers[p], chat) == 1
    ensures InOrder(c, p, i, chat, c.published, s, [])
  {
    i := OneFollower(c.managers[p].pubsubs, chat);
    NothingSince(c, Inbox(c, s), chat);
    forall j | 0 <= j < |c.managers[p].pubsubs| ensures Queue(c, p, j, chat, c.published) == [] {
      NothingSince(c, c.managers[p].pubsubs[j].queue, chat);
    }
  }

  // ---- one step ----

  /** The step leaves queues and channels alone, but for channels of other chats and a new pubsub object for one. */
  ghost predicate KeepsQueues(m: Manager, m': Manager, chat: ChatGuid) {
    && |m.pubsubs| <= |m'.pubsubs|
    && (forall j :: 0 <= j < |m.pubsubs| ==>
          && m'.pubsubs[j].queue == m.pubsubs[j].queue
          && (chat in m'.pubsubs[j].channels <==> chat in m.pubsubs[j].channels))
    && (forall j :: |m.pubsubs| <= j < |m'.pubsubs| ==>
          m'.pubsubs[j].queue == [] && chat !in m'.pubsubs[j].channels)
  }

  lemma JoinKeepsQueues(m: Manager, x: ChatGuid, y: Socket, chat: ChatGuid)
    requires chat in m.chats
    ensures KeepsQueues(m, Join(m, x, y), chat)
  {
  }

  lemma LeaveKeepsQueues(m: Manager, x: ChatGuid, y: Socket, chat: ChatGuid, s: Socket)
    requires m.pubsubs != [] && y in SocketsOf(m, x) && s in SocketsOf(m, chat) && (x != chat || y != s)
    ensures Leave(m, x, y).Ok? && KeepsQueues(m, Leave(m, x, y).value, chat)
  {
    if x == chat {
      assert s in m.chats[chat] - {y};
    }
  }

  lemma LeaverIsOther(c: Cluster, y: Socket, x: ChatGuid, p: nat, chat: ChatGuid, s: Socket)
    requires Enabled(c, LeaveNext(y, x)) && IsMember(Next(c, LeaveNext(y, x)), p, chat, s)
    ensures x != chat || y != s
  {
  }

  lemma MemberKeepsQueues(c: Cluster, e: Event, p: nat, chat: ChatGuid, s: Socket)
    requires Inv(c) && Enabled(c, e) && p < |c.managers| && !e.Broadcast? && !e.Deliver?
    requires IsMember(c, p, chat, s) && IsMember(Next(c, e), p, chat, s)
    ensures |Next(c, e).managers| == |c.managers|
    ensures KeepsQueues(c.managers[p], Next(c, e).managers[p], chat)
  {
    var m := c.managers[p];
    assert s in SocketsOf(m, chat) <==> IsMember(c, p, chat, s);
    match e
    case JoinNext(y, x) => JoinKeepsQueues(m, x, y, chat);
    case Enter(y, x, _) => JoinKeepsQueues(m, x, y, chat);
    case LeaveNext(y, x) =>
      if c.sessions[y].process == p {
        assert y in SocketsOf(m, x) <==> IsMember(c, p, x, y);
        LeaveKeepsManagerOk(m, x, y);
        LeaverIsOther(c, y, x, p, chat, s);
        LeaveKeepsQueues(m, x, y, chat, s);
      }
    case _ =>
  }

  lemma QuietKeepsOrder(c: Cluster, e: Event, p: nat, i: nat, chat: ChatGuid, first: nat, s: Socket, sent: seq<Note>)
    requires Inv(c) && Enabled(c, e) && InOrder(c, p, i, chat, first, s, sent) && !e.Broadcast? && !e.Deliver?
    requires IsMember(c, p, chat, s) && IsMember(Next(c, e), p, chat, s)
    ensures InOrder(Next(c, e), p, i, chat, first, s, sent)
  {
    MemberKeepsQueues(c, e, p, chat, s);
    var c' := Next(c, e);
    assert c'.inbox == c.inbox;
    forall j | 0 <= j < |c'.managers[p].pubsubs| && j != i ensures NotFollowing(c', p, j, chat, first) {
      if j < |c.managers[p].pubsubs| {
        assert NotFollowing(c, p, j, chat, first);
      }
    }
  }

  lemma EnqueuedNote(queue: seq<Note>, note: Note, chat: ChatGuid, first: nat)
    ensures Filter(queue + [note], Since(chat, first)) ==
            Filter(queue, Since(chat, first)) + if Since(chat, first)(note) then [note] else []
  {
    FilterAppend(queue, [note], Since(chat, first));
    assert Filter([note], Since(chat, first)) == if Since(chat, first)(note) then [note] else [];
  }

  lemma QueueAfterBroadcast(c: Cluster, q: nat, d: ChatGuid, p: nat, j: nat, chat: ChatGuid, first: nat)
    requires Enabled(c, Broadcast(q, d)) && p < |c.managers| && j < |c.managers[p].pubsubs| && first <= c.published
    ensures var c' := Next(c, Broadcast(q, d));
            && |c'.managers| == |c.managers| && |c'.managers[p].pubsubs| == |c.managers[p].pubsubs|
            && c'.managers[p].pubsubs[j].channels == c.managers[p].pubsubs[j].channels
            && Queue(c', p, j, chat, first) ==
               Queue(c, p, j, chat, first) +
               if chat in c.managers[p].pubsubs[j].channels then New(c, Broadcast(q, d), chat) else []
  {
    EnqueuedNote(c.managers[p].pubsubs[j].queue, Note(d, c.published), chat, first);
  }

  lemma BroadcastKeepsOrder(c: Cluster, q: nat, d: ChatGuid, p: nat, i: nat, chat: ChatGuid, first: nat, s: Socket,
                            sent: seq<Note>)
    requires Enabled(c, Broadcast(q, d)) && InOrder(c, p, i, chat, first, s, sent)
    ensures InOrder(Next(c, Broadcast(q, d)), p, i, chat, first, s, sent + New(c, Broadcast(q, d), chat))
  {
    var c', added := Next(c, Broadcast(q, d)), New(c, Broadcast(q, d), chat);
    QueueAfterBroadcast(c, q, d, p, i, chat, first);
    forall j | 0 <= j < |c'.managers[p].pubsubs| && j != i ensures NotFollowing(c', p, j, chat, first) {
      assert NotFollowing(c, p, j, chat, first);
      QueueAfterBroadcast(c, q, d, p, j, chat, first);
    }
    assert Got(c', s, chat, first) == Got(c, s, chat, first);
    assert Got(c, s, chat, first) + (Queue(c, p, i, chat, first) + added) == sent + added;
  }

  lemma PoppedNote(queue: seq<Note>, chat: ChatGuid, first: nat)
    requires queue != []
    ensures Filter(queue, Since(chat, first)) ==
            (if Since(chat, first)(queue[0]) then [queue[0]] else []) + Filter(queue[1..], Since(chat, first))
  {
    assert queue == [queue[0]] + queue[1..];
    FilterAppend([queue[0]], queue[1..], Since(chat, first));
    assert Filter([queue[0]], Since(chat, first)) == if Since(chat, first)(queue[0]) then [queue[0]] else [];
  }

  lemma GotAfterDeliver(c: Cluster, q: nat, k: nat, chat: ChatGuid, first: nat, s: Socket, joined: bool)
    requires Enabled(c, Deliver(q, k))
    requires var channel := c.managers[q].pubsubs[k].queue[0].channel;
             channel == chat ==> (joined <==> s in SocketsOf(c.managers[q], chat))
    ensures var note := c.managers[q].pubsubs[k].queue[0];
            Got(Next(c, Deliver(q, k)), s, chat, first) ==
              Got(c, s, chat, first) + if Since(chat, first)(note) && joined then [note] else []
  {
    InboxAfterDeliver(c, q, k, s);
    EnqueuedNote(Inbox(c, s), c.managers[q].pubsubs[k].queue[0], chat, first);
    assert Got(c, s, chat, first) + [] == Got(c, s, chat, first) && Inbox(c, s) + [] == Inbox(c, s);
  }

  lemma QueueAfterDeliver(c: Cluster, q: nat, k: nat, p: nat, j: nat, chat: ChatGuid, first: nat)
    requires Enabled(c, Deliver(q, k)) && p < |c.managers| && j < |c.managers[p].pubsubs|
    ensures var c', note := Next(c, Deliver(q, k)), c.managers[q].pubsubs[k].queue[0];
            && |c'.managers| == |c.managers| && |c'.managers[p].pubsubs| == |c.managers[p].pubsubs|
            && c'.managers[p].pubsubs[j].channels == c.managers[p].pubsubs[j].channels
            && Queue(c, p, j, chat, first) ==
               (if p == q && j == k && Since(chat, first)(note) then [note] else []) + Queue(c', p, j, chat, first)
  {
    PoppedNote(c.managers[q].pubsubs[k].queue, chat, first);
  }

  /** No other pubsub object than the i-th holds a broadcast of the chat. */
  lemma DeliveredFromOne(c: Cluster, k: nat, p: nat, i: nat, chat: ChatGuid, first: nat, s: Socket, sent: seq<Note>)
    requires Enabled(c, Deliver(p, k)) && InOrder(c, p, i, chat, first, s, sent)
    ensures Since(chat, first)(c.managers[p].pubsubs[k].queue[0]) ==> k == i
  {
    PoppedNote(c.managers[p].pubsubs[k].queue, chat, first);
    if k != i {
      assert NotFollowing(c, p, k, chat, first);
    }
  }

  lemma OthersStayEmpty(c: Cluster, q: nat, k: nat, p: nat, j: nat, chat: ChatGuid, first: nat)
    requires Enabled(c, Deliver(q, k)) && p < |c.managers| && j < |c.managers[p].pubsubs|
    requires NotFollowing(c, p, j, chat, first)
    ensures var c' := Next(c, Deliver(q, k));
            && p < |c'.managers| && j < |c'.managers[p].pubsubs| && NotFollowing(c', p, j, chat, first)
  {
    QueueAfterDeliver(c, q, k, p, j, chat, first);
  }

  lemma HeadMoves(got: seq<Note>, head: seq<Note>, rest: seq<Note>)
    ensures got + (head + rest) == (got + head) + rest
  {
  }

  lemma DeliveredOne(c: Cluster, q: nat, k: nat, p: nat, i: nat, chat: ChatGuid, first: nat, s: Socket, sent: seq<Note>)
    requires Enabled(c, Deliver(q, k)) && InOrder(c, p, i, chat, first, s, sent)
    requires s in SocketsOf(c.managers[q], chat) <==> q == p
    ensures var c' := Next(c, Deliver(q, k));
            && p < |c'.managers| && i < |c'.managers[p].pubsubs|
            && Got(c', s, chat, first) + Queue(c', p, i, chat, first) == sent
  {
    var c', note := Next(c, Deliver(q, k)), c.managers[q].pubsubs[k].queue[0];
    var head := if q == p && Since(chat, first)(note) then [note] else [];
    GotAfterDeliver(c, q, k, chat, first, s, q == p);
    QueueAfterDeliver(c, q, k, p, i, chat, first);
    if q == p {
      DeliveredFromOne(c, k, p, i, chat, first, s, sent);
    }
    HeadMoves(Got(c, s, chat, first), head, Queue(c', p, i, chat, first));
  }

  lemma MemberOfOne(c: Cluster, p: nat, q: nat, chat: ChatGuid, s: Socket)
    requires Inv(c) && IsMember(c, p, chat, s) && q < |c.managers|
    ensures s in SocketsOf(c.managers[q], chat) <==> q == p
  {
    SocketIsMember(c, q, chat, s);
  }

  lemma DeliverKeepsOrder(c: Cluster, q: nat, k: nat, p: nat, i: nat, chat: ChatGuid, first: nat, s: Socket,
                          sent: seq<Note>)
    requires Inv(c) && Enabled(c, Deliver(q, k)) && InOrder(c, p, i, chat, first, s, sent) && IsMember(c, p, chat, s)
    ensures InOrder(Next(c, Deliver(q, k)), p, i, chat, first, s, sent)
  {
    var c' := Next(c, Deliver(q, k));
    MemberOfOne(c, p, q, chat, s);
    DeliveredOne(c, q, k, p, i, chat, first, s, sent);
    QueueAfterDeliver(c, q, k, p, i, chat, first);
    forall j | 0 <= j < |c'.managers[p].pubsubs| && j != i ensures NotFollowing(c', p, j, chat, first) {
      assert NotFollowing(c, p, j, chat, first);
      OthersStayEmpty(c, q, k, p, j, chat, first);
    }
  }

  lemma StepKeepsOrder(c: Cluster, e: Event, p: nat, i: nat, chat: ChatGuid, first: nat, s: Socket, sent: seq<Note>)
    requires Inv(c) && Enabled(c, e) && InOrder(c, p, i, chat, first, s, sent)
    requires IsMember(c, p, chat, s) && IsMember(Next(c, e), p, chat, s)
    ensures InOrder(Next(c, e), p, i, chat, first, s, sent + New(c, e, chat))
  {
    assert sent + [] == sent;
    match e
    case Broadcast(q, d) => BroadcastKeepsOrder(c, q, d, p, i, chat, first, s, sent);
    case Deliver(q, k) => DeliverKeepsOrder(c, q, k, p, i, chat, first, s, sent);
    case _ => QuietKeepsOrder(c, e, p, i, chat, first, s, sent);
  }

  // ---- whole runs ----

  /** Joined to the chat in every state of the run. */
  ghost predicate Stays(c: Cluster, es: seq<Event>, p: nat, chat: ChatGuid, s: Socket) {
    IsMember(After(c, es), p, chat, s) && (es != [] ==> Stays(c, es[..|es| - 1], p, chat, s))
  }

  lemma StaysAtEnd(c: Cluster, es: seq<Event>, p: nat, chat: ChatGuid, s: Socket)
    requires Stays(c, es, p, chat, s)
    ensures IsMember(After(c, es), p, chat, s)
  {
  }

  lemma {:induction false} RunKeepsOrder(c: Cluster, es: seq<Event>, p: nat, i: nat, chat: ChatGuid, s: Socket)
    requires Inv(c) && InOrder(c, p, i, chat, c.published, s, []) && Stays(c, es, p, chat, s)
    ensures InOrder(After(c, es), p, i, chat, c.published, s, SentOn(c, es, chat))
  {
    if es != [] {
      var past, e := es[..|es| - 1], es[|es| - 1];
      RunKeepsOrder(c, past, p, i, chat, s);
      EveryRunKeepsInv(c, past);
      StaysAtEnd(c, past, p, chat, s);
      if Enabled(After(c, past), e) {
        StepKeepsOrder(After(c, past), e, p, i, chat, c.published, s, SentOn(c, past, chat));
      } else {
        assert SentOn(c, past, chat) + [] == SentOn(c, past, chat);
      }
    }
  }

  lemma StaysAtStart(c: Cluster, es: seq<Event>, p: nat, chat: ChatGuid, s: Socket)
    requires Stays(c, es, p, chat, s)
    ensures IsMember(c, p, chat, s)
    decreases |es|
  {
    if es != [] {
      StaysAtStart(c, es[..|es| - 1], p, chat, s);
    }
  }

  lemma FollowedFrom(processes: nat, before: seq<Event>, p: nat, chat: ChatGuid, s: Socket, after: seq<Event>)
    returns (i: nat)
    requires p < processes && LeftBehind(processes, before, p, chat) == 0
    requires Stays(State(processes, before), after, p, chat, s)
    ensures Inv(State(processes, before))
    ensures InOrder(State(processes, before), p, i, chat, State(processes, before).published, s, [])
  {
    var c := State(processes, before);
    StateInv(processes, before);
    NumbersStayBelow(processes, before);
    SubscriptionsAreCounted(processes, before, p, chat);
    StaysAtStart(c, after, p, chat, s);
    assert s in SocketsOf(c.managers[p], chat) <==> IsMember(c, p, chat, s);
    i := StartsInOrder(c, p, chat, s);
  }

  /** Where nothing had been left behind, a socket that stays joined to a chat gets the chat's broadcasts in the order
      in which they are sent, each once, and none is skipped. */
  lemma {:induction false} BroadcastsArriveInOrder(processes: nat, before: seq<Event>, after: seq<Event>, p: nat,
                                                   chat: ChatGuid, s: Socket)
    requires p < processes && LeftBehind(processes, before, p, chat) == 0
    requires Stays(State(processes, before), after, p, chat, s)
    ensures var c := State(processes, before);
            && Got(After(c, after), s, chat, c.published) <= SentOn(c, after, chat)
            && Increasing(Got(After(c, after), s, chat, c.published), NUMBER)
  {
    var c := State(processes, before);
    var i := FollowedFrom(processes, before, p, chat, s, after);
    RunKeepsOrder(c, after, p, i, chat, s);
    SentAscends(c, after, chat);
    assert forall k :: 0 <= k < |Got(After(c, after), s, chat, c.published)| ==>
      Got(After(c, after), s, chat, c.published)[k] == SentOn(c, after, chat)[k];
  }

  // ---- everything queued can be delivered ----

  function Queued(pubsubs: seq<PubSub>): nat {
    if pubsubs == [] then 0 else Queued(pubsubs[..|pubsubs| - 1]) + |pubsubs[|pubsubs| - 1].queue|
  }

  lemma {:induction false} QueuedPopped(pubsubs: seq<PubSub>, i: nat)
    requires i < |pubsubs| && pubsubs[i].queue != []
    ensures Queued(Popped(pubsubs, i)) == Queued(pubsubs) - 1
  {
    var k := |pubsubs| - 1;
    if i < k {
      QueuedPopped(pubsubs[..k], i);
      assert Popped(pubsubs, i)[..k] == Popped(pubsubs[..k], i);
    } else {
      assert Popped(pubsubs, i)[..k] == pubsubs[..k];
    }
  }

  lemma {:induction false} SomeQueued(pubsubs: seq<PubSub>) returns (i: nat)
    requires Queued(pubsubs) > 0
    ensures i < |pubsubs| && pubsubs[i].queue != []
  {
    var k := |pubsubs| - 1;
    if pubsubs[k].queue != [] {
      i := k;
    } else {
      i := SomeQueued(pubsubs[..k]);
    }
  }

  lemma {:induction false} NoneQueued(pubsubs: seq<PubSub>)
    requires Queued(pubsubs) == 0
    ensures forall i :: 0 <= i < |pubsubs| ==> pubsubs[i].queue == []
  {
    if pubsubs != [] {
      NoneQueued(pubsubs[..|pubsubs| - 1]);
    }
  }

  lemma {:induction false} AfterFirst(c: Cluster, e: Event, es: seq<Event>)
    ensures After(c, [e] + es) == After(Step(c, e), es)
  {
    if es == [] {
      assert [e] + es == [e] && [e][..0] == [];
    } else {
      AfterFirst(c, e, es[..|es| - 1]);
      assert ([e] + es)[..|[e] + es| - 1] == [e] + es[..|es| - 1];
    }
  }

  ghost predicate OnlyDelivers(es: seq<Event>) {
    forall e :: e in es ==> e.Deliver?
  }

  /** From every state that the system can reach some deliveries alone empty every queue of a process. */
  lemma {:induction false} QueuesCanBeEmptied(c: Cluster, p: nat) returns (es: seq<Event>)
    requires Inv(c) && p < |c.managers|
    ensures OnlyDelivers(es) && |After(c, es).managers| == |c.managers|
    ensures forall i :: 0 <= i < |After(c, es).managers[p].pubsubs| ==> After(c, es).managers[p].pubsubs[i].queue == []
    decreases Queued(c.managers[p].pubsubs)
  {
    var pubsubs := c.managers[p].pubsubs;
    es := [];
    if Queued(pubsubs) == 0 {
      NoneQueued(pubsubs);
    } else {
      var i := SomeQueued(pubsubs);
      var e := Deliver(p, i);
      assert ManagerOk(c.managers[p]) && Enabled(c, e);
      QueuedPopped(pubsubs, i);
      StepKeepsInv(c, e);
      var rest := QueuesCanBeEmptied(Step(c, e), p);
      AfterFirst(c, e, rest);
      es := [e] + rest;
    }
  }

  lemma {:induction false} EmptyHoldsNoCopies(pubsubs: seq<PubSub>, n: nat)
    requires forall i :: 0 <= i < |pubsubs| ==> pubsubs[i].queue == []
    ensures Copies(pubsubs, n) == 0
  {
    if pubsubs != [] {
      EmptyHoldsNoCopies(pubsubs[..|pubsubs| - 1], n);
    }
  }

  /** So every broadcast still queued in a process can be delivered. */
  lemma {:induction false} CopiesCanBeDelivered(processes: nat, es: seq<Event>, p: nat) returns (more: seq<Event>)
    requires p < processes
    ensures OnlyDelivers(more)
    ensures var end := After(State(processes, es), more);
            |end.managers| == processes && forall n: nat :: Copies(end.managers[p].pubsubs, n) == 0
  {
    StateInv(processes, es);
    ProcessesStay(Initial(processes), es);
    more := QueuesCanBeEmptied(State(processes, es), p);
    var end := After(State(processes, es), more);
    forall n: nat ensures Copies(end.managers[p].pubsubs, n) == 0 {
      EmptyHoldsNoCopies(end.managers[p].pubsubs, n);
    }
  }

  lemma {:induction false} SentOverRun(c: Cluster, es: seq<Event>, more: seq<Event>, p: nat, chat: ChatGuid, s: Socket)
    requires Stays(c, es, p, chat, s) && OnlyDelivers(more)
    ensures After(c, es + more) == After(After(c, es), more)
    ensures Stays(c, es + more, p, chat, s) && SentOn(c, es + more, chat) == SentOn(c, es, chat)
  {
    if more == [] {
      assert es + more == es;
    } else {
      var n := |more| - 1;
      assert more[n] in more && forall e :: e in more[..n] ==> e in more;
      SentOverRun(c, es, more[..n], p, chat, s);
      assert (es + more)[..|es + more| - 1] == es + more[..n];
      StaysAtEnd(c, es + more[..n], p, chat, s);
    }
  }

  /** Where nothing had been left behind, some deliveries alone bring a socket that has stayed joined exactly the
      broadcasts sent on the chat meanwhile, in order. */
  lemma {:induction false} EverythingCanArrive(processes: nat, before: seq<Event>, after: seq<Event>, p: nat,
                                               chat: ChatGuid, s: Socket)
    returns (more: seq<Event>)
    requires p < processes && LeftBehind(processes, before, p, chat) == 0
    requires Stays(State(processes, before), after, p, chat, s)
    ensures OnlyDelivers(more)
    ensures var c := State(processes, before);
            Got(After(After(c, after), more), s, chat, c.published) == SentOn(c, after, chat)
  {
    var c := State(processes, before);
    var i := FollowedFrom(processes, before, p, chat, s, after);
    ProcessesStay(Initial(processes), before);
    ProcessesStay(c, after);
    EveryRunKeepsInv(c, after);
    more := QueuesCanBeEmptied(After(c, after), p);
    SentOverRun(c, after, more, p, chat, s);
    RunKeepsOrder(c, after + more, p, i, chat, s);
    var end := After(After(c, after), more);
    assert Queue(end, p, i, chat, c.published) == [];
    assert Got(end, s, chat, c.published) + [] == Got(end, s, chat, c.published);
  }
}
