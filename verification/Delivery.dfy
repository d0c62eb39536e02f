/** How often a broadcast reaches a socket. */
module Delivery {
  import opened Collections
  import opened Managers
  import opened Fanout
  import opened Membership

  function Follows(chat: ChatGuid): PubSub -> bool {
    (p: PubSub) => chat in p.channels
  }

  /** The number of pubsub objects of a process that are subscribed to a chat. */
  function Subscriptions(m: Manager, chat: ChatGuid): nat {
    |Filter(m.pubsubs, Follows(chat))|
  }

  predicate KeyAdded(before: Manager, after: Manager, chat: ChatGuid) {
    chat !in before.chats && chat in after.chats
  }

  predicate KeyDropped(before: Manager, after: Manager, chat: ChatGuid) {
    chat in before.chats && chat !in after.chats
  }

  /** The process gives up a chat while its newest pubsub object is another chat's: unsubscribe, which acts on the
      newest one, then leaves the old subscription behind. */
  predicate LeavesBehind(before: Manager, after: Manager, chat: ChatGuid) {
    KeyDropped(before, after, chat) && !(before.pubsubs != [] && chat in Newest(before.pubsubs).channels)
  }

  /** How many subscriptions to the chat a run has left behind in a process. */
  ghost function LeftBehind(processes: nat, es: seq<Event>, p: nat, chat: ChatGuid): nat
    requires p < processes
  {
    if es == [] then 0
    else
      var past := es[..|es| - 1];
      ProcessesStay(Initial(processes), past);
      ProcessesStay(Initial(processes), es);
      LeftBehind(processes, past, p, chat) +
      if LeavesBehind(State(processes, past).managers[p], State(processes, es).managers[p], chat) then 1 else 0
  }

  /** Subscriptions appear with the key of a chat, and go with it unless they are left behind. */
  ghost predicate SubscriptionLaw(before: Manager, after: Manager, chat: ChatGuid) {
    Subscriptions(after, chat) == Subscriptions(before, chat)
      + (if KeyAdded(before, after, chat) then 1 else 0)
      - (if KeyDropped(before, after, chat) && !LeavesBehind(before, after, chat) then 1 else 0)
  }

  lemma {:induction false} SameChannels(a: seq<PubSub>, b: seq<PubSub>, chat: ChatGuid)
    requires |a| == |b| && forall i :: 0 <= i < |a| ==> a[i].channels == b[i].channels
    ensures |Filter(a, Follows(chat))| == |Filter(b, Follows(chat))|
  {
    if a != [] {
      SameChannels(a[..|a| - 1], b[..|b| - 1], chat);
    }
  }

  lemma JoinSubscriptions(m: Manager, x: ChatGuid, s: Socket, chat: ChatGuid)
    ensures SubscriptionLaw(m, Join(m, x, s), chat)
  {
    if x !in m.chats {
      var pubsubs' := Join(m, x, s).pubsubs;
      assert pubsubs'[|m.pubsubs|].channels == {x};
      assert pubsubs'[..|pubsubs'| - 1] == m.pubsubs;
    }
  }

  lemma LeaveSubscriptions(m: Manager, x: ChatGuid, s: Socket, chat: ChatGuid)
    requires s in SocketsOf(m, x) && m.pubsubs != []
    ensures Leave(m, x, s).Ok? && SubscriptionLaw(m, Leave(m, x, s).value, chat)
  {
    var m' := Leave(m, x, s).value;
    if x !in m'.chats {
      var n := |m.pubsubs| - 1;
      assert m'.pubsubs[..n] == m.pubsubs[..n];
    }
  }

  lemma LeaveStepSubscriptions(c: Cluster, s: Socket, x: ChatGuid, p: nat, chat: ChatGuid)
    requires Inv(c) && p < |c.managers| && Enabled(c, LeaveNext(s, x))
    ensures SubscriptionLaw(c.managers[p], Next(c, LeaveNext(s, x)).managers[p], chat)
  {
    if c.sessions[s].process == p {
      assert s in SocketsOf(c.managers[p], x) <==> IsMember(c, p, x, s);
      LeaveKeepsManagerOk(c.managers[p], x, s);
      LeaveSubscriptions(c.managers[p], x, s, chat);
    }
  }

  /** Only joining and leaving change what a process is subscribed to. */
  lemma OtherStepSubscriptions(c: Cluster, e: Event, p: nat, chat: ChatGuid)
    requires Enabled(c, e) && p < |c.managers| && !e.JoinNext? && !e.Enter? && !e.LeaveNext?
    ensures |Next(c, e).managers| == |c.managers|
    ensures SubscriptionLaw(c.managers[p], Next(c, e).managers[p], chat)
  {
    var m := c.managers[p];
    match e
    case Broadcast(_, x) => SameChannels(m.pubsubs, Enqueued(m.pubsubs, Note(x, c.published)), chat);
    case Deliver(q, i) =>
      if q == p {
        SameChannels(m.pubsubs, Popped(m.pubsubs, i), chat);
      }
    case _ =>
  }

  lemma StepSubscriptions(c: Cluster, e: Event, p: nat, chat: ChatGuid)
    requires Inv(c) && p < |c.managers|
    ensures |Step(c, e).managers| == |c.managers|
    ensures SubscriptionLaw(c.managers[p], Step(c, e).managers[p], chat)
  {
    if Enabled(c, e) {
      if e.JoinNext? || e.Enter? {
        JoinSubscriptions(c.managers[p], e.chat, e.socket, chat);
      } else if e.LeaveNext? {
        LeaveStepSubscriptions(c, e.socket, e.chat, p, chat);
      } else {
        OtherStepSubscriptions(c, e, p, chat);
      }
    }
  }

  /** The exact law: a process holds one subscription for a chat it keeps, plus one for every time it gave the chat
      up while its newest pubsub object was another chat's. */
  lemma {:induction false} SubscriptionsAreCounted(processes: nat, es: seq<Event>, p: nat, chat: ChatGuid)
    requires p < processes
    ensures |State(processes, es).managers| == processes
    ensures var m := State(processes, es).managers[p];
            Subscriptions(m, chat) == (if chat in m.chats then 1 else 0) + LeftBehind(processes, es, p, chat)
  {
    ProcessesStay(Initial(processes), es);
    if es != [] {
      var n := |es| - 1;
      SubscriptionsAreCounted(processes, es[..n], p, chat);
      StateInv(processes, es[..n]);
      StepSubscriptions(State(processes, es[..n]), es[n], p, chat);
    }
  }

  // ---- copies of one broadcast ----

  function Numbered(n: nat): Note -> bool {
    (note: Note) => note.number == n
  }

  /** Copies of broadcast n still queued in a process. */
  function Copies(pubsubs: seq<PubSub>, n: nat): nat {
    if pubsubs == [] then 0
    else Copies(pubsubs[..|pubsubs| - 1], n) + |Filter(pubsubs[|pubsubs| - 1].queue, Numbered(n))|
  }

  /** How often a socket was sent broadcast n. */
  function Received(c: Cluster, s: Socket, n: nat): nat {
    |Filter(Inbox(c, s), Numbered(n))|
  }

  /** Broadcast n went out on `chat`, and numbers are not used before they are published. */
  ghost predicate NumbersOk(c: Cluster, n: nat, chat: ChatGuid) {
    && (forall p, i, note ::
          0 <= p < |c.managers| && 0 <= i < |c.managers[p].pubsubs| && note in c.managers[p].pubsubs[i].queue ==>
            note.number == n ==> note.channel == chat)
    && n < c.published
  }

  lemma {:induction false} CopiesOfSame(a: seq<PubSub>, b: seq<PubSub>, n: nat)
    requires |a| == |b|
    requires forall i :: 0 <= i < |a| ==> |Filter(a[i].queue, Numbered(n))| == |Filter(b[i].queue, Numbered(n))|
    ensures Copies(a, n) == Copies(b, n)
  {
    if a != [] {
      CopiesOfSame(a[..|a| - 1], b[..|b| - 1], n);
    }
  }

  lemma QueuePopped(queue: seq<Note>, n: nat)
    requires queue != []
    ensures |Filter(queue, Numbered(n))| == |Filter(queue[1..], Numbered(n))| + if queue[0].number == n then 1 else 0
  {
    assert queue == [queue[0]] + queue[1..];
    FilterAppend([queue[0]], queue[1..], Numbered(n));
    assert Filter([queue[0]], Numbered(n)) == if queue[0].number == n then [queue[0]] else [];
  }

  lemma {:induction false} CopiesPopped(pubsubs: seq<PubSub>, i: nat, n: nat)
    requires i < |pubsubs| && pubsubs[i].queue != []
    ensures Copies(pubsubs, n) == Copies(Popped(pubsubs, i), n) + if pubsubs[i].queue[0].number == n then 1 else 0
  {
    var k := |pubsubs| - 1;
    if i < k {
      CopiesPopped(pubsubs[..k], i, n);
      assert Popped(pubsubs, i)[..k] == Popped(pubsubs[..k], i);
    } else {
      QueuePopped(pubsubs[k].queue, n);
      assert Popped(pubsubs, i)[..k] == pubsubs[..k];
    }
  }

  lemma {:induction false} CopiesPublished(pubsubs: seq<PubSub>, chat: ChatGuid, n: nat)
    ensures Copies(Enqueued(pubsubs, Note(chat, n)), n) == Copies(pubsubs, n) + |Filter(pubsubs, Follows(chat))|
  {
    if pubsubs != [] {
      var k := |pubsubs| - 1;
      CopiesPublished(pubsubs[..k], chat, n);
      var after := Enqueued(pubsubs, Note(chat, n));
      assert after[..k] == Enqueued(pubsubs[..k], Note(chat, n));
      FilterAppend(pubsubs[k].queue, [Note(chat, n)], Numbered(n));
      assert Filter([Note(chat, n)], Numbered(n)) == [Note(chat, n)];
    }
  }

  lemma OtherNotePublished(pubsubs: seq<PubSub>, note: Note, n: nat)
    requires note.number != n
    ensures Copies(Enqueued(pubsubs, note), n) == Copies(pubsubs, n)
  {
    var after := Enqueued(pubsubs, note);
    forall i | 0 <= i < |pubsubs|
      ensures |Filter(after[i].queue, Numbered(n))| == |Filter(pubsubs[i].queue, Numbered(n))|
    {
      FilterAppend(pubsubs[i].queue, [note], Numbered(n));
      assert Filter([note], Numbered(n)) == [];
    }
    CopiesOfSame(after, pubsubs, n);
  }

  lemma JoinCopies(m: Manager, x: ChatGuid, s: Socket, n: nat)
    ensures Copies(Join(m, x, s).pubsubs, n) == Copies(m.pubsubs, n)
  {
    if x !in m.chats {
      var after := Join(m, x, s).pubsubs;
      assert after[|m.pubsubs|].queue == [];
      assert after[..|after| - 1] == m.pubsubs;
    }
  }

  lemma LeaveCopies(m: Manager, x: ChatGuid, s: Socket, n: nat)
    requires m.pubsubs != [] && Leave(m, x, s).Ok?
    ensures Copies(Leave(m, x, s).value.pubsubs, n) == Copies(m.pubsubs, n)
  {
    CopiesOfSame(Leave(m, x, s).value.pubsubs, m.pubsubs, n);
  }

  lemma ReceivedAfterDeliver(c: Cluster, q: nat, i: nat, s: Socket, n: nat)
    requires Enabled(c, Deliver(q, i))
    ensures var note := c.managers[q].pubsubs[i].queue[0];
            Received(Next(c, Deliver(q, i)), s, n) ==
            Received(c, s, n) + if s in SocketsOf(c.managers[q], note.channel) && note.number == n then 1 else 0
  {
    var note := c.managers[q].pubsubs[i].queue[0];
    InboxAfterDeliver(c, q, i, s);
    FilterAppend(Inbox(c, s), [note], Numbered(n));
    assert Filter([note], Numbered(n)) == if note.number == n then [note] else [];
  }

  lemma DeliveryStep(c: Cluster, q: nat, i: nat, n: nat, chat: ChatGuid, p: nat, s: Socket)
    requires Inv(c) && NumbersOk(c, n, chat) && p < |c.managers| && Enabled(c, Deliver(q, i))
    ensures var c' := Next(c, Deliver(q, i));
            && (IsMember(c, p, chat, s) ==>
                  Received(c', s, n) + Copies(c'.managers[p].pubsubs, n)
                    == Received(c, s, n) + Copies(c.managers[p].pubsubs, n))
            && ((forall r :: !IsMember(c, r, chat, s)) ==> Received(c', s, n) == Received(c, s, n))
  {
    var m := c.managers[q];
    var note := m.pubsubs[i].queue[0];
    assert note in m.pubsubs[i].queue;
    CopiesPopped(m.pubsubs, i, n);
    ReceivedAfterDeliver(c, q, i, s, n);
    SocketIsMember(c, q, note.channel, s);
  }

  /** A step that delivers nothing neither makes nor loses copies of an earlier broadcast. */
  lemma QuietStep(c: Cluster, e: Event, n: nat, p: nat)
    requires Inv(c) && n < c.published && p < |c.managers| && Enabled(c, e) && !e.Deliver?
    ensures |Next(c, e).managers| == |c.managers| && Next(c, e).inbox == c.inbox
    ensures Copies(Next(c, e).managers[p].pubsubs, n) == Copies(c.managers[p].pubsubs, n)
  {
    var m := c.managers[p];
    match e
    case JoinNext(x, d) => JoinCopies(m, d, x, n);
    case Enter(x, d, id) => JoinCopies(m, d, x, n);
    case LeaveNext(x, d) =>
      if c.sessions[x].process == p {
        assert x in SocketsOf(m, d) <==> IsMember(c, p, d, x);
        LeaveKeepsManagerOk(m, d, x);
        LeaveCopies(m, d, x, n);
      }
    case Broadcast(_, d) => OtherNotePublished(m.pubsubs, Note(d, c.published), n);
    case _ =>
  }

  /** A step moves copies of broadcast n from the queues of a process to the sockets joined to its chat, and loses
      none. */
  lemma {:induction false} StepDelivers(c: Cluster, e: Event, n: nat, chat: ChatGuid, p: nat, s: Socket)
    requires Inv(c) && NumbersOk(c, n, chat) && p < |c.managers|
    ensures |Step(c, e).managers| == |c.managers|
    ensures var c' := Step(c, e);
            && (IsMember(c, p, chat, s) ==>
                  Received(c', s, n) + Copies(c'.managers[p].pubsubs, n)
                    == Received(c, s, n) + Copies(c.managers[p].pubsubs, n))
            && ((forall q :: !IsMember(c, q, chat, s)) ==> Received(c', s, n) == Received(c, s, n))
  {
    if Enabled(c, e) {
      if e.Deliver? {
        DeliveryStep(c, e.process, e.pubsub, n, chat, p, s);
      } else {
        QuietStep(c, e, n, p);
      }
    }
  }

  lemma StepKeepsNumbers(c: Cluster, e: Event, n: nat, chat: ChatGuid)
    requires NumbersOk(c, n, chat)
    ensures NumbersOk(Step(c, e), n, chat)
  {
    var c' := Step(c, e);
    forall p, i, note | 0 <= p < |c'.managers| && 0 <= i < |c'.managers[p].pubsubs| &&
                        note in c'.managers[p].pubsubs[i].queue && note.number == n
      ensures note.channel == chat
    {
      if Enabled(c, e) && i < |c.managers[p].pubsubs| {
        assert note in c.managers[p].pubsubs[i].queue;
      }
    }
  }

  ghost predicate NumbersBelow(c: Cluster) {
    && (forall p, i, note ::
          0 <= p < |c.managers| && 0 <= i < |c.managers[p].pubsubs| && note in c.managers[p].pubsubs[i].queue ==>
            note.number < c.published)
    && (forall s, x :: s in c.inbox && x in c.inbox[s] ==> x.number < c.published)
  }

  lemma StepKeepsNumbersBelow(c: Cluster, e: Event)
    requires NumbersBelow(c)
    ensures NumbersBelow(Step(c, e))
  {
    var c' := Step(c, e);
    forall p, i, note | 0 <= p < |c'.managers| && 0 <= i < |c'.managers[p].pubsubs| &&
                        note in c'.managers[p].pubsubs[i].queue
      ensures note.number < c'.published
    {
      if Enabled(c, e) && i < |c.managers[p].pubsubs| {
        assert note in c.managers[p].pubsubs[i].queue || note.number == c.published;
      }
    }
    if Enabled(c, e) && e.Deliver? {
      var head := c.managers[e.process].pubsubs[e.pubsub].queue[0];
      assert head in c.managers[e.process].pubsubs[e.pubsub].queue;
    }
  }

  lemma {:induction false} NumbersStayBelow(processes: nat, es: seq<Event>)
    ensures NumbersBelow(State(processes, es))
  {
    if es != [] {
      NumbersStayBelow(processes, es[..|es| - 1]);
      StepKeepsNumbersBelow(State(processes, es[..|es| - 1]), es[|es| - 1]);
    }
  }

  lemma {:induction false} NoCopiesYet(pubsubs: seq<PubSub>, n: nat)
    requires forall i, note :: 0 <= i < |pubsubs| && note in pubsubs[i].queue ==> note.number != n
    ensures Copies(pubsubs, n) == 0
  {
    if pubsubs != [] {
      var k := |pubsubs| - 1;
      NoCopiesYet(pubsubs[..k], n);
      assert forall note :: note in pubsubs[k].queue ==> !Numbered(n)(note);
      FilterNone(pubsubs[k].queue, Numbered(n));
    }
  }

  /** Publishing puts one copy in the queue of each subscription, and nobody has received it yet. */
  lemma PublishMakesCopies(c: Cluster, q: nat, chat: ChatGuid, p: nat, s: Socket)
    requires NumbersBelow(c) && Enabled(c, Broadcast(q, chat)) && p < |c.managers|
    ensures var c', n := Step(c, Broadcast(q, chat)), c.published;
            && |c'.managers| == |c.managers|
            && NumbersOk(c', n, chat)
            && Copies(c'.managers[p].pubsubs, n) == Subscriptions(c.managers[p], chat)
            && Received(c', s, n) == 0
  {
    var n := c.published;
    NoCopiesYet(c.managers[p].pubsubs, n);
    CopiesPublished(c.managers[p].pubsubs, chat, n);
    FilterNone(Inbox(c, s), Numbered(n));
  }

  /** The socket is joined to the chat in process p in every state of the run. */
  ghost predicate StaysMember(c: Cluster, es: seq<Event>, p: nat, chat: ChatGuid, s: Socket) {
    forall i :: 0 <= i <= |es| ==> IsMember(After(c, es[..i]), p, chat, s)
  }

  ghost predicate NeverMember(c: Cluster, es: seq<Event>, chat: ChatGuid, s: Socket) {
    forall i, q :: 0 <= i <= |es| ==> !IsMember(After(c, es[..i]), q, chat, s)
  }

  lemma {:induction false} RunDelivers(c: Cluster, es: seq<Event>, n: nat, chat: ChatGuid, p: nat, s: Socket)
    requires Inv(c) && NumbersOk(c, n, chat) && p < |c.managers|
    ensures Inv(After(c, es)) && NumbersOk(After(c, es), n, chat) && |After(c, es).managers| == |c.managers|
    ensures StaysMember(c, es, p, chat, s) ==>
      Received(After(c, es), s, n) + Copies(After(c, es).managers[p].pubsubs, n)
        == Received(c, s, n) + Copies(c.managers[p].pubsubs, n)
    ensures NeverMember(c, es, chat, s) ==> Received(After(c, es), s, n) == Received(c, s, n)
  {
    if es != [] {
      var k := |es| - 1;
      assert forall i :: 0 <= i <= k ==> es[..k][..i] == es[..i];
      RunDelivers(c, es[..k], n, chat, p, s);
      var mid := After(c, es[..k]);
      StepDelivers(mid, es[k], n, chat, p, s);
      StepKeepsNumbers(mid, es[k], n, chat);
      StepKeepsInv(mid, es[k]);
    }
  }

  /** At any time a socket that stayed joined to the chat has received a broadcast, or has it still queued in its
      process, once and once more for every subscription that its process had left behind. When the copies are read
      off, it has received the broadcast exactly once if and only if nothing had been left behind. */
  lemma {:induction false} BroadcastReachesMembers(processes: nat, before: seq<Event>, q: nat, chat: ChatGuid,
                                                   after: seq<Event>, p: nat, s: Socket)
    requires Enabled(State(processes, before), Broadcast(q, chat)) && p < processes
    requires StaysMember(Step(State(processes, before), Broadcast(q, chat)), after, p, chat, s)
    ensures var c := State(processes, before);
            var end := After(Step(c, Broadcast(q, chat)), after);
            && |end.managers| == processes
            && Received(end, s, c.published) + Copies(end.managers[p].pubsubs, c.published)
                 == 1 + LeftBehind(processes, before, p, chat)
            && (Copies(end.managers[p].pubsubs, c.published) == 0 ==>
                  (Received(end, s, c.published) == 1 <==> LeftBehind(processes, before, p, chat) == 0))
  {
    var c := State(processes, before);
    var sent := Step(c, Broadcast(q, chat));
    StateInv(processes, before);
    NumbersStayBelow(processes, before);
    SubscriptionsAreCounted(processes, before, p, chat);
    PublishMakesCopies(c, q, chat, p, s);
    StepKeepsInv(c, Broadcast(q, chat));
    RunDelivers(sent, after, c.published, chat, p, s);
    assert after[..0] == [] && IsMember(After(sent, after[..0]), p, chat, s);
    assert s in SocketsOf(c.managers[p], chat) <==> IsMember(c, p, chat, s);
  }

  /** A socket that is not joined to the chat while the broadcast is on its way never receives it. */
  lemma {:induction false} BroadcastReachesOnlyMembers(processes: nat, before: seq<Event>, q: nat, chat: ChatGuid,
                                                       after: seq<Event>, s: Socket)
    requires Enabled(State(processes, before), Broadcast(q, chat))
    requires NeverMember(Step(State(processes, before), Broadcast(q, chat)), after, chat, s)
    ensures Received(After(Step(State(processes, before), Broadcast(q, chat)), after), s,
                     State(processes, before).published) == 0
  {
    var c := State(processes, before);
    StateInv(processes, before);
    NumbersStayBelow(processes, before);
    PublishMakesCopies(c, q, chat, q, s);
    StepKeepsInv(c, Broadcast(q, chat));
    RunDelivers(Step(c, Broadcast(q, chat)), after, c.published, chat, q, s);
  }

  ghost predicate KeptBy(processes: nat, es: seq<Event>, es': seq<Event>, p: nat, chat: ChatGuid)
    requires p < processes
  {
    ProcessesStay(Initial(processes), es);
    ProcessesStay(Initial(processes), es');
    !KeyDropped(State(processes, es).managers[p], State(processes, es').managers[p], chat)
  }

  /** The process never gave the chat up. */
  ghost predicate NeverDropped(processes: nat, es: seq<Event>, p: nat, chat: ChatGuid)
    requires p < processes
  {
    forall i :: 0 <= i < |es| ==> KeptBy(processes, es[..i], es[..i + 1], p, chat)
  }

  /** Where a chat was never given up before, nothing is left behind and delivery is exactly once. */
  lemma {:induction false} NothingLeftBehind(processes: nat, es: seq<Event>, p: nat, chat: ChatGuid)
    requires p < processes && NeverDropped(processes, es, p, chat)
    ensures LeftBehind(processes, es, p, chat) == 0
  {
    if es != [] {
      var n := |es| - 1;
      assert forall i :: 0 <= i <= n ==> es[..n][..i] == es[..i];
      forall i | 0 <= i < n ensures KeptBy(processes, es[..n][..i], es[..n][..i + 1], p, chat) {
        assert KeptBy(processes, es[..i], es[..i + 1], p, chat);
      }
      NothingLeftBehind(processes, es[..n], p, chat);
      assert KeptBy(processes, es[..n], es[..n + 1], p, chat) && es[..n + 1] == es;
    }
  }
}
