/** Two pairs of racing requests, event by event. */
module RacingRuns {
  import opened Collections
  import opened Models
  import opened Queries
  import opened Store
  import opened ReadTracking
  import opened Writes
  import opened Races
  import opened Scenario

  lemma OneMoreEvent(users: set<UserId>, es: seq<Event>, e: Event)
    ensures After(users, es + [e]) == Step(After(users, es), e)
  {
    assert (es + [e])[..|es|] == es;
  }

  /** Both users create the chat at the same time: both checks are answered before either insert. */
  function TwoCreations(): seq<Event> {
    [Check(0, 1, 2)] + [Check(1, 2, 1)] + [Insert(0, 0)] + [Insert(1, 0)]
  }

  lemma BothChecksPass()
    ensures After(USERS, [Check(0, 1, 2)] + [Check(1, 2, 1)])
         == Start(USERS).(windows := map[0 := Creating(1, 2, 1), 1 := Creating(2, 1, 1)])
  {
    var none: seq<Event> := [];
    CreateTalk();
    assert none + [Check(0, 1, 2)] == [Check(0, 1, 2)];
    OneMoreEvent(USERS, none, Check(0, 1, 2));
    OneMoreEvent(USERS, [Check(0, 1, 2)], Check(1, 2, 1));
    assert Filter(Empty(USERS).chats, DirectPair(2, 1)) == [];
  }

  /** The pair ends with two active direct chats, and from then on its existence check raises. */
  lemma {:induction false} RacingCreations()
    ensures !PairsAreUnique(After(USERS, TwoCreations()))
    ensures DirectChatExists(After(USERS, TwoCreations()).db, 1, 2) == Err(MultipleResultsFound)
  {
    var es := [Check(0, 1, 2)] + [Check(1, 2, 1)];
    var s := After(USERS, es);
    BothChecksPass();
    OneMoreEvent(USERS, es, Insert(0, 0));
    var t := After(USERS, es + [Insert(0, 0)]);
    OneMoreEvent(USERS, es + [Insert(0, 0)], Insert(1, 0));
    var chats := After(USERS, TwoCreations()).db.chats;
    assert t.windows[1] == Creating(2, 1, 1);
    assert chats == [Chat(1, Direct, [1, 2], 0, false), Chat(2, Direct, [2, 1], 0, false)];
    FilterAll(chats, DirectPair(1, 2));
    assert SamePair(chats[0], chats[1]);
  }

  function Talking(): seq<Event> {
    [Check(0, 1, 2)] + [Insert(0, 0)] + [Whole(SendMessage(1, 1, "", 0, 0))] + [Whole(SendMessage(1, 1, "", 1, 0))]
  }

  /** What the tables and the windows are while nothing has been answered yet. */
  function Quiet(db: Database, windows: map<Request, Window>): State {
    State(db, windows, [], [], [])
  }

  lemma SayIsExpected(messages: seq<Message>, at: Time)
    requires forall m :: m in messages ==> m.createdAt < at
    ensures Expected(Talk(messages, 0, 0), SendMessage(1, 1, "", at, 0))
  {
    FindChat(Talk(messages, 0, 0));
  }

  lemma SayApplies(messages: seq<Message>, at: Time)
    ensures Apply(Talk(messages, 0, 0), SendMessage(1, 1, "", at, 0)) == TalkMore(messages, 0, 0, at)
  {
    Say(messages, 0, 0, at);
  }

  lemma SayStep(messages: seq<Message>, at: Time)
    requires forall m :: m in messages ==> m.createdAt < at
    ensures Step(Quiet(Talk(messages, 0, 0), map[]), Whole(SendMessage(1, 1, "", at, 0)))
         == Quiet(TalkMore(messages, 0, 0, at), map[])
  {
    SayIsExpected(messages, at);
    SayApplies(messages, at);
  }

  lemma CreateStep()
    ensures After(USERS, [Check(0, 1, 2)] + [Insert(0, 0)]) == Quiet(Talk([], 0, 0), map[])
  {
    var none: seq<Event> := [];
    var start := After(USERS, none);
    assert none + [Check(0, 1, 2)] == [Check(0, 1, 2)];
    OneMoreEvent(USERS, none, Check(0, 1, 2));
    OneMoreEvent(USERS, [Check(0, 1, 2)], Insert(0, 0));
    EveryRunKeepsInv(USERS, none);
    UninterruptedCreation(start, 0, 1, 2, 0);
    CreateTalk();
  }

  lemma TalkingIsTalk()
    ensures After(USERS, Talking()) == Quiet(Talk(SAID, 0, 0), map[])
  {
    var es := [Check(0, 1, 2)] + [Insert(0, 0)];
    CreateStep();
    SayStep([], 0);
    SayStep([HELLO], 1);
    assert [] + [HELLO] == [HELLO] && [HELLO] + [Message(2, 1, 1, "", 1, false)] == SAID;
    OneMoreEvent(USERS, es, Whole(SendMessage(1, 1, "", 0, 0)));
    OneMoreEvent(USERS, es + [Whole(SendMessage(1, 1, "", 0, 0))], Whole(SendMessage(1, 1, "", 1, 0)));
  }

  lemma SelectStep(said: seq<Message>, windows: map<Request, Window>, r: Request, id: MessageId)
    requires r !in windows && id > 0 && Expected(Talk(said, 0, 0), ReadMessage(2, 1, id))
    ensures Step(Quiet(Talk(said, 0, 0), windows), Select(r, Ack(2, 1, id)))
         == Quiet(Talk(said, 0, 0), windows[r := Advancing(Ack(2, 1, id), 0, 0)])
  {
    AcknowledgeInTalk(said, 0, 0, id);
  }

  lemma SelectTwice(es: seq<Event>, said: seq<Message>)
    requires After(USERS, es) == Quiet(Talk(said, 0, 0), map[])
    requires Expected(Talk(said, 0, 0), ReadMessage(2, 1, 1)) && Expected(Talk(said, 0, 0), ReadMessage(2, 1, 2))
    ensures After(USERS, es + [Select(1, LOW)] + [Select(2, HIGH)])
         == Quiet(Talk(said, 0, 0), map[1 := Advancing(LOW, 0, 0), 2 := Advancing(HIGH, 0, 0)])
  {
    var none: map<Request, Window> := map[];
    SelectStep(said, none, 1, 1);
    SelectStep(said, none[1 := Advancing(LOW, 0, 0)], 2, 2);
    OneMoreEvent(USERS, es, Select(1, LOW));
    OneMoreEvent(USERS, es + [Select(1, LOW)], Select(2, HIGH));
  }

  function Answered(s: State, said: seq<Message>, r: Request, id: MessageId): State {
    State(Talk(said, 0, id), s.windows - {r}, s.written + [Ack(2, 1, id)], s.answered + [Ack(2, 1, id)],
          s.broadcasts + [Ack(2, 1, id)])
  }

  /** Writing and broadcasting without interruption, but with a window opened earlier. */
  lemma AnswerSteps(s: State, said: seq<Message>, r: Request, second: MessageId, id: MessageId)
    requires s.db == Talk(said, 0, second) && r in s.windows && s.windows[r] == Advancing(Ack(2, 1, id), 0, 0)
    ensures Step(Step(s, Update(r)), Publish(r)) == Answered(s, said, r, id)
  {
    WriteInTalk(said, second, id);
    assert s.windows[r := Announcing(Ack(2, 1, id), 0)] - {r} == s.windows - {r};
  }

  /** A request opened in a window is answered by the next two events. */
  lemma AnswerIn(es: seq<Event>, said: seq<Message>, r: Request, second: MessageId, id: MessageId)
    requires After(USERS, es).db == Talk(said, 0, second) && r in After(USERS, es).windows
    requires After(USERS, es).windows[r] == Advancing(Ack(2, 1, id), 0, 0)
    ensures After(USERS, es + [Update(r)] + [Publish(r)]) == Answered(After(USERS, es), said, r, id)
  {
    OneMoreEvent(USERS, es, Update(r));
    OneMoreEvent(USERS, es + [Update(r)], Publish(r));
    AnswerSteps(After(USERS, es), said, r, second, id);
  }

  lemma AnswerTwice(es: seq<Event>, said: seq<Message>)
    requires After(USERS, es) ==
             Quiet(Talk(said, 0, 0), map[1 := Advancing(LOW, 0, 0), 2 := Advancing(HIGH, 0, 0)])
    ensures After(USERS, es + [Update(2)] + [Publish(2)] + [Update(1)] + [Publish(1)])
         == State(Talk(said, 0, 1), map[], [HIGH, LOW], [HIGH, LOW], [HIGH, LOW])
  {
    AnswerIn(es, said, 2, 0, 2);
    AnswerIn(es + [Update(2)] + [Publish(2)], said, 1, 2, 1);
    var windows: map<Request, Window> := map[1 := Advancing(LOW, 0, 0), 2 := Advancing(HIGH, 0, 0)];
    assert windows - {2} - {1} == map[];
    assert [] + [HIGH] + [LOW] == [HIGH, LOW];
  }

  /** Two sessions of user 2 acknowledge messages 1 and 2: both select, then the higher one is written and broadcast,
      then the lower one. */
  function TwoAcknowledgements(): seq<Event> {
    Talking() + [Select(1, LOW)] + [Select(2, HIGH)] + [Update(2)] + [Publish(2)] + [Update(1)] + [Publish(1)]
  }

  lemma BothAnswered()
    ensures After(USERS, TwoAcknowledgements()) ==
            State(Talk(SAID, 0, 1), map[], [HIGH, LOW], [HIGH, LOW], [HIGH, LOW])
  {
    TalkingIsTalk();
    SaidIsExpected(LOW);
    SaidIsExpected(HIGH);
    SelectTwice(Talking(), SAID);
    AnswerTwice(Talking() + [Select(1, LOW)] + [Select(2, HIGH)], SAID);
  }

  /** The lower watermark wins although the higher id was answered, and the broadcasts go down. */
  lemma {:induction false} RacingAcknowledgements()
    ensures var s := After(USERS, TwoAcknowledgements());
            && Mark(s.db, 2, 1) == 1 && HIGH in s.answered && s.broadcasts == [HIGH, LOW]
  {
    BothAnswered();
    FindStatus(SAID, 0, 1);
  }
}
