/** One small conversation, step by step, for the concrete runs in which a promise does not hold. */
module Scenario {
  import opened Collections
  import opened Models
  import opened Queries
  import opened Store
  import opened Writes

  const USERS: set<UserId> := {1, 2}
  const CHAT: Chat := Chat(1, Direct, [1, 2], 0, false)
  const HELLO: Message := Message(1, 1, 1, "", 0, false)
  const SAID: seq<Message> := [HELLO, Message(2, 1, 1, "", 1, false)]
  const LOW: Ack := Ack(2, 1, 1)
  const HIGH: Ack := Ack(2, 1, 2)

  function Statuses(first: MessageId, second: MessageId): seq<ReadStatus> {
    [ReadStatus(1, 1, Some(first)), ReadStatus(2, 1, Some(second))]
  }

  /** Users 1 and 2 have a chat with the given messages, and these watermarks. */
  function Talk(messages: seq<Message>, first: MessageId, second: MessageId): Database {
    Models.Database(USERS, [CHAT], messages, Statuses(first, second), 2, |messages| + 1)
  }

  lemma CreateTalk()
    ensures DirectChatExists(Empty(USERS), 1, 2) == Ok(false)
    ensures Apply(Empty(USERS), CreateChat(1, 2, 0)) == Talk([], 0, 0)
  {
    assert Filter(Empty(USERS).chats, DirectPair(1, 2)) == [];
  }

  lemma FindChat(db: Database)
    requires db.chats == [CHAT]
    ensures Filter(db.chats, HasId(1)) == [CHAT]
    ensures Participates(db, 1, 1) && Participates(db, 2, 1)
  {
    FilterAll(db.chats, HasId(1));
    assert CHAT in db.chats;
  }

  function TalkMore(messages: seq<Message>, first: MessageId, second: MessageId, at: Time): Database {
    Talk(messages + [Message(|messages| + 1, 1, 1, "", at, false)], first, second)
  }

  lemma TouchTalk()
    ensures Map([CHAT], Touch(1, 0)) == [CHAT]
  {
  }

  lemma Say(messages: seq<Message>, first: MessageId, second: MessageId, at: Time)
    ensures SaveMessage(Talk(messages, first, second), 1, 1, "", at, 0) == Ok(TalkMore(messages, first, second, at))
  {
    FindChat(Talk(messages, first, second));
    TouchTalk();
  }

  lemma FindStatus(messages: seq<Message>, first: MessageId, second: MessageId)
    ensures var db := Talk(messages, first, second);
            && Filter(db.statuses, StatusOf(2, 1)) == [ReadStatus(2, 1, Some(second))]
            && StatusesOf(db, 1) == Statuses(first, second)
            && Mark(db, 1, 1) == first && Mark(db, 2, 1) == second
  {
    var rows := Statuses(first, second);
    assert rows[..1] == [rows[0]];
    FilterAll(rows, OfChat(1));
    FilterNone([rows[0]], StatusOf(2, 1));
    assert OwnMark([rows[0]], 1) == Some(first);
  }

  lemma AcknowledgeInTalk(messages: seq<Message>, first: MessageId, second: MessageId, id: MessageId)
    requires second < id
    ensures Map(Statuses(first, second), Advance(2, 1, id)) == Statuses(first, id)
    ensures MarkLastRead(Talk(messages, first, second), 2, 1, id) == Ok((Talk(messages, first, id), true))
  {
    FindStatus(messages, first, second);
  }

  lemma HelloIsActive(first: MessageId, second: MessageId)
    ensures ActiveMessages(Talk([HELLO], first, second), 1) == [HELLO]
    ensures HELLO in ActiveMessages(Talk([HELLO], first, second), 1)
  {
    FilterAll([HELLO], ActiveIn(1));
  }

  lemma SaidIsExpected(a: Ack)
    requires a == LOW || a == HIGH
    ensures Expected(Talk(SAID, 0, 0), ReadMessage(2, 1, a.id))
  {
    FindChat(Talk(SAID, 0, 0));
    FilterAll(SAID, ActiveIn(1));
    assert SAID[a.id - 1] in ActiveMessages(Talk(SAID, 0, 0), 1);
  }

  lemma WriteInTalk(said: seq<Message>, second: MessageId, id: MessageId)
    ensures RowIsThere(Talk(said, 0, second), Ack(2, 1, id))
    ensures Written(Talk(said, 0, second), Ack(2, 1, id)) == Talk(said, 0, id)
  {
    FindStatus(said, 0, second);
    assert Map(Statuses(0, second), Advance(2, 1, id)) == Statuses(0, id);
  }
}
