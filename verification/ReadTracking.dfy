/** One watermark per user and chat against one flag per user and message, over every run. */
module ReadTracking {
  import opened Collections
  import opened Models
  import opened Queries
  import opened PageMeaning
  import opened DirectChats
  import opened Store

  // ---- the reference: a set of (reader, message) flags ----

  type Flags = set<(UserId, MessageId)>

  /** Acknowledging a message flags it and every earlier message of its chat for the reader. */
  function Acknowledged(db: Database, u: UserId, c: ChatId, id: MessageId): Flags {
    set m | m in db.messages && m.chatId == c && m.id <= id :: (u, m.id)
  }

  function FlagStep(db: Database, flags: Flags, t: Transaction): Flags {
    match t
    case ReadMessage(u, c, id) => flags + Acknowledged(db, u, c, id)
    case _ => flags
  }

  function FlagRun(db: Database, ts: seq<Transaction>): Flags {
    if ts == [] then {}
    else FlagStep(Run(db, ts[..|ts| - 1]), FlagRun(db, ts[..|ts| - 1]), ts[|ts| - 1])
  }

  /** The watermarks say the same as the flags, about every message of every chat. */
  ghost predicate Agree(db: Database, flags: Flags) {
    forall chat, u, m {:trigger m in db.messages, chat in db.chats, u in chat.users} ::
      chat in db.chats && u in chat.users && m in db.messages && m.chatId == chat.id ==>
        ((u, m.id) in flags <==> m.id <= Mark(db, u, chat.id))
  }

  ghost predicate FlagsKnown(db: Database, flags: Flags) {
    forall f :: f in flags ==> f.1 < db.nextMessageId
  }

  lemma MarkIsBelow(db: Database, chat: Chat, u: UserId)
    requires Consistent(db) && chat in db.chats && u in chat.users
    ensures Mark(db, u, chat.id) < db.nextMessageId
  {
    MarksOfParticipants(db, chat, u);
    var rows := StatusesOf(db, chat.id);
    assert rows[..|rows| - 1] == [rows[0]];
    assert OwnMark([rows[0]], u) == if rows[0].userId == u then rows[0].lastRead else None;
  }

  lemma SentMessageAgrees(db: Database, flags: Flags, v: UserId, c: ChatId, content: string, createdAt: Time, now: Time,
                          was: Chat, u: UserId, m: Message)
    requires Consistent(db) && SaveMessage(db, v, c, content, createdAt, now).Ok?
    requires Agree(db, flags) && FlagsKnown(db, flags) && was in db.chats && u in was.users && m.chatId == was.id
    requires m in SaveMessage(db, v, c, content, createdAt, now).value.messages
    ensures (u, m.id) in flags <==> m.id <= Mark(db, u, was.id)
  {
    if m !in db.messages {
      MarkIsBelow(db, was, u);
      assert m.id == db.nextMessageId;
    }
  }

  lemma SendKeepsAgree(db: Database, flags: Flags, v: UserId, c: ChatId, content: string, createdAt: Time, now: Time)
    requires Consistent(db) && Expected(db, SendMessage(v, c, content, createdAt, now))
    requires Agree(db, flags) && FlagsKnown(db, flags)
    ensures Agree(Apply(db, SendMessage(v, c, content, createdAt, now)), flags)
  {
    var db' := Apply(db, SendMessage(v, c, content, createdAt, now));
    SendSucceeds(db, v, c, content, createdAt, now);
    TouchKeepsLookups(db, c, now);
    forall chat, u, m | chat in db'.chats && u in chat.users && m in db'.messages && m.chatId == chat.id
      ensures (u, m.id) in flags <==> m.id <= Mark(db', u, chat.id)
    {
      var was :| was in db.chats && chat == Touch(c, now)(was);
      SentMessageAgrees(db, flags, v, c, content, createdAt, now, was, u, m);
    }
  }

  lemma ReadKeepsAgree(db: Database, flags: Flags, v: UserId, c: ChatId, id: MessageId)
    requires Consistent(db) && Expected(db, ReadMessage(v, c, id)) && Agree(db, flags)
    ensures Agree(Apply(db, ReadMessage(v, c, id)), flags + Acknowledged(db, v, c, id))
  {
    var db' := Apply(db, ReadMessage(v, c, id));
    var read :| read in db.chats && read.id == c && v in read.users;
    ReadMovesOneWatermark(db, read, v, id);
    forall chat, u, m | chat in db'.chats && u in chat.users && m in db'.messages && m.chatId == chat.id
      ensures (u, m.id) in flags + Acknowledged(db, v, c, id) <==> m.id <= Mark(db', u, chat.id)
    {
      assert chat in db.chats && m in db.messages;
      if chat.id == c {
        ChatIdsAreUnique(db, chat, read);
        assert u == v && m.id <= id ==> (u, m.id) in Acknowledged(db, v, c, id);
      } else {
        assert (u, m.id) !in Acknowledged(db, v, c, id) by {
          forall other | other in db.messages && other.chatId == c ensures other.id != m.id {
            MessageIdsAreUnique(db, other, m);
          }
        }
      }
    }
  }

  lemma CreateKeepsAgree(db: Database, flags: Flags, a: UserId, b: UserId, now: Time)
    requires Consistent(db) && Agree(db, flags)
    ensures Agree(CreateDirectChat(db, a, b, now), flags)
  {
    var db' := CreateDirectChat(db, a, b, now);
    forall chat, u, m | chat in db'.chats && u in chat.users && m in db'.messages && m.chatId == chat.id
      ensures (u, m.id) in flags <==> m.id <= Mark(db', u, chat.id)
    {
      assert chat in db.chats;
      CreateKeepsOthers(db, a, b, now, chat);
    }
  }

  lemma DeleteKeepsAgree(db: Database, flags: Flags, c: ChatId)
    requires Agree(db, flags)
    ensures Agree(DeleteChat(db, c), flags)
  {
    var db' := DeleteChat(db, c);
    forall chat, u, m | chat in db'.chats && u in chat.users && m in db'.messages && m.chatId == chat.id
      ensures (u, m.id) in flags <==> m.id <= Mark(db', u, chat.id)
    {
      assert chat in db.chats && m in db.messages;
      DeleteKeepsRows(db, c, chat.id);
    }
  }

  lemma StepKeepsAgree(db: Database, flags: Flags, t: Transaction)
    requires Consistent(db) && Expected(db, t) && Agree(db, flags) && FlagsKnown(db, flags)
    ensures Agree(Apply(db, t), FlagStep(db, flags, t)) && FlagsKnown(Apply(db, t), FlagStep(db, flags, t))
  {
    match t
    case CreateChat(a, b, now) =>
      CreateKeepsAgree(db, flags, a, b, now);
    case SendMessage(u, c, content, createdAt, now) =>
      SendKeepsAgree(db, flags, u, c, content, createdAt, now);
    case ReadMessage(u, c, id) =>
      ReadKeepsAgree(db, flags, u, c, id);
    case RemoveChat(u, c) =>
      DeleteKeepsAgree(db, flags, c);
  }

  lemma {:induction false} WatermarksRefineFlags(users: set<UserId>, ts: seq<Transaction>)
    requires ExpectedRun(Empty(users), ts)
    ensures Agree(Run(Empty(users), ts), FlagRun(Empty(users), ts))
    ensures FlagsKnown(Run(Empty(users), ts), FlagRun(Empty(users), ts))
  {
    if ts != [] {
      var n := |ts| - 1;
      assert forall i :: 0 <= i < n ==> ts[..n][..i] == ts[..i];
      WatermarksRefineFlags(users, ts[..n]);
      EveryRunIsConsistent(users, ts[..n]);
      StepKeepsAgree(Run(Empty(users), ts[..n]), FlagRun(Empty(users), ts[..n]), ts[n]);
    }
  }

  // ---- acknowledgements ----

  function By(u: UserId, c: ChatId): Ack -> bool {
    (b: Ack) => b.user == u && b.chat == c
  }

  function Highest(ids: seq<MessageId>): MessageId {
    if ids == [] then 0 else Max(Highest(ids[..|ids| - 1]), ids[|ids| - 1])
  }

  lemma {:induction false} HighestOfSet(ids: seq<MessageId>)
    ensures forall id :: id in ids ==> id <= Highest(ids)
    ensures ids != [] ==> Highest(ids) in ids
  {
    if ids != [] {
      var n := |ids| - 1;
      HighestOfSet(ids[..n]);
      forall i | 0 <= i < |ids| ensures ids[i] <= Highest(ids) {
        assert i < n ==> ids[i] in ids[..n];
      }
      assert n > 0 && Highest(ids) != ids[n] ==> Highest(ids[..n]) in ids[..n];
    }
  }

  lemma SameHighest(ids: seq<MessageId>, others: seq<MessageId>)
    requires forall id :: id in ids <==> id in others
    ensures Highest(ids) == Highest(others)
  {
    HighestOfSet(ids);
    HighestOfSet(others);
    assert ids != [] ==> ids[0] in others;
    assert others != [] ==> others[0] in ids;
  }

  /** The highest id that a user acknowledged in a chat, 0 for none. */
  function HighestBy(acks: seq<Ack>, u: UserId, c: ChatId): MessageId {
    Highest(Map(Filter(acks, By(u, c)), (a: Ack) => a.id))
  }

  lemma HighestByLast(acks: seq<Ack>, u: UserId, c: ChatId)
    requires acks != []
    ensures var last := acks[|acks| - 1];
            HighestBy(acks, u, c) ==
              if By(u, c)(last) then Max(HighestBy(acks[..|acks| - 1], u, c), last.id)
              else HighestBy(acks[..|acks| - 1], u, c)
  {
    var n := |acks| - 1;
    var ids := (a: Ack) => a.id;
    var before := Filter(acks[..n], By(u, c));
    if By(u, c)(acks[n]) {
      var all := Map(before + [acks[n]], ids);
      assert all[..|all| - 1] == Map(before, ids);
    }
  }

  lemma IdsByMembers(acks: seq<Ack>, u: UserId, c: ChatId, id: MessageId)
    ensures id in Map(Filter(acks, By(u, c)), (a: Ack) => a.id) <==> Ack(u, c, id) in acks
  {
    var mine := Filter(acks, By(u, c));
    var ids := Map(mine, (a: Ack) => a.id);
    if Ack(u, c, id) in acks {
      FilterKeeps(acks, By(u, c), Ack(u, c, id));
      var i :| 0 <= i < |mine| && mine[i] == Ack(u, c, id);
      assert ids[i] == id;
    }
    if id in ids {
      var i :| 0 <= i < |ids| && ids[i] == id;
      assert mine[i] in mine;
    }
  }

  lemma SameAcksSameHighest(acks: seq<Ack>, others: seq<Ack>, u: UserId, c: ChatId)
    requires forall a :: a in acks <==> a in others
    ensures HighestBy(acks, u, c) == HighestBy(others, u, c)
  {
    var ids := (a: Ack) => a.id;
    forall id ensures id in Map(Filter(acks, By(u, c)), ids) <==> id in Map(Filter(others, By(u, c)), ids) {
      IdsByMembers(acks, u, c, id);
      IdsByMembers(others, u, c, id);
    }
    SameHighest(Map(Filter(acks, By(u, c)), ids), Map(Filter(others, By(u, c)), ids));
  }

  /** The message_read events of a run, in order. */
  function AcksOf(ts: seq<Transaction>): seq<Ack> {
    if ts == [] then []
    else
      var rest := AcksOf(ts[..|ts| - 1]);
      match ts[|ts| - 1]
      case ReadMessage(u, c, id) => rest + [Ack(u, c, id)]
      case _ => rest
  }

  lemma NewChatStatuses(db: Database, a: UserId, b: UserId, now: Time)
    requires RowsConsistent(db)
    ensures StatusesOf(CreateDirectChat(db, a, b, now), db.nextChatId)
         == [ReadStatus(a, db.nextChatId, Some(0)), ReadStatus(b, db.nextChatId, Some(0))]
  {
    var added := [ReadStatus(a, db.nextChatId, Some(0)), ReadStatus(b, db.nextChatId, Some(0))];
    FilterAppend(db.statuses, added, OfChat(db.nextChatId));
    FilterNone(db.statuses, OfChat(db.nextChatId));
    FilterAll(added, OfChat(db.nextChatId));
  }

  lemma NewChatIsUnread(db: Database, a: UserId, b: UserId, now: Time, u: UserId)
    requires RowsConsistent(db) && a != b
    ensures Mark(CreateDirectChat(db, a, b, now), u, db.nextChatId) == 0
  {
    var added := [ReadStatus(a, db.nextChatId, Some(0)), ReadStatus(b, db.nextChatId, Some(0))];
    NewChatStatuses(db, a, b, now);
    assert added[..1] == [added[0]];
    assert OwnMark([added[0]], u) == if a == u then Some(0) else None;
  }

  lemma MarkAfterSend(db: Database, t: Transaction, u: UserId, chat: Chat)
    requires RowsConsistent(db) && t.SendMessage? && Expected(db, t) && chat in Apply(db, t).chats
    ensures chat.id < db.nextChatId
    ensures exists was :: was in db.chats && was.id == chat.id && was.users == chat.users
    ensures Mark(Apply(db, t), u, chat.id) == Mark(db, u, chat.id)
  {
    SendSucceeds(db, t.author, t.chat, t.content, t.createdAt, t.now);
    TouchKeepsLookups(db, t.chat, t.now);
    var was :| was in db.chats && chat == Touch(t.chat, t.now)(was);
    assert ChatConsistent(db, was);
  }

  lemma MarkAfterRead(db: Database, v: UserId, c: ChatId, id: MessageId, u: UserId, chat: Chat)
    requires RowsConsistent(db) && Expected(db, ReadMessage(v, c, id)) && chat in db.chats && u in chat.users
    ensures Mark(Apply(db, ReadMessage(v, c, id)), u, chat.id) ==
            if u == v && chat.id == c then Max(Mark(db, u, c), id) else Mark(db, u, chat.id)
  {
    var read :| read in db.chats && read.id == c && v in read.users;
    ReadMovesOneWatermark(db, read, v, id);
    if chat.id == c {
      ChatIdsAreUnique(db, chat, read);
    }
  }

  /** What one transaction does to a watermark. */
  lemma MarkAfter(db: Database, t: Transaction, u: UserId, chat: Chat)
    requires Consistent(db) && Expected(db, t) && chat in Apply(db, t).chats && u in chat.users
    ensures if chat.id < db.nextChatId then
              && (exists was :: was in db.chats && was.id == chat.id && was.users == chat.users)
              && Mark(Apply(db, t), u, chat.id) ==
                   if t.ReadMessage? && t.user == u && t.chat == chat.id then Max(Mark(db, u, chat.id), t.id)
                   else Mark(db, u, chat.id)
            else t.CreateChat? && Mark(Apply(db, t), u, chat.id) == 0
    ensures Apply(db, t).nextChatId >= db.nextChatId
  {
    match t
    case CreateChat(a, b, now) =>
      if chat in db.chats {
        CreateKeepsOthers(db, a, b, now, chat);
      } else {
        NewChatIsUnread(db, a, b, now, u);
      }
    case SendMessage(_, _, _, _, _) => MarkAfterSend(db, t, u, chat);
    case ReadMessage(v, c, id) => MarkAfterRead(db, v, c, id, u, chat);
    case RemoveChat(v, c) =>
      DeleteKeepsRows(db, c, chat.id);
  }

  lemma {:induction false} AcksKnowTheirChat(users: set<UserId>, ts: seq<Transaction>, a: Ack)
    requires ExpectedRun(Empty(users), ts) && a in AcksOf(ts)
    ensures a.chat < Run(Empty(users), ts).nextChatId
  {
    var n := |ts| - 1;
    assert forall i :: 0 <= i < n ==> ts[..n][..i] == ts[..i];
    var db := Run(Empty(users), ts[..n]);
    EveryRunIsConsistent(users, ts[..n]);
    if a in AcksOf(ts[..n]) {
      AcksKnowTheirChat(users, ts[..n], a);
    } else {
      var chat :| chat in db.chats && chat.id == a.chat && a.user in chat.users;
      assert ChatConsistent(db, chat);
    }
    assert Apply(db, ts[n]).nextChatId >= db.nextChatId;
  }

  lemma NobodyAcknowledged(users: set<UserId>, ts: seq<Transaction>, u: UserId, c: ChatId)
    requires ExpectedRun(Empty(users), ts) && c >= Run(Empty(users), ts).nextChatId
    ensures HighestBy(AcksOf(ts), u, c) == 0
  {
    forall a | a in AcksOf(ts) ensures !By(u, c)(a) {
      AcksKnowTheirChat(users, ts, a);
    }
    FilterNone(AcksOf(ts), By(u, c));
  }

  /** In every run, whatever else happens in between, a watermark is the highest id that its user acknowledged in
      its chat. */
  lemma {:induction false} MarkIsHighestAcknowledged(users: set<UserId>, ts: seq<Transaction>, chat: Chat, u: UserId)
    requires ExpectedRun(Empty(users), ts)
    requires chat in Run(Empty(users), ts).chats && u in chat.users
    ensures Mark(Run(Empty(users), ts), u, chat.id) == HighestBy(AcksOf(ts), u, chat.id)
  {
    if ts != [] {
      var n := |ts| - 1;
      assert forall i :: 0 <= i < n ==> ts[..n][..i] == ts[..i];
      var db := Run(Empty(users), ts[..n]);
      EveryRunIsConsistent(users, ts[..n]);
      MarkAfter(db, ts[n], u, chat);
      if chat.id < db.nextChatId {
        var was :| was in db.chats && was.id == chat.id && was.users == chat.users;
        MarkIsHighestAcknowledged(users, ts[..n], was, u);
      } else {
        NobodyAcknowledged(users, ts[..n], u, chat.id);
      }
      if ts[n].ReadMessage? {
        HighestByLast(AcksOf(ts), u, chat.id);
        assert AcksOf(ts)[..|AcksOf(ts)| - 1] == AcksOf(ts[..n]);
      }
    }
  }

  // ---- acknowledgements of any users in any chats, in any order ----

  function ReadAll(db: Database, acks: seq<Ack>): Database {
    if acks == [] then db
    else
      var last := acks[|acks| - 1];
      Apply(ReadAll(db, acks[..|acks| - 1]), ReadMessage(last.user, last.chat, last.id))
  }

  /** Every acknowledgement comes from a participant and names an active message of its chat. */
  ghost predicate ExpectedAcks(db: Database, acks: seq<Ack>) {
    forall a :: a in acks ==> Expected(db, ReadMessage(a.user, a.chat, a.id))
  }

  function Raise(acks: seq<Ack>): ReadStatus -> ReadStatus {
    (r: ReadStatus) =>
      if r.lastRead.Some? && r.lastRead.value < HighestBy(acks, r.userId, r.chatId)
      then r.(lastRead := Some(HighestBy(acks, r.userId, r.chatId))) else r
  }

  lemma OneAck(u: UserId, c: ChatId, id: MessageId, r: ReadStatus)
    ensures HighestBy([Ack(u, c, id)], r.userId, r.chatId) == if r.userId == u && r.chatId == c then id else 0
  {
    HighestByLast([Ack(u, c, id)], r.userId, r.chatId);
  }

  lemma RaiseIsAdvance(db: Database, u: UserId, chat: Chat, id: MessageId, r: ReadStatus)
    requires ChatConsistent(db, chat) && u in chat.users && r in db.statuses
    ensures Raise([Ack(u, chat.id, id)])(r) == if id > Mark(db, u, chat.id) then Advance(u, chat.id, id)(r) else r
  {
    StatusLookupIsSingle(db, chat, u);
    OneAck(u, chat.id, id, r);
    if r.userId == u && r.chatId == chat.id {
      FilterKeeps(db.statuses, StatusOf(u, chat.id), r);
    }
  }

  lemma ReadRaises(db: Database, u: UserId, c: ChatId, id: MessageId)
    requires Consistent(db) && Expected(db, ReadMessage(u, c, id))
    ensures Apply(db, ReadMessage(u, c, id)) == db.(statuses := Map(db.statuses, Raise([Ack(u, c, id)])))
  {
    var chat :| chat in db.chats && chat.id == c && u in chat.users;
    ReadIsOneMap(db, chat, u, id);
    var rows := db.statuses;
    forall i | 0 <= i < |rows|
      ensures Raise([Ack(u, c, id)])(rows[i]) == if id > Mark(db, u, c) then Advance(u, c, id)(rows[i]) else rows[i]
    {
      RaiseIsAdvance(db, u, chat, id, rows[i]);
    }
    if id > Mark(db, u, c) {
      assert Map(rows, Raise([Ack(u, c, id)])) == Map(rows, Advance(u, c, id));
    } else {
      assert Map(rows, Raise([Ack(u, c, id)])) == rows;
    }
  }

  lemma RaiseTwice(rows: seq<ReadStatus>, acks: seq<Ack>)
    requires acks != []
    ensures Map(Map(rows, Raise(acks[..|acks| - 1])), Raise([acks[|acks| - 1]])) == Map(rows, Raise(acks))
  {
    var n := |acks| - 1;
    forall i | 0 <= i < |rows| ensures Raise([acks[n]])(Raise(acks[..n])(rows[i])) == Raise(acks)(rows[i]) {
      OneAck(acks[n].user, acks[n].chat, acks[n].id, rows[i]);
      HighestByLast(acks, rows[i].userId, rows[i].chatId);
    }
  }

  lemma StillExpected(db: Database, acks: seq<Ack>, a: Ack)
    requires Expected(db, ReadMessage(a.user, a.chat, a.id))
    requires ReadAll(db, acks) == db.(statuses := ReadAll(db, acks).statuses)
    ensures Expected(ReadAll(db, acks), ReadMessage(a.user, a.chat, a.id))
  {
    var chat :| chat in db.chats && chat.id == a.chat && a.user in chat.users;
    assert chat in ReadAll(db, acks).chats;
  }

  /** Any acknowledgements leave the tables with every watermark raised to the highest of its own. */
  lemma {:induction false} ReadAllIsHighest(db: Database, acks: seq<Ack>)
    requires Consistent(db) && ExpectedAcks(db, acks)
    ensures ReadAll(db, acks) == db.(statuses := Map(db.statuses, Raise(acks))) && Consistent(ReadAll(db, acks))
  {
    if acks == [] {
      assert Map(db.statuses, Raise(acks)) == db.statuses;
    } else {
      var n := |acks| - 1;
      assert forall a :: a in acks[..n] ==> a in acks;
      ReadAllIsHighest(db, acks[..n]);
      StillExpected(db, acks[..n], acks[n]);
      var mid := ReadAll(db, acks[..n]);
      ReadKeepsConsistent(mid, acks[n].user, acks[n].chat, acks[n].id);
      ReadRaises(mid, acks[n].user, acks[n].chat, acks[n].id);
      RaiseTwice(db.statuses, acks);
    }
  }

  lemma MiddleIsExpected(db: Database, acks: seq<Ack>, a: Ack, chat: Chat)
    requires Consistent(db) && ExpectedAcks(db, acks) && Expected(db, ReadMessage(a.user, a.chat, a.id))
    requires chat in db.chats
    ensures RowsConsistent(ReadAll(db, acks)) && chat in ReadAll(db, acks).chats
    ensures Expected(ReadAll(db, acks), ReadMessage(a.user, a.chat, a.id))
  {
    ReadAllIsHighest(db, acks);
    StillExpected(db, acks, a);
  }

  lemma OneMoreAck(db: Database, acks: seq<Ack>, a: Ack, chat: Chat, u: UserId)
    requires Consistent(db) && ExpectedAcks(db, acks) && Expected(db, ReadMessage(a.user, a.chat, a.id))
    requires chat in db.chats && u in chat.users
    ensures var mid := ReadAll(db, acks);
            Mark(Apply(mid, ReadMessage(a.user, a.chat, a.id)), u, chat.id) ==
              if By(u, chat.id)(a) then Max(Mark(mid, u, chat.id), a.id) else Mark(mid, u, chat.id)
  {
    MiddleIsExpected(db, acks, a, chat);
    MarkAfterRead(ReadAll(db, acks), a.user, a.chat, a.id, u, chat);
  }

  /** Each watermark ends as the maximum of its start and its own acknowledged ids. */
  lemma {:induction false} ReadAllMark(db: Database, acks: seq<Ack>, chat: Chat, u: UserId)
    requires Consistent(db) && ExpectedAcks(db, acks) && chat in db.chats && u in chat.users
    ensures Mark(ReadAll(db, acks), u, chat.id) == Max(Mark(db, u, chat.id), HighestBy(acks, u, chat.id))
  {
    if acks != [] {
      var n := |acks| - 1;
      assert forall a :: a in acks[..n] ==> a in acks;
      ReadAllMark(db, acks[..n], chat, u);
      OneMoreAck(db, acks[..n], acks[n], chat, u);
      HighestByLast(acks, u, chat.id);
    }
  }

  /** Reordering or repeating acknowledgements, of any users in any chats, does not change the outcome. */
  lemma {:induction false} ReadOrderIsIrrelevant(db: Database, acks: seq<Ack>, others: seq<Ack>)
    requires Consistent(db) && ExpectedAcks(db, acks)
    requires forall a :: a in acks <==> a in others
    ensures ReadAll(db, acks) == ReadAll(db, others)
  {
    ReadAllIsHighest(db, acks);
    ReadAllIsHighest(db, others);
    forall i | 0 <= i < |db.statuses| ensures Raise(acks)(db.statuses[i]) == Raise(others)(db.statuses[i]) {
      SameAcksSameHighest(acks, others, db.statuses[i].userId, db.statuses[i].chatId);
    }
    assert Map(db.statuses, Raise(acks)) == Map(db.statuses, Raise(others));
  }

  // ---- message_read broadcasts ----

  const BROADCAST_ID: Ack -> int := (b: Ack) => b.id

  /** message_read_handler broadcasts exactly when mark_last_read_message returns a read status. */
  function Announced(db: Database, t: Transaction): seq<Ack> {
    match t
    case ReadMessage(u, c, id) =>
      var r := MarkLastRead(db, u, c, id);
      if r.Ok? && r.value.1 then [Ack(u, c, id)] else []
    case _ => []
  }

  function Announcements(db: Database, ts: seq<Transaction>): seq<Ack> {
    if ts == [] then []
    else Announcements(db, ts[..|ts| - 1]) + Announced(Run(db, ts[..|ts| - 1]), ts[|ts| - 1])
  }

  ghost predicate BoundedByMarks(db: Database, log: seq<Ack>) {
    && (forall b :: b in log ==> b.chat < db.nextChatId)
    && (forall b, chat :: b in log && chat in db.chats && chat.id == b.chat && b.user in chat.users ==>
          b.id <= Mark(db, b.user, b.chat))
  }

  lemma AnnouncedIsAdvance(db: Database, t: Transaction)
    requires Consistent(db) && Expected(db, t)
    ensures |Announced(db, t)| <= 1
    ensures forall b :: b in Announced(db, t) ==>
      && t == ReadMessage(b.user, b.chat, b.id)
      && Mark(db, b.user, b.chat) < b.id == Mark(Apply(db, t), b.user, b.chat)
    ensures t.ReadMessage? && Mark(db, t.user, t.chat) < Mark(Apply(db, t), t.user, t.chat) ==>
      Announced(db, t) == [Ack(t.user, t.chat, t.id)]
  {
    if t.ReadMessage? {
      var chat :| chat in db.chats && chat.id == t.chat && t.user in chat.users;
      ReadMovesOneWatermark(db, chat, t.user, t.id);
    }
  }

  lemma StepKeepsBounds(db: Database, t: Transaction, log: seq<Ack>)
    requires Consistent(db) && Expected(db, t) && BoundedByMarks(db, log)
    ensures BoundedByMarks(Apply(db, t), log + Announced(db, t))
  {
    var db' := Apply(db, t);
    AnnouncedIsAdvance(db, t);
    assert db'.nextChatId >= db.nextChatId;
    forall b | b in log + Announced(db, t) ensures b.chat < db'.nextChatId {
      if b in Announced(db, t) {
        var chat :| chat in db.chats && chat.id == b.chat && b.user in chat.users;
        assert ChatConsistent(db, chat);
      }
    }
    forall b, chat | b in log + Announced(db, t) && chat in db'.chats && chat.id == b.chat && b.user in chat.users
      ensures b.id <= Mark(db', b.user, b.chat)
    {
      if b in log {
        MarkAfter(db, t, b.user, chat);
      }
    }
  }

  lemma FilterFew<T(!new)>(s: seq<T>, p: T -> bool)
    requires |s| <= 1
    ensures Filter(s, p) == if s != [] && p(s[0]) then [s[0]] else []
  {
    if s != [] {
      assert s == [s[0]] && Filter(s[..0], p) == [];
    }
  }

  lemma LoggedAreBelow(db: Database, log: seq<Ack>, u: UserId, c: ChatId)
    requires BoundedByMarks(db, log) && Participates(db, u, c)
    ensures forall b :: b in Filter(log, By(u, c)) ==> BROADCAST_ID(b) <= Mark(db, u, c)
  {
    var chat :| chat in db.chats && chat.id == c && u in chat.users;
  }

  lemma IncreasingAppend<T>(s: seq<T>, x: T, key: T -> int)
    requires Increasing(s, key) && forall y :: y in s ==> key(y) < key(x)
    ensures Increasing(s + [x], key)
  {
  }

  lemma LastIsHighest(db: Database, t: Transaction, log: seq<Ack>, u: UserId, c: ChatId)
    requires Consistent(db) && Expected(db, t) && BoundedByMarks(db, log)
    requires Increasing(Filter(log, By(u, c)), BROADCAST_ID)
    ensures Increasing(Filter(log + Announced(db, t), By(u, c)), BROADCAST_ID)
  {
    AnnouncedIsAdvance(db, t);
    var added := Announced(db, t);
    FilterAppend(log, added, By(u, c));
    FilterFew(added, By(u, c));
    if added != [] && By(u, c)(added[0]) {
      assert added[0] in added;
      LoggedAreBelow(db, log, u, c);
      IncreasingAppend(Filter(log, By(u, c)), added[0], BROADCAST_ID);
    }
  }

  /** For each user and chat the message_read broadcasts of a run carry strictly increasing ids,
      one for each strict advance of the watermark. */
  lemma {:induction false} BroadcastsIncrease(users: set<UserId>, ts: seq<Transaction>, u: UserId, c: ChatId)
    requires ExpectedRun(Empty(users), ts)
    ensures Increasing(Filter(Announcements(Empty(users), ts), By(u, c)), BROADCAST_ID)
    ensures BoundedByMarks(Run(Empty(users), ts), Announcements(Empty(users), ts))
  {
    if ts != [] {
      var n := |ts| - 1;
      assert forall i :: 0 <= i < n ==> ts[..n][..i] == ts[..i];
      BroadcastsIncrease(users, ts[..n], u, c);
      EveryRunIsConsistent(users, ts[..n]);
      var db, log := Run(Empty(users), ts[..n]), Announcements(Empty(users), ts[..n]);
      StepKeepsBounds(db, ts[n], log);
      LastIsHighest(db, ts[n], log, u, c);
    }
  }

  // ---- everywhere the watermarks are used ----

  /** What a page would show if every message carried its own read flag. */
  function FlaggedViews(flags: Flags, chat: Chat, rows: seq<Message>): seq<MessageView>
    requires |chat.users| == 2
  {
    Map(rows, (m: Message) =>
      MessageView(m.id, m.chatId, m.author, m.content, m.createdAt, (Peer(chat, m.author), m.id) in flags))
  }

  function NotFlagged(flags: Flags, u: UserId): Message -> bool {
    (m: Message) => m.author != u && (u, m.id) !in flags
  }

  function Unseen(flags: Flags, u: UserId): Message -> bool {
    (m: Message) => (u, m.id) !in flags
  }

  lemma FlagsShowTruth(db: Database, flags: Flags, chat: Chat, rows: seq<Message>)
    requires Consistent(db) && Agree(db, flags) && chat in db.chats
    requires forall m :: m in rows ==> m in db.messages && m.chatId == chat.id
    ensures TrueViews(db, chat, rows) == FlaggedViews(flags, chat, rows)
  {
    forall i | 0 <= i < |rows| ensures TrueViews(db, chat, rows)[i] == FlaggedViews(flags, chat, rows)[i] {
      assert rows[i] in rows;
      MarksOfParticipants(db, chat, rows[i].author);
    }
  }

  lemma FlagsCountTruth(db: Database, flags: Flags, chat: Chat, u: UserId)
    requires Consistent(db) && Agree(db, flags) && chat in db.chats && u in chat.users
    ensures ChatStats(db, u, chat.id) == Ok(|Filter(ActiveMessages(db, chat.id), NotFlagged(flags, u))|)
  {
    StatsMeaning(db, chat, u);
    MarksOfParticipants(db, chat, u);
    forall m | m in ActiveMessages(db, chat.id)
      ensures NotFlagged(flags, u)(m) == (m.author != u && !IsReadByPeer(db, chat, m))
    {
      assert m in db.messages && m.author in chat.users;
    }
    FilterCongruent(ActiveMessages(db, chat.id), NotFlagged(flags, u),
                    (m: Message) => m.author != u && !IsReadByPeer(db, chat, m));
  }

  lemma FlagsSizeTruth(db: Database, flags: Flags, chat: Chat, u: UserId, requested: nat)
    requires Consistent(db) && Agree(db, flags) && chat in db.chats && u in chat.users
    ensures var unseen := |Filter(ActiveMessages(db, chat.id), Unseen(flags, u))|;
            && UnreadCount(db, u, chat.id) == Ok(unseen)
            && PageSize(db, u, chat.id, requested) == Ok(Max(requested, unseen))
  {
    UnreadCountIsAboveMark(db, chat, u);
    forall m | m in ActiveMessages(db, chat.id) ensures Unseen(flags, u)(m) == IdAbove(Mark(db, u, chat.id))(m) {
      assert m in db.messages;
    }
    FilterCongruent(ActiveMessages(db, chat.id), Unseen(flags, u), IdAbove(Mark(db, u, chat.id)));
  }

  lemma FlagsAnnounceTruth(db: Database, flags: Flags, chat: Chat, u: UserId, m: Message)
    requires Consistent(db) && Agree(db, flags) && chat in db.chats && u in chat.users
    requires m in ActiveMessages(db, chat.id)
    ensures Announced(db, ReadMessage(u, chat.id, m.id)) == if (u, m.id) in flags then [] else [Ack(u, chat.id, m.id)]
  {
    assert m in db.messages;
    ReadMovesOneWatermark(db, chat, u, m.id);
  }

  /** In every run, first pages, older pages, page sizes, badges and read broadcasts are what one flag per message
      would give. */
  lemma {:induction false} CompactFormAgrees(users: set<UserId>, ts: seq<Transaction>, chat: Chat, u: UserId,
                                             limit: nat, before: Time)
    requires ExpectedRun(Empty(users), ts)
    requires chat in Run(Empty(users), ts).chats && u in chat.users
    ensures |chat.users| == 2
    ensures var db, flags := Run(Empty(users), ts), FlagRun(Empty(users), ts);
            var newest, older := NewestFirst(db, chat.id), NewestBefore(db, chat.id, before);
            && ChatMessages(db, u, chat.id, limit).page
                 == Page(FlaggedViews(flags, chat, Take(newest, limit)), |newest| > limit)
            && OlderMessages(db, u, chat.id, limit, before)
                 == Ok(Page(FlaggedViews(flags, chat, Take(older, limit)), |older| > limit))
            && PageSize(db, u, chat.id, limit)
                 == Ok(Max(limit, |Filter(ActiveMessages(db, chat.id), Unseen(flags, u))|))
            && ChatStats(db, u, chat.id) == Ok(|Filter(ActiveMessages(db, chat.id), NotFlagged(flags, u))|)
            && forall m :: m in ActiveMessages(db, chat.id) ==>
                 Announced(db, ReadMessage(u, chat.id, m.id))
                   == if (u, m.id) in flags then [] else [Ack(u, chat.id, m.id)]
  {
    var db, flags := Run(Empty(users), ts), FlagRun(Empty(users), ts);
    EveryRunIsConsistent(users, ts);
    WatermarksRefineFlags(users, ts);
    FirstPageMeaning(db, chat, u, limit);
    OlderPageMeaning(db, chat, u, limit, before);
    ActiveRowsBelong(db, chat.id, CreatedBefore(before));
    FlagsShowTruth(db, flags, chat, Take(NewestFirst(db, chat.id), limit));
    FlagsShowTruth(db, flags, chat, Take(NewestBefore(db, chat.id, before), limit));
    FlagsCountTruth(db, flags, chat, u);
    FlagsSizeTruth(db, flags, chat, u, limit);
    forall m | m in ActiveMessages(db, chat.id)
      ensures Announced(db, ReadMessage(u, chat.id, m.id)) == if (u, m.id) in flags then [] else [Ack(u, chat.id, m.id)]
    {
      FlagsAnnounceTruth(db, flags, chat, u, m);
    }
  }

  ghost function FlaggedUnread(db: Database, flags: Flags, u: UserId): set<Message> {
    set m | m in db.messages && !m.isDeleted && NotFlagged(flags, u)(m) &&
            exists chat :: chat in db.chats && DirectOf(u)(chat) && m.chatId == chat.id
  }

  lemma FlagsTotalTruth(db: Database, flags: Flags, u: UserId)
    requires Consistent(db) && Agree(db, flags)
    ensures FlaggedUnread(db, flags, u) == UnreadMessagesOf(db, u)
  {
    forall m, chat {:trigger m in db.messages, chat in db.chats} |
      m in db.messages && m.author != u && chat in db.chats && DirectOf(u)(chat) && m.chatId == chat.id
      ensures |chat.users| == 2 && ((u, m.id) in flags <==> IsReadByPeer(db, chat, m))
    {
      MarksOfParticipants(db, chat, u);
    }
  }

  /** In every run the list of direct chats has the counts and the total that one flag per message would give. */
  lemma {:induction false} CompactListAgrees(users: set<UserId>, ts: seq<Transaction>, u: UserId)
    requires ExpectedRun(Empty(users), ts)
    ensures var db, flags := Run(Empty(users), ts), FlagRun(Empty(users), ts);
            var chats, list := UserDirectChats(db, u), FreshList(db, u);
            && |list.chats| == |chats|
            && (forall i :: 0 <= i < |chats| ==>
                  && list.chats[i].chat == chats[i].id
                  && list.chats[i].newMessages == |Filter(ActiveMessages(db, chats[i].id), NotFlagged(flags, u))|)
            && list.total == |FlaggedUnread(db, flags, u)|
  {
    var db, flags := Run(Empty(users), ts), FlagRun(Empty(users), ts);
    EveryRunIsConsistent(users, ts);
    WatermarksRefineFlags(users, ts);
    FreshListMeaning(db, u);
    var chats := UserDirectChats(db, u);
    forall i | 0 <= i < |chats|
      ensures FreshList(db, u).chats[i] ==
              ChatSummary(chats[i].id, |Filter(ActiveMessages(db, chats[i].id), NotFlagged(flags, u))|)
    {
      FlagsCountTruth(db, flags, chats[i], u);
      StatsMeaning(db, chats[i], u);
    }
    FlagsTotalTruth(db, flags, u);
  }
}
