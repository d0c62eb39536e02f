/** What one handler does to the tables, the cache and the broker, and how that is a run of the transactions and of
    the cache protocol. */
module Effects {
  import opened Collections
  import opened Models
  import opened Queries
  import opened Store
  import opened ReadTracking
  import opened CacheProtocol
  import opened WriterRuns
  import opened Managers
  import Presence

  datatype Payload =
    | NewMessage(id: MessageId, chat: ChatId, author: UserId, content: string, createdAt: Time)
    | MessageRead(user: UserId, chat: ChatId, id: MessageId)
    | StatusNote(user: UserId, online: bool)

  /** A broadcast, with the channel that it goes out on. */
  type Publication = (ChatGuid, Payload)

  /** The tables, the cache, what was published and who was marked online or offline, which all sessions share. */
  datatype World = Shared(tables: Database, entries: Cache, published: seq<Publication>, log: seq<Presence.Mark>)

  /** The lists of the chat's users are cleared, then the pages of the chat. */
  function ClearedBySend(entries: Cache, tables: Database, chatGuid: ChatGuid, chatId: ChatId): Cache {
    Without(Cleared(entries, ClearLists(UsersOf(tables, chatId))), PagesOf(chatGuid))
  }

  lemma UsersAfterSend(tables: Database, u: UserId, c: ChatId, content: string, createdAt: Time, now: Time)
    requires SaveMessage(tables, u, c, content, createdAt, now).Ok?
    ensures UsersOf(SaveMessage(tables, u, c, content, createdAt, now).value, c) == UsersOf(tables, c)
  {
    FilterMap(tables.chats, Touch(c, now), HasId(c), HasId(c));
  }

  /** new_message_handler commits and clears as the split writer of the cache protocol does when nobody interrupts
      it: its end state is reached by the protocol's steps. */
  lemma SendRunsTheProtocol(s: State, t: Transaction, w: WriterId)
    requires RowsConsistent(s.db) && Free(s, w) && t.SendMessage? && Expected(s.db, t)
    ensures SaveMessage(s.db, t.author, t.chat, t.content, t.createdAt, t.now).Ok?
    ensures LeadsTo(s, s.(db := SaveMessage(s.db, t.author, t.chat, t.content, t.createdAt, t.now).value,
                          cache := ClearedBySend(s.cache, s.db, t.chat, t.chat)))
  {
    SendSucceeds(s.db, t.author, t.chat, t.content, t.createdAt, t.now);
    WriterRunsAlone(s, t, w);
    ClearedAppend(s.cache, ClearLists(UsersOf(s.db, t.chat)), Scan(PagesOf(t.chat)));
  }

  lemma ClearedOnce(entries: Cache, p: Pattern)
    ensures Cleared(entries, [Scan(p)]) == Without(entries, p)
  {
    assert [Scan(p)][1..] == [];
  }

  /** The same for message_read_handler, which clears only when the watermark advances. */
  lemma ReadRunsTheProtocol(s: State, u: UserId, c: ChatId, id: MessageId, w: WriterId)
    requires RowsConsistent(s.db) && Free(s, w) && Expected(s.db, ReadMessage(u, c, id))
    requires MarkLastRead(s.db, u, c, id).Ok?
    ensures var (moved, advanced) := MarkLastRead(s.db, u, c, id).value;
            LeadsTo(s, s.(db := moved, cache := if advanced then Without(s.cache, PagesOf(c)) else s.cache))
  {
    var t := ReadMessage(u, c, id);
    WriterRunsAlone(s, t, w);
    ClearedOnce(s.cache, PagesOf(c));
    assert Clears(s.db, t) == if MarkLastRead(s.db, u, c, id).value.1 then [Scan(PagesOf(c))] else [];
    assert Apply(s.db, t) == MarkLastRead(s.db, u, c, id).value.0;
  }

  /** get_message_by_guid. */
  function ActiveMessage(db: Database, id: MessageId): Result<Option<Message>, DbError> {
    ScalarOneOrNone(Filter(db.messages, (m: Message) => m.id == id && !m.isDeleted))
  }

  // ---- what handlers do to the shared state is what the transactions and the cache protocol say ----

  const IS_NEW: Publication -> bool := (note: Publication) => note.1.NewMessage?
  const IS_READ: Publication -> bool := (note: Publication) => note.1.MessageRead?
  const IS_STATUS: Publication -> bool := (note: Publication) => note.1.StatusNote?

  /** The broadcasts of one kind among what was published, each with its channel. */
  function NewNotes(published: seq<Publication>): seq<Publication> {
    Filter(published, IS_NEW)
  }

  function ReadNotes(published: seq<Publication>): seq<Publication> {
    Filter(published, IS_READ)
  }

  function StatusNotes(published: seq<Publication>): seq<Publication> {
    Filter(published, IS_STATUS)
  }

  lemma NotesAppend(published: seq<Publication>, more: seq<Publication>)
    ensures NewNotes(published + more) == NewNotes(published) + NewNotes(more)
    ensures ReadNotes(published + more) == ReadNotes(published) + ReadNotes(more)
    ensures StatusNotes(published + more) == StatusNotes(published) + StatusNotes(more)
  {
    FilterAppend(published, more, IS_NEW);
    FilterAppend(published, more, IS_READ);
    FilterAppend(published, more, IS_STATUS);
  }

  lemma OneNote(note: Publication)
    ensures NewNotes([note]) == if note.1.NewMessage? then [note] else []
    ensures ReadNotes([note]) == if note.1.MessageRead? then [note] else []
    ensures StatusNotes([note]) == if note.1.StatusNote? then [note] else []
  {
    assert [note][..0] == [];
  }

  lemma TwoNotes(published: seq<Publication>, first: Publication, second: Publication)
    requires first.1.StatusNote? && !second.1.StatusNote?
    ensures var now := published + [first, second];
            && NewNotes(now) == NewNotes(published) + (if second.1.NewMessage? then [second] else [])
            && ReadNotes(now) == ReadNotes(published) + (if second.1.MessageRead? then [second] else [])
            && StatusNotes(now) == StatusNotes(published) + [first]
  {
    NotesAppend(published, [first, second]);
    NotesAppend([first], [second]);
    OneNote(first);
    OneNote(second);
    assert [first, second] == [first] + [second];
  }

  /** A saved row as it is broadcast, on the channel of its own chat. */
  const ROW_NOTE: Message -> Publication :=
    (m: Message) => (m.chatId, NewMessage(m.id, m.chatId, m.author, m.content, m.createdAt))

  const ACK_NOTE: Ack -> Publication := (a: Ack) => (a.chat, MessageRead(a.user, a.chat, a.id))

  /** Every row saved since has been broadcast, in order and once each, and nothing else as a new message. */
  ghost predicate SavedIsBroadcast(was: World, now: World) {
    && was.tables.messages <= now.tables.messages
    && NewNotes(now.published) ==
         NewNotes(was.published) + Map(now.tables.messages[|was.tables.messages|..], ROW_NOTE)
  }

  lemma LaterRows(first: seq<Message>, second: seq<Message>, third: seq<Message>)
    requires first <= second <= third
    ensures third[|first|..] == second[|first|..] + third[|second|..]
  {
  }

  lemma NotesTwice(p: seq<Publication>, first: seq<Message>, second: seq<Message>)
    ensures p + Map(first, ROW_NOTE) + Map(second, ROW_NOTE) == p + Map(first + second, ROW_NOTE)
  {
    MapAppend(first, second, ROW_NOTE);
  }

  lemma SavedTwice(was: World, mid: World, now: World)
    requires SavedIsBroadcast(was, mid) && SavedIsBroadcast(mid, now)
    ensures SavedIsBroadcast(was, now)
  {
    LaterRows(was.tables.messages, mid.tables.messages, now.tables.messages);
    NotesTwice(NewNotes(was.published), mid.tables.messages[|was.tables.messages|..],
               now.tables.messages[|mid.tables.messages|..]);
  }

  /** A mark of a session's user, and the chat in which it was announced. */
  type Announcement = (ChatGuid, Presence.Mark)

  const MARK_OF: Announcement -> Presence.Mark := (a: Announcement) => a.1

  const MARK_NOTE: Announcement -> Publication := (a: Announcement) => (a.0, StatusNote(a.1.user, a.1.Online?))

  /** Since then the users were marked so, and each mark was announced in its chat. */
  ghost predicate Marked(was: World, now: World, marks: seq<Announcement>) {
    && now.log == was.log + Map(marks, MARK_OF)
    && StatusNotes(now.published) == StatusNotes(was.published) + Map(marks, MARK_NOTE)
  }

  lemma MarkedTwice(was: World, mid: World, now: World, marks: seq<Announcement>, more: seq<Announcement>)
    requires Marked(was, mid, marks) && Marked(mid, now, more)
    ensures Marked(was, now, marks + more)
  {
    MapAppend(marks, more, MARK_OF);
    MapAppend(marks, more, MARK_NOTE);
  }

  ghost predicate StaysReachable(was: World, now: World) {
    forall s, calm :: ReachableBy(s, calm) && s.db == was.tables && s.cache == was.entries ==>
      ReachableBy(s.(db := now.tables, cache := now.entries), calm)
  }

  ghost predicate KeepsReachable(was: World, now: World, ts: seq<Transaction>) {
    ExpectedRun(was.tables, ts) ==> StaysReachable(was, now)
  }

  /** From one world to the other the transactions `ts` have run: the tables are theirs, the messages that they saved
      are the ones broadcast as new, the read broadcasts are the ones they announce, and where the first world was a
      state of the cache protocol, so is the second. */
  ghost predicate RunsAs(was: World, now: World, ts: seq<Transaction>) {
    && now.tables == Store.Run(was.tables, ts)
    && SavedIsBroadcast(was, now)
    && ReadNotes(now.published) == ReadNotes(was.published) + Map(Announcements(was.tables, ts), ACK_NOTE)
    && KeepsReachable(was, now, ts)
  }

  lemma RunsAsNothing(was: World, now: World)
    requires now.tables == was.tables && now.entries == was.entries
    requires ReadNotes(now.published) == ReadNotes(was.published) && NewNotes(now.published) == NewNotes(was.published)
    ensures RunsAs(was, now, [])
  {
    forall s, calm | ReachableBy(s, calm) && s.db == was.tables && s.cache == was.entries
      ensures ReachableBy(s.(db := now.tables, cache := now.entries), calm)
    {
      assert s.(db := now.tables, cache := now.entries) == s;
    }
  }

  lemma RunOfOne(db: Database, t: Transaction)
    ensures Store.Run(db, [t]) == Apply(db, t) && Announcements(db, [t]) == Announced(db, t)
  {
    assert [t][..0] == [];
    assert Store.Run(db, [t][..0]) == db && Announcements(db, [t][..0]) == [];
  }

  lemma RunsAsOne(was: World, now: World, t: Transaction)
    requires now.tables == Apply(was.tables, t)
    requires SavedIsBroadcast(was, now)
    requires ReadNotes(now.published) == ReadNotes(was.published) + Map(Announced(was.tables, t), ACK_NOTE)
    requires Expected(was.tables, t) ==> now.entries == Cleared(was.entries, Clears(was.tables, t))
    ensures RunsAs(was, now, [t])
  {
    var ts := [t];
    RunOfOne(was.tables, t);
    if ExpectedRun(was.tables, ts) {
      assert Expected(Store.Run(was.tables, ts[..0]), ts[0]);
      forall s, calm | ReachableBy(s, calm) && s.db == was.tables && s.cache == was.entries
        ensures ReachableBy(s.(db := now.tables, cache := now.entries), calm)
      {
        WriterKeepsReachable(s, t, calm);
      }
    }
  }

  /** The world in which nothing has happened since but that these marks were made and announced. */
  function WithMarks(was: World, marks: seq<Announcement>): World {
    was.(published := was.published + Map(marks, MARK_NOTE), log := was.log + Map(marks, MARK_OF))
  }

  /** Marks touch nothing but the log and the status broadcasts. */
  lemma OnlyMarked(was: World, marks: seq<Announcement>)
    ensures RunsAs(was, WithMarks(was, marks), []) && Marked(was, WithMarks(was, marks), marks)
  {
    var notes := Map(marks, MARK_NOTE);
    NotesAppend(was.published, notes);
    forall note | note in notes ensures note.1.StatusNote? {
    }
    FilterAll(notes, IS_STATUS);
    FilterNone(notes, IS_NEW);
    FilterNone(notes, IS_READ);
    RunsAsNothing(was, WithMarks(was, marks));
  }

  lemma MarkDone(was: World, now: World, chat: ChatGuid, mark: Presence.Mark)
    requires now == was.(published := was.published + [(chat, StatusNote(mark.user, mark.Online?))],
                         log := was.log + [mark])
    ensures RunsAs(was, now, []) && Marked(was, now, [(chat, mark)])
  {
    assert now == WithMarks(was, [(chat, mark)]);
    OnlyMarked(was, [(chat, mark)]);
  }

  lemma {:induction false} RunOverRun(db: Database, ts: seq<Transaction>, more: seq<Transaction>)
    ensures Store.Run(db, ts + more) == Store.Run(Store.Run(db, ts), more)
  {
    if more == [] {
      assert ts + more == ts;
    } else {
      var n := |more| - 1;
      RunOverRun(db, ts, more[..n]);
      assert (ts + more)[..|ts + more| - 1] == ts + more[..n];
    }
  }

  lemma {:induction false} AnnouncedOverRun(db: Database, ts: seq<Transaction>, more: seq<Transaction>)
    ensures Announcements(db, ts + more) == Announcements(db, ts) + Announcements(Store.Run(db, ts), more)
  {
    if more == [] {
      assert ts + more == ts;
    } else {
      var n := |more| - 1;
      AnnouncedOverRun(db, ts, more[..n]);
      RunOverRun(db, ts, more[..n]);
      assert (ts + more)[..|ts + more| - 1] == ts + more[..n];
    }
  }

  lemma ExpectedParts(db: Database, ts: seq<Transaction>, more: seq<Transaction>)
    requires ExpectedRun(db, ts + more)
    ensures ExpectedRun(db, ts) && ExpectedRun(Store.Run(db, ts), more)
  {
    var all := ts + more;
    forall i | 0 <= i < |ts| ensures Expected(Store.Run(db, ts[..i]), ts[i]) {
      assert all[..i] == ts[..i] && all[i] == ts[i];
    }
    forall i | 0 <= i < |more| ensures Expected(Store.Run(Store.Run(db, ts), more[..i]), more[i]) {
      RunOverRun(db, ts, more[..i]);
      assert all[..|ts| + i] == ts + more[..i] && all[|ts| + i] == more[i];
    }
  }

  lemma ReachableTwice(was: World, mid: World, now: World)
    requires StaysReachable(was, mid) && StaysReachable(mid, now)
    ensures StaysReachable(was, now)
  {
    forall s, calm | ReachableBy(s, calm) && s.db == was.tables && s.cache == was.entries
      ensures ReachableBy(s.(db := now.tables, cache := now.entries), calm)
    {
      var t := s.(db := mid.tables, cache := mid.entries);
      assert ReachableBy(t.(db := now.tables, cache := now.entries), calm);
    }
  }

  lemma BothKeepReachable(was: World, mid: World, now: World, ts: seq<Transaction>, more: seq<Transaction>)
    requires mid.tables == Store.Run(was.tables, ts)
    requires KeepsReachable(was, mid, ts) && KeepsReachable(mid, now, more)
    ensures KeepsReachable(was, now, ts + more)
  {
    if ExpectedRun(was.tables, ts + more) {
      ExpectedParts(was.tables, ts, more);
      ReachableTwice(was, mid, now);
    }
  }

  lemma ReadNotesTwice(was: World, mid: World, now: World, acks: seq<Ack>, more: seq<Ack>)
    requires ReadNotes(mid.published) == ReadNotes(was.published) + Map(acks, ACK_NOTE)
    requires ReadNotes(now.published) == ReadNotes(mid.published) + Map(more, ACK_NOTE)
    ensures ReadNotes(now.published) == ReadNotes(was.published) + Map(acks + more, ACK_NOTE)
  {
    MapAppend(acks, more, ACK_NOTE);
  }

  lemma RunsAsBoth(was: World, mid: World, now: World, ts: seq<Transaction>, more: seq<Transaction>)
    requires RunsAs(was, mid, ts) && RunsAs(mid, now, more)
    ensures RunsAs(was, now, ts + more)
  {
    RunOverRun(was.tables, ts, more);
    AnnouncedOverRun(was.tables, ts, more);
    BothKeepReachable(was, mid, now, ts, more);
    SavedTwice(was, mid, now);
    ReadNotesTwice(was, mid, now, Announcements(was.tables, ts), Announcements(mid.tables, more));
  }

  /** The local map has each chat under its own id. */
  ghost predicate Echoed(chats: map<ChatGuid, ChatId>) {
    forall c :: c in chats ==> chats[c] == c
  }

  datatype Frame =
    | NewMessageFrame(chat: ChatGuid, content: string, createdAt: Time, now: Time)
    | MessageReadFrame(chat: ChatGuid, message: MessageId, now: Time)
    | AddUserToChatFrame(chat: ChatGuid, id: ChatId, now: Time)
    | UnknownFrame

  /** The client gives back the id and the guid that it was told. */
  ghost predicate Echoes(frame: Frame) {
    frame.AddUserToChatFrame? ==> frame.id == frame.chat
  }

  /** A message to a chat that the session has not joined makes it join, if there is such a chat. */
  function Joins(tables: Database, chats: map<ChatGuid, ChatId>, chat: ChatGuid): bool {
    var found := ChatByGuid(tables, chat);
    chat !in chats && found.Ok? && found.value.Some? && chat != 0
  }

  /** In consistent tables the lookup by guid never raises, and the session joins exactly a chat that is there and that
      it has not joined. */
  lemma JoinsIfThere(tables: Database, chats: map<ChatGuid, ChatId>, chat: ChatGuid)
    requires RowsConsistent(tables)
    ensures ChatByGuid(tables, chat).Ok?
    ensures Joins(tables, chats, chat) <==>
            chat !in chats && chat != 0 && exists row :: row in tables.chats && row.id == chat
  {
    ChatLookupIsSingle(tables, chat);
    if row :| row in tables.chats && row.id == chat {
      assert ChatByGuid(tables, chat).value == Some(row);
    }
    if ChatByGuid(tables, chat).value.Some? {
      var row := ChatByGuid(tables, chat).value.value;
      assert row in tables.chats && row.id == chat;
    }
  }

  /** The lookup by guid never raises, and finds exactly the message with that guid that is not deleted. */
  lemma ActiveMessageIsSingle(db: Database, id: MessageId)
    requires MessagesOrdered(db)
    ensures ActiveMessage(db, id).Ok?
    ensures forall m :: ActiveMessage(db, id).value == Some(m) <==> m in db.messages && m.id == id && !m.isDeleted
  {
    var p := (m: Message) => m.id == id && !m.isDeleted;
    var rows := Filter(db.messages, p);
    FilterIncreasing(db.messages, p, MESSAGE_ID);
    assert |rows| > 1 ==> MESSAGE_ID(rows[0]) < MESSAGE_ID(rows[1]);
    assert forall i :: 0 <= i < |rows| ==> rows[i] in rows;
    forall m | m in db.messages && m.id == id && !m.isDeleted ensures rows == [m] {
      FilterKeeps(db.messages, p, m);
    }
    if |rows| == 1 {
      assert rows[0] in rows;
    }
  }

  /** The transaction that a frame asks for. */
  function Asks(tables: Database, user: UserId, chats: map<ChatGuid, ChatId>, frame: Frame): seq<Transaction> {
    match frame
    case NewMessageFrame(chat, content, createdAt, now) =>
      if chat in chats || Joins(tables, chats, chat) then [SendMessage(user, chat, content, createdAt, now)] else []
    case MessageReadFrame(chat, message, now) =>
      var found := ActiveMessage(tables, message);
      if chat in chats && found.Ok? && found.value.Some? then [ReadMessage(user, chat, found.value.value.id)] else []
    case AddUserToChatFrame(_, _, _) => []
    case UnknownFrame => []
  }

  /** The local map after a frame. */
  function MapAfter(tables: Database, chats: map<ChatGuid, ChatId>, frame: Frame): map<ChatGuid, ChatId> {
    match frame
    case NewMessageFrame(chat, _, _, _) => if Joins(tables, chats, chat) then chats[chat := chat] else chats
    case AddUserToChatFrame(chat, id, _) => chats[chat := id]
    case _ => chats
  }

  /** A frame marks its user online, in its chat, exactly when it changes the tables or adds the user to the chat. */
  function MarksOf(tables: Database, user: UserId, chats: map<ChatGuid, ChatId>, frame: Frame): seq<Announcement> {
    var changes := Store.Run(tables, Asks(tables, user, chats, frame)) != tables;
    match frame
    case NewMessageFrame(chat, _, _, now) => if changes then [(chat, Presence.Online(user, now))] else []
    case MessageReadFrame(chat, _, now) => if changes then [(chat, Presence.Online(user, now))] else []
    case AddUserToChatFrame(chat, _, now) => [(chat, Presence.Online(user, now))]
    case UnknownFrame => []
  }

  /** The transaction that a frame asks for is run, and the marks that go with it are made. */
  ghost predicate DoesAsAsked(was: World, now: World, user: UserId, chats: map<ChatGuid, ChatId>, frame: Frame) {
    && RunsAs(was, now, Asks(was.tables, user, chats, frame))
    && Marked(was, now, MarksOf(was.tables, user, chats, frame))
  }

  /** The handler of the frame lets an exception through. */
  predicate Raises(tables: Database, user: UserId, chats: map<ChatGuid, ChatId>, frame: Frame) {
    match frame
    case NewMessageFrame(chat, content, createdAt, now) =>
      if chat in chats || Joins(tables, chats, chat) then SaveMessage(tables, user, chat, content, createdAt, now).Err?
      else ChatByGuid(tables, chat).Err?
    case MessageReadFrame(chat, message, _) =>
      var found := ActiveMessage(tables, message);
      found.Err? ||
      (chat in chats && found.value.Some? && MarkLastRead(tables, user, chat, found.value.value.id).Err?)
    case _ => false
  }

  /** ... and an exception is let through if the frame calls for one. */
  ghost predicate IsDone(was: World, now: World, user: UserId, chats: map<ChatGuid, ChatId>, frame: Frame, raised: bool)
  {
    DoesAsAsked(was, now, user, chats, frame) && (raised <==> Raises(was.tables, user, chats, frame))
  }

  lemma AddingIsDone(was: World, now: World, user: UserId, chats: map<ChatGuid, ChatId>, chat: ChatGuid, id: ChatId,
                     at: Time)
    requires RunsAs(was, now, []) && Marked(was, now, [(chat, Presence.Online(user, at))])
    ensures IsDone(was, now, user, chats, AddUserToChatFrame(chat, id, at), false)
  {
  }

  lemma UnknownIsDone(was: World, user: UserId, chats: map<ChatGuid, ChatId>)
    ensures IsDone(was, was, user, chats, UnknownFrame, false)
  {
    RunsAsNothing(was, was);
  }

  /** The transactions that frames ask for one after the other, and the local map after them. */
  function Asked(tables: Database, user: UserId, chats: map<ChatGuid, ChatId>, frames: seq<Frame>)
    : (asked: (seq<Transaction>, map<ChatGuid, ChatId>))
  {
    if frames == [] then ([], chats)
    else
      var n := |frames| - 1;
      var (ts, now) := Asked(tables, user, chats, frames[..n]);
      var mid := Store.Run(tables, ts);
      (ts + Asks(mid, user, now, frames[n]), MapAfter(mid, now, frames[n]))
  }

  /** The marks that go with them. */
  function MarksAsked(tables: Database, user: UserId, chats: map<ChatGuid, ChatId>, frames: seq<Frame>)
    : seq<Announcement>
  {
    if frames == [] then []
    else
      var n := |frames| - 1;
      var (ts, now) := Asked(tables, user, chats, frames[..n]);
      MarksAsked(tables, user, chats, frames[..n]) + MarksOf(Store.Run(tables, ts), user, now, frames[n])
  }

  /** In consistent tables only a frame for a chat of the local map can raise: a message if the chat is gone, and an
      acknowledgement only of somebody who is not, or no longer, in it. */
  lemma RaisesInGoneChats(tables: Database, user: UserId, chats: map<ChatGuid, ChatId>, frame: Frame)
    requires RowsConsistent(tables)
    ensures match frame
            case NewMessageFrame(chat, _, _, _) =>
              Raises(tables, user, chats, frame) <==>
              chat in chats && forall row :: row in tables.chats ==> row.id != chat
            case MessageReadFrame(chat, _, _) =>
              Raises(tables, user, chats, frame) ==> chat in chats && !Participates(tables, user, chat)
            case _ => !Raises(tables, user, chats, frame)
  {
    match frame
    case NewMessageFrame(chat, _, _, _) =>
      JoinsIfThere(tables, chats, chat);
      if row :| row in tables.chats && row.id == chat {
        FilterKeeps(tables.chats, HasId(chat), row);
      } else {
        FilterNone(tables.chats, HasId(chat));
      }
    case MessageReadFrame(chat, message, _) =>
      ActiveMessageIsSingle(tables, message);
      if Participates(tables, user, chat) && ActiveMessage(tables, message).value.Some? {
        var row :| row in tables.chats && row.id == chat && user in row.users;
        ReadMovesOneWatermark(tables, row, user, ActiveMessage(tables, message).value.value.id);
      }
    case _ =>
  }

  /** A frame that asks for nothing but what is expected does not raise. */
  lemma ExpectedNeverRaises(tables: Database, user: UserId, chats: map<ChatGuid, ChatId>, frame: Frame)
    requires RowsConsistent(tables)
    requires forall t :: t in Asks(tables, user, chats, frame) ==> Expected(tables, t)
    ensures !Raises(tables, user, chats, frame)
  {
    RaisesInGoneChats(tables, user, chats, frame);
    match frame
    case NewMessageFrame(chat, content, createdAt, now) =>
      if chat in chats {
        assert SendMessage(user, chat, content, createdAt, now) in Asks(tables, user, chats, frame);
      }
    case MessageReadFrame(chat, message, _) =>
      ActiveMessageIsSingle(tables, message);
      if chat in chats && ActiveMessage(tables, message).value.Some? {
        var id := ActiveMessage(tables, message).value.value.id;
        assert ReadMessage(user, chat, id) in Asks(tables, user, chats, frame);
      }
    case _ =>
  }

  // ---- sending ----

  /** The world after a message was saved, cleared for and broadcast; a save that fails leaves it as it was. */
  function AfterSend(was: World, user: UserId, chatGuid: ChatGuid, chatId: ChatId, content: string, createdAt: Time,
                     at: Time): World
  {
    match SaveMessage(was.tables, user, chatId, content, createdAt, at)
    case Err(_) => was
    case Ok(saved) =>
      Shared(saved, ClearedBySend(was.entries, was.tables, chatGuid, chatId),
             was.published + [(chatGuid, StatusNote(user, true)),
                              (chatGuid, NewMessage(was.tables.nextMessageId, chatId, user, content, createdAt))],
             was.log + [Presence.Online(user, at)])
  }

  lemma SentIsBroadcast(was: World, user: UserId, chat: ChatGuid, content: string, createdAt: Time, at: Time)
    ensures var now := AfterSend(was, user, chat, chat, content, createdAt, at);
            SavedIsBroadcast(was, now) && ReadNotes(now.published) == ReadNotes(was.published)
    ensures Marked(was, AfterSend(was, user, chat, chat, content, createdAt, at),
                   if SaveMessage(was.tables, user, chat, content, createdAt, at).Ok?
                   then [(chat, Presence.Online(user, at))] else [])
  {
    if SaveMessage(was.tables, user, chat, content, createdAt, at).Ok? {
      TwoNotes(was.published, (chat, StatusNote(user, true)),
               (chat, NewMessage(was.tables.nextMessageId, chat, user, content, createdAt)));
      var row := Message(was.tables.nextMessageId, chat, user, content, createdAt, false);
      assert (was.tables.messages + [row])[|was.tables.messages|..] == [row];
    }
  }

  lemma SendRunsAs(was: World, user: UserId, chat: ChatGuid, content: string, createdAt: Time, at: Time)
    ensures RunsAs(was, AfterSend(was, user, chat, chat, content, createdAt, at),
                   [SendMessage(user, chat, content, createdAt, at)])
  {
    var t := SendMessage(user, chat, content, createdAt, at);
    if Expected(was.tables, t) {
      SendSucceeds(was.tables, user, chat, content, createdAt, at);
      ClearedAppend(was.entries, ClearLists(UsersOf(was.tables, chat)), Scan(PagesOf(chat)));
    }
    SentIsBroadcast(was, user, chat, content, createdAt, at);
    RunsAsOne(was, AfterSend(was, user, chat, chat, content, createdAt, at), t);
  }

  lemma SendDone(was: World, now: World, user: UserId, chat: ChatGuid, content: string, createdAt: Time, at: Time)
    requires now == AfterSend(was, user, chat, chat, content, createdAt, at)
    ensures RunsAs(was, now, [SendMessage(user, chat, content, createdAt, at)])
    ensures Marked(was, now, if SaveMessage(was.tables, user, chat, content, createdAt, at).Ok?
                             then [(chat, Presence.Online(user, at))] else [])
  {
    SendRunsAs(was, user, chat, content, createdAt, at);
    SentIsBroadcast(was, user, chat, content, createdAt, at);
  }

  lemma SendChanges(db: Database, user: UserId, chat: ChatId, content: string, createdAt: Time, at: Time)
    ensures Store.Run(db, [SendMessage(user, chat, content, createdAt, at)]) != db <==>
            SaveMessage(db, user, chat, content, createdAt, at).Ok?
  {
    RunOfOne(db, SendMessage(user, chat, content, createdAt, at));
    var r := SaveMessage(db, user, chat, content, createdAt, at);
    assert r.Ok? ==> |r.value.messages| == |db.messages| + 1;
  }

  lemma MarksOfSend(tables: Database, user: UserId, chats: map<ChatGuid, ChatId>, chat: ChatGuid, content: string,
                    createdAt: Time, now: Time)
    ensures MarksOf(tables, user, chats, NewMessageFrame(chat, content, createdAt, now)) ==
            if (chat in chats || Joins(tables, chats, chat)) &&
               SaveMessage(tables, user, chat, content, createdAt, now).Ok?
            then [(chat, Presence.Online(user, now))] else []
  {
    SendChanges(tables, user, chat, content, createdAt, now);
  }

  lemma SentAsAsked(was: World, now: World, user: UserId, chats: map<ChatGuid, ChatId>, chat: ChatGuid, content: string,
                    createdAt: Time, at: Time)
    requires if chat in chats || Joins(was.tables, chats, chat)
             then now == AfterSend(was, user, chat, chat, content, createdAt, at) else now == was
    ensures DoesAsAsked(was, now, user, chats, NewMessageFrame(chat, content, createdAt, at))
  {
    MarksOfSend(was.tables, user, chats, chat, content, createdAt, at);
    if chat in chats || Joins(was.tables, chats, chat) {
      SendDone(was, now, user, chat, content, createdAt, at);
    } else {
      RunsAsNothing(was, was);
    }
  }

  // ---- reading ----

  /** The world after an acknowledgement: cleared for and broadcast exactly when the watermark advances. */
  function AfterRead(was: World, user: UserId, chatGuid: ChatGuid, chatId: ChatId, id: MessageId, at: Time): World {
    match MarkLastRead(was.tables, user, chatId, id)
    case Err(_) => was
    case Ok((moved, advanced)) =>
      if !advanced then was.(tables := moved)
      else
        Shared(moved, Without(was.entries, PagesOf(chatGuid)),
               was.published + [(chatGuid, StatusNote(user, true)), (chatGuid, MessageRead(user, chatGuid, id))],
               was.log + [Presence.Online(user, at)])
  }

  lemma ReadIsBroadcast(was: World, user: UserId, chat: ChatGuid, id: MessageId, at: Time)
    ensures var now := AfterRead(was, user, chat, chat, id, at);
            && SavedIsBroadcast(was, now)
            && ReadNotes(now.published) ==
                 ReadNotes(was.published) + Map(Announced(was.tables, ReadMessage(user, chat, id)), ACK_NOTE)
    ensures var r := MarkLastRead(was.tables, user, chat, id);
            Marked(was, AfterRead(was, user, chat, chat, id, at),
                   if r.Ok? && r.value.1 then [(chat, Presence.Online(user, at))] else [])
  {
    var r := MarkLastRead(was.tables, user, chat, id);
    if r.Ok? && r.value.1 {
      TwoNotes(was.published, (chat, StatusNote(user, true)), (chat, MessageRead(user, chat, id)));
    }
  }

  lemma ReadRunsAs(was: World, user: UserId, chat: ChatGuid, id: MessageId, at: Time)
    ensures RunsAs(was, AfterRead(was, user, chat, chat, id, at), [ReadMessage(user, chat, id)])
  {
    ClearedOnce(was.entries, PagesOf(chat));
    ReadIsBroadcast(was, user, chat, id, at);
    RunsAsOne(was, AfterRead(was, user, chat, chat, id, at), ReadMessage(user, chat, id));
  }

  lemma ReadDone(was: World, now: World, user: UserId, chat: ChatGuid, id: MessageId, at: Time)
    requires now == AfterRead(was, user, chat, chat, id, at)
    ensures RunsAs(was, now, [ReadMessage(user, chat, id)])
    ensures var r := MarkLastRead(was.tables, user, chat, id);
            Marked(was, now, if r.Ok? && r.value.1 then [(chat, Presence.Online(user, at))] else [])
  {
    ReadRunsAs(was, user, chat, id, at);
    ReadIsBroadcast(was, user, chat, id, at);
  }

  lemma ReadChanges(db: Database, user: UserId, chat: ChatId, id: MessageId)
    ensures var r := MarkLastRead(db, user, chat, id);
            Store.Run(db, [ReadMessage(user, chat, id)]) != db <==> r.Ok? && r.value.1
  {
    RunOfOne(db, ReadMessage(user, chat, id));
    var rows := Filter(db.statuses, StatusOf(user, chat));
    var r := MarkLastRead(db, user, chat, id);
    if r.Ok? && r.value.1 {
      if rows == [] {
        assert |r.value.0.statuses| == |db.statuses| + 1;
      } else {
        assert rows[0] in rows;
        var i :| 0 <= i < |db.statuses| && db.statuses[i] == rows[0];
        assert r.value.0.statuses[i].lastRead == Some(id);
      }
    }
  }

  lemma MarksOfRead(tables: Database, user: UserId, chats: map<ChatGuid, ChatId>, chat: ChatGuid, message: MessageId,
                    now: Time)
    ensures var found := ActiveMessage(tables, message);
            MarksOf(tables, user, chats, MessageReadFrame(chat, message, now)) ==
            if chat in chats && found.Ok? && found.value.Some? &&
               (var r := MarkLastRead(tables, user, chat, found.value.value.id); r.Ok? && r.value.1)
            then [(chat, Presence.Online(user, now))] else []
  {
    var found := ActiveMessage(tables, message);
    if chat in chats && found.Ok? && found.value.Some? {
      ReadChanges(tables, user, chat, found.value.value.id);
    }
  }

  lemma ReadAsAsked(was: World, now: World, user: UserId, chats: map<ChatGuid, ChatId>, chat: ChatGuid,
                    message: MessageId, at: Time)
    requires var found := ActiveMessage(was.tables, message);
             if chat in chats && found.Ok? && found.value.Some?
             then now == AfterRead(was, user, chat, chat, found.value.value.id, at) else now == was
    ensures DoesAsAsked(was, now, user, chats, MessageReadFrame(chat, message, at))
  {
    var found := ActiveMessage(was.tables, message);
    MarksOfRead(was.tables, user, chats, chat, message, at);
    if chat in chats && found.Ok? && found.value.Some? {
      ReadDone(was, now, user, chat, found.value.value.id, at);
    } else {
      RunsAsNothing(was, was);
    }
  }
}
