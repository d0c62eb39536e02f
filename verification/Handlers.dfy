/** The websocket handlers of src/websocket/handlers.py. */
module Handlers {
  import opened Collections
  import opened Models
  import Queries
  import opened Store
  import opened CacheProtocol
  import WriterRuns
  import opened Effects
  import opened Outcomes
  import opened Storage
  import opened Managers
  import F = Fanout
  import Presence

  datatype SocketError = ChatNotAdded | MessageMissing | ChatMissing | WrongFormat

  /** What a handler sends to sockets itself, or the exception that it lets through. */
  datatype Outcome = Handled(errors: seq<SocketError>, notified: set<Socket>) | Raised(error: DbError)

  /** next(user for user in chat.users if not user == current_user), and its sockets. */
  function FriendSockets(m: Manager, user: UserId, tables: Database, chat: ChatId): set<Socket> {
    var friends := Filter(UsersOf(tables, chat), (u: UserId) => u != user);
    if friends == [] then {} else SocketsOfUser(m, friends[0])
  }

  /** In a chat that is there the row is saved and broadcast, and of a chat that the session did not know the other
      participant's sockets are notified. One that is not there is refused, or fails if the session still knows it. */
  ghost predicate SendIsAnswered(was: World, now: World, m: Manager, user: UserId, chats: map<ChatGuid, ChatId>,
                                 chatGuid: ChatGuid, row: Message, at: Time, out: Outcome)
  {
    && (forall chat :: chat in was.tables.chats && chat.id == chatGuid ==>
          && |chat.users| == 2
          && IsSent(was, now, chat, row, at)
          && out == Handled([], if chatGuid in chats then {} else SocketsOfUser(m, Queries.Peer(chat, user))))
    && ((forall chat :: chat in was.tables.chats ==> chat.id != chatGuid) ==>
          now == was && out == if chatGuid in chats then Raised(IntegrityError) else Handled([ChatNotAdded], {}))
  }

  lemma SendAnswer(was: World, now: World, m: Manager, m': Manager, user: UserId, chats: map<ChatGuid, ChatId>,
                   chatGuid: ChatGuid, content: string, createdAt: Time, at: Time, out: Outcome)
    requires RowsConsistent(was.tables) && chatGuid != 0 && m'.userSockets == m.userSockets
    requires if chatGuid in chats || Joins(was.tables, chats, chatGuid)
             then now == AfterSend(was, user, chatGuid, chatGuid, content, createdAt, at) else now == was
    requires if chatGuid in chats || Joins(was.tables, chats, chatGuid) then
               match SaveMessage(was.tables, user, chatGuid, content, createdAt, at)
               case Err(e) => out == Raised(e)
               case Ok(saved) =>
                 out == Handled([], if chatGuid in chats then {} else FriendSockets(m', user, saved, chatGuid))
             else
               var found := ChatByGuid(was.tables, chatGuid);
               out == (if found.Ok? then Handled([ChatNotAdded], {}) else Raised(found.error))
    ensures SendIsAnswered(was, now, m, user, chats, chatGuid,
                           Message(was.tables.nextMessageId, chatGuid, user, content, createdAt, false), at, out)
  {
    JoinsIfThere(was.tables, chats, chatGuid);
    if chat :| chat in was.tables.chats && chat.id == chatGuid {
      forall other | other in was.tables.chats && other.id == chatGuid ensures other == chat {
        ChatIdsAreUnique(was.tables, other, chat);
      }
      SendOutcome(was, chat, user, content, createdAt, at);
      UsersAfterSend(was.tables, user, chatGuid, content, createdAt, at);
      FriendIsPeer(was.tables, chat, user);
    } else {
      SendNowhere(was, user, chatGuid, content, createdAt, at);
    }
  }

  lemma SendIsDone(was: World, now: World, m: Manager, m': Manager, user: UserId, chats: map<ChatGuid, ChatId>,
                   chatGuid: ChatGuid, content: string, createdAt: Time, at: Time, out: Outcome)
    requires m'.userSockets == m.userSockets
    requires if chatGuid in chats || Joins(was.tables, chats, chatGuid)
             then now == AfterSend(was, user, chatGuid, chatGuid, content, createdAt, at) else now == was
    requires if chatGuid in chats || Joins(was.tables, chats, chatGuid) then
               match SaveMessage(was.tables, user, chatGuid, content, createdAt, at)
               case Err(e) => out == Raised(e)
               case Ok(saved) =>
                 out == Handled([], if chatGuid in chats then {} else FriendSockets(m', user, saved, chatGuid))
             else
               var found := ChatByGuid(was.tables, chatGuid);
               out == (if found.Ok? then Handled([ChatNotAdded], {}) else Raised(found.error))
    ensures IsDone(was, now, user, chats, NewMessageFrame(chatGuid, content, createdAt, at), out.Raised?)
    ensures RowsConsistent(was.tables) && chatGuid != 0 ==>
      SendIsAnswered(was, now, m, user, chats, chatGuid,
                     Message(was.tables.nextMessageId, chatGuid, user, content, createdAt, false), at, out)
  {
    SentAsAsked(was, now, user, chats, chatGuid, content, createdAt, at);
    if RowsConsistent(was.tables) && chatGuid != 0 {
      SendAnswer(was, now, m, m', user, chats, chatGuid, content, createdAt, at, out);
    }
  }

  /** A message that is there and not deleted is acknowledged in a chat that the session knows; whatever is missing is
      answered, and then nothing happens. */
  ghost predicate ReadIsAnswered(was: World, now: World, user: UserId, chats: map<ChatGuid, ChatId>,
                                 chatGuid: ChatGuid, messageGuid: MessageId, at: Time, out: Outcome)
  {
    && (forall m :: m in was.tables.messages && m.id == messageGuid && !m.isDeleted ==>
          if chatGuid !in chats then now == was && out == Handled([ChatMissing], {})
          else forall chat :: chat in was.tables.chats && chat.id == chatGuid && user in chat.users ==>
                 IsAcknowledged(was, now, user, chat, m.id, at) && out == Handled([], {}))
    && ((forall m :: m in was.tables.messages && m.id == messageGuid ==> m.isDeleted) ==>
          && now == was
          && out == Handled([MessageMissing, if chatGuid in chats then WrongFormat else ChatMissing], {}))
  }

  lemma ReadAnswer(was: World, now: World, user: UserId, chats: map<ChatGuid, ChatId>, chatGuid: ChatGuid,
                   messageGuid: MessageId, at: Time, out: Outcome)
    requires RowsConsistent(was.tables)
    requires var found := ActiveMessage(was.tables, messageGuid);
             if chatGuid in chats && found.Ok? && found.value.Some?
             then now == AfterRead(was, user, chatGuid, chatGuid, found.value.value.id, at) else now == was
    requires match ActiveMessage(was.tables, messageGuid)
             case Err(e) => out == Raised(e)
             case Ok(None) =>
               out == Handled([MessageMissing] + if chatGuid in chats then [WrongFormat] else [ChatMissing], {})
             case Ok(Some(m)) =>
               if chatGuid !in chats then out == Handled([ChatMissing], {})
               else match MarkLastRead(was.tables, user, chatGuid, m.id)
                    case Err(e) => out == Raised(e)
                    case Ok(_) => out == Handled([], {})
    ensures ReadIsAnswered(was, now, user, chats, chatGuid, messageGuid, at, out)
  {
    ActiveMessageIsSingle(was.tables, messageGuid);
    var found := ActiveMessage(was.tables, messageGuid).value;
    if found.Some? {
      assert ActiveMessage(was.tables, messageGuid).value == Some(found.value);
      forall chat | chat in was.tables.chats && chat.id == chatGuid && user in chat.users && chatGuid in chats
        ensures IsAcknowledged(was, now, user, chat, messageGuid, at) && out == Handled([], {})
      {
        ReadOutcome(was, chat, user, messageGuid, at);
      }
    }
  }

  lemma ReadIsDone(was: World, now: World, user: UserId, chats: map<ChatGuid, ChatId>, chatGuid: ChatGuid,
                   messageGuid: MessageId, at: Time, out: Outcome)
    requires var found := ActiveMessage(was.tables, messageGuid);
             if chatGuid in chats && found.Ok? && found.value.Some?
             then now == AfterRead(was, user, chatGuid, chatGuid, found.value.value.id, at) else now == was
    requires match ActiveMessage(was.tables, messageGuid)
             case Err(e) => out == Raised(e)
             case Ok(None) =>
               out == Handled([MessageMissing] + if chatGuid in chats then [WrongFormat] else [ChatMissing], {})
             case Ok(Some(m)) =>
               if chatGuid !in chats then out == Handled([ChatMissing], {})
               else match MarkLastRead(was.tables, user, chatGuid, m.id)
                    case Err(e) => out == Raised(e)
                    case Ok(_) => out == Handled([], {})
    ensures IsDone(was, now, user, chats, MessageReadFrame(chatGuid, messageGuid, at), out.Raised?)
    ensures RowsConsistent(was.tables) ==> ReadIsAnswered(was, now, user, chats, chatGuid, messageGuid, at, out)
  {
    ReadAsAsked(was, now, user, chats, chatGuid, messageGuid, at);
    if RowsConsistent(was.tables) {
      ReadAnswer(was, now, user, chats, chatGuid, messageGuid, at, out);
    }
  }

  /** Redis as publishers see it. */
  class Broker {
    var published: seq<Publication>

    constructor ()
      ensures published == []
    {
      published := [];
    }

    method Publish(chat: ChatGuid, payload: Payload)
      modifies this
      ensures published == old(published) + [(chat, payload)]
    {
      published := published + [(chat, payload)];
    }
  }

  /** Everything a handler is given besides the message; `chats` is the session's local map. */
  class Session {
    const websocket: Socket
    const user: UserId
    const db: ChatDatabase
    const cache: RedisCache
    const broker: Broker
    const presence: Presence.PresenceStore
    const manager: WebSocketManager
    var chats: map<ChatGuid, ChatId>

    constructor (websocket: Socket, user: UserId, db: ChatDatabase, cache: RedisCache, broker: Broker,
                 presence: Presence.PresenceStore, manager: WebSocketManager)
      ensures this.websocket == websocket && this.user == user && this.db == db && this.cache == cache
      ensures this.broker == broker && this.presence == presence && this.manager == manager && chats == map[]
    {
      this.websocket, this.user, this.db, this.cache := websocket, user, db, cache;
      this.broker, this.presence, this.manager := broker, presence, manager;
      chats := map[];
    }

    /** The local map holds a chat exactly when the socket is in the manager's set for it. */
    ghost predicate Valid()
      reads this, manager, manager.pubsubClient, presence
    {
      && manager.Valid() && F.ManagerOk(manager.State()) && presence.Valid()
      && forall c :: c in chats <==> websocket in SocketsOf(manager.State(), c)
    }

    /** What the session shares with all others. */
    ghost function World(): World
      reads db, cache, broker, presence
    {
      Shared(db.Tables(), cache.entries, broker.published, presence.log)
    }

    method Broadcast(chat: ChatGuid, payload: Payload)
      requires manager.pubsubClient.pubsubs != []
      modifies broker
      ensures broker.published == old(broker.published) + [(chat, payload)]
    {
      broker.Publish(chat, payload);
    }

    method MarkOnline(chat: ChatGuid, now: Time)
      requires presence.Valid() && manager.pubsubClient.pubsubs != []
      modifies presence, broker
      ensures presence.Valid() && presence.log == old(presence.log) + [Presence.Online(user, now)]
      ensures broker.published == old(broker.published) + [(chat, StatusNote(user, true))]
    {
      presence.MarkUserAsOnline(user, now);
      Broadcast(chat, StatusNote(user, true));
    }

    /** The local map and the manager gain the chat together. */
    method JoinChat(chatGuid: ChatGuid, chatId: ChatId)
      requires Valid()
      modifies this`chats, manager`chats, manager`readers, manager.pubsubClient
      ensures Valid() && chats == old(chats)[chatGuid := chatId]
      ensures manager.State() == Join(old(manager.State()), chatGuid, websocket)
      ensures forall c :: SocketsOf(manager.State(), c) ==
                          SocketsOf(old(manager.State()), c) + if c == chatGuid then {websocket} else {}
      ensures forall u :: SocketsOfUser(manager.State(), u) == SocketsOfUser(old(manager.State()), u)
      ensures manager.pubsubClient.pubsubs != []
    {
      F.JoinKeepsManagerOk(manager.State(), chatGuid, websocket);
      manager.AddUserToChat(chatGuid, websocket);
      chats := chats[chatGuid := chatId];
      assert F.Listening(manager.State(), chatGuid);
    }

    lemma CanPublish(chat: ChatGuid)
      requires Valid() && chat in chats
      ensures manager.pubsubClient.pubsubs != []
    {
      assert F.Listening(manager.State(), chat);
    }

    /** What follows the commit of either handler: the mark, the clearing of the users' lists and of the chat's pages,
        and the broadcast. */
    method ClearAndBroadcast(chatGuid: ChatGuid, users: seq<UserId>, note: Payload, now: Time)
      requires presence.Valid() && manager.pubsubClient.pubsubs != []
      modifies cache, presence, broker
      ensures presence.Valid() && presence.log == old(presence.log) + [Presence.Online(user, now)]
      ensures cache.entries ==
        WriterRuns.Without(WriterRuns.Cleared(old(cache.entries), ClearLists(users)), PagesOf(chatGuid))
      ensures broker.published == old(broker.published) + [(chatGuid, StatusNote(user, true)), (chatGuid, note)]
    {
      MarkOnline(chatGuid, now);
      cache.ClearForGetDirectChats(users);
      cache.ClearForGetMessages(chatGuid);
      Broadcast(chatGuid, note);
    }

    /** The body of new_message_handler once the chat is in the local map. */
    method SaveAndBroadcast(chatGuid: ChatGuid, chatId: ChatId, content: string, createdAt: Time, now: Time)
      returns (saved: Result<MessageId, DbError>)
      requires presence.Valid() && manager.pubsubClient.pubsubs != []
      modifies db, cache, presence, broker
      ensures presence.Valid()
      ensures World() == AfterSend(old(World()), user, chatGuid, chatId, content, createdAt, now)
      ensures saved == match SaveMessage(old(db.Tables()), user, chatId, content, createdAt, now)
                       case Err(e) => Err(e)
                       case Ok(_) => Ok(old(db.Tables()).nextMessageId)
      ensures chatGuid == chatId ==> RunsAs(old(World()), World(), [SendMessage(user, chatId, content, createdAt, now)])
    {
      ghost var was := World();
      saved := db.SaveMessage(user, chatId, content, createdAt, now);
      if saved.Ok? {
        UsersAfterSend(old(db.Tables()), user, chatId, content, createdAt, now);
        ClearAndBroadcast(chatGuid, UsersOf(db.Tables(), chatId),
                          NewMessage(saved.value, chatId, user, content, createdAt), now);
      }
      if chatGuid == chatId {
        SendDone(was, World(), user, chatId, content, createdAt, now);
      }
    }

    /** The newly created chat of new_message_handler: joined if it exists. */
    method JoinIfNew(chatGuid: ChatGuid) returns (known: Result<bool, DbError>, joined: bool)
      requires Valid()
      modifies this`chats, manager`chats, manager`readers, manager.pubsubClient
      ensures Valid() && joined == Joins(db.Tables(), old(chats), chatGuid)
      ensures if joined then
                chats == old(chats)[chatGuid := chatGuid] &&
                manager.State() == Join(old(manager.State()), chatGuid, websocket)
              else chats == old(chats) && manager.State() == old(manager.State())
      ensures known == if chatGuid in old(chats) then Ok(true)
                       else match ChatByGuid(db.Tables(), chatGuid)
                            case Err(e) => Err(e)
                            case Ok(_) => Ok(joined)
    {
      if chatGuid in chats {
        return Ok(true), false;
      }
      var found := ChatByGuid(db.Tables(), chatGuid);
      if found.Err? {
        return Err(found.error), false;
      }
      joined := found.value.Some? && chatGuid != 0;
      known := Ok(joined);
      if joined {
        JoinChat(chatGuid, chatGuid);
      }
    }

    /** new_message_handler in a chat of the local map; the friend is notified of a new one. */
    method SendInChat(chatGuid: ChatGuid, isNew: bool, content: string, createdAt: Time, now: Time)
      returns (out: Outcome)
      requires Valid() && chatGuid in chats
      modifies db, cache, presence, broker
      ensures Valid()
      ensures World() == AfterSend(old(World()), user, chatGuid, chats[chatGuid], content, createdAt, now)
      ensures out == match SaveMessage(old(db.Tables()), user, chats[chatGuid], content, createdAt, now)
                     case Err(e) => Raised(e)
                     case Ok(saved) =>
                       Handled([], if isNew then FriendSockets(manager.State(), user, saved, chats[chatGuid]) else {})
    {
      CanPublish(chatGuid);
      var chatId := chats[chatGuid];
      var saved := SaveAndBroadcast(chatGuid, chatId, content, createdAt, now);
      if saved.Err? {
        return Raised(saved.error);
      }
      out := Handled([], if isNew then FriendSockets(manager.State(), user, db.Tables(), chatId) else {});
    }

    /** new_message_handler: in an unknown chat only an error is sent, in a new one the socket joins first. */
    method SendOrRefuse(chatGuid: ChatGuid, content: string, createdAt: Time, now: Time) returns (out: Outcome)
      requires Valid()
      modifies this`chats, manager`chats, manager`readers, manager.pubsubClient, db, cache, presence, broker
      ensures Valid()
      ensures if Joins(old(db.Tables()), old(chats), chatGuid) then
                chats == old(chats)[chatGuid := chatGuid] &&
                manager.State() == Join(old(manager.State()), chatGuid, websocket)
              else chats == old(chats) && manager.State() == old(manager.State())
      ensures if chatGuid in chats then
                World() == AfterSend(old(World()), user, chatGuid, chats[chatGuid], content, createdAt, now)
              else World() == old(World())
      ensures if chatGuid !in chats then
                var found := ChatByGuid(old(db.Tables()), chatGuid);
                out == (if found.Ok? then Handled([ChatNotAdded], {}) else Raised(found.error))
              else
                match SaveMessage(old(db.Tables()), user, chats[chatGuid], content, createdAt, now)
                case Err(e) => out == Raised(e)
                case Ok(saved) =>
                  out == Handled([], if chatGuid in old(chats) then {}
                                     else FriendSockets(manager.State(), user, saved, chats[chatGuid]))
    {
      var known, joined := JoinIfNew(chatGuid);
      if known.Err? {
        return Raised(known.error);
      }
      if !known.value {
        return Handled([ChatNotAdded], {});
      }
      out := SendInChat(chatGuid, joined, content, createdAt, now);
    }

    /** new_message_handler, as a whole. */
    method NewMessageHandler(chatGuid: ChatGuid, content: string, createdAt: Time, now: Time) returns (out: Outcome)
      requires Valid()
      modifies this`chats, manager`chats, manager`readers, manager.pubsubClient, db, cache, presence, broker
      ensures Valid()
      ensures if Joins(old(db.Tables()), old(chats), chatGuid) then
                chats == old(chats)[chatGuid := chatGuid] &&
                manager.State() == Join(old(manager.State()), chatGuid, websocket)
              else chats == old(chats) && manager.State() == old(manager.State())
      ensures if chatGuid in chats then
                World() == AfterSend(old(World()), user, chatGuid, chats[chatGuid], content, createdAt, now)
              else World() == old(World())
      ensures if chatGuid !in chats then
                var found := ChatByGuid(old(db.Tables()), chatGuid);
                out == (if found.Ok? then Handled([ChatNotAdded], {}) else Raised(found.error))
              else
                match SaveMessage(old(db.Tables()), user, chats[chatGuid], content, createdAt, now)
                case Err(e) => out == Raised(e)
                case Ok(saved) =>
                  out == Handled([], if chatGuid in old(chats) then {}
                                     else FriendSockets(manager.State(), user, saved, chats[chatGuid]))
      ensures Echoed(old(chats)) ==>
        && Echoed(chats)
        && IsDone(old(World()), World(), user, old(chats), NewMessageFrame(chatGuid, content, createdAt, now),
                  out.Raised?)
      ensures RowsConsistent(old(db.Tables())) && chatGuid != 0 && Echoed(old(chats)) ==>
        SendIsAnswered(old(World()), World(), old(manager.State()), user, old(chats), chatGuid,
                       Message(old(db.nextMessageId), chatGuid, user, content, createdAt, false), now, out)
    {
      ghost var was, before, m := World(), chats, manager.State();
      out := SendOrRefuse(chatGuid, content, createdAt, now);
      if Echoed(before) {
        SendIsDone(was, World(), m, manager.State(), user, before, chatGuid, content, createdAt, now, out);
      }
    }

    /** The body of message_read_handler once the message and the chat are known. */
    method AcknowledgeAndBroadcast(chatGuid: ChatGuid, chatId: ChatId, id: MessageId, now: Time)
      returns (read: Result<bool, DbError>)
      requires presence.Valid() && manager.pubsubClient.pubsubs != []
      modifies db, cache, presence, broker
      ensures presence.Valid()
      ensures World() == AfterRead(old(World()), user, chatGuid, chatId, id, now)
      ensures read == match MarkLastRead(old(db.Tables()), user, chatId, id)
                      case Err(e) => Err(e)
                      case Ok((_, advanced)) => Ok(advanced)
      ensures chatGuid == chatId ==> RunsAs(old(World()), World(), [ReadMessage(user, chatId, id)])
    {
      ghost var was := World();
      read := db.MarkLastReadMessage(user, chatId, id);
      if read.Ok? && read.value {
        ClearAndBroadcast(chatGuid, [], MessageRead(user, chatGuid, id), now);
      }
      if chatGuid == chatId {
        ReadDone(was, World(), user, chatId, id, now);
      }
    }

    /** message_read_handler: a missing message or chat is only answered. */
    method ReadOrRefuse(chatGuid: ChatGuid, messageGuid: MessageId, now: Time) returns (out: Outcome)
      requires Valid()
      modifies db, cache, presence, broker
      ensures Valid() && chats == old(chats)
      ensures var tables := old(db.Tables());
              var found := ActiveMessage(tables, messageGuid);
              var quiet := World() == old(World());
              match found
              case Err(e) => out == Raised(e) && quiet
              case Ok(None) =>
                && quiet
                && out == Handled([MessageMissing] + if chatGuid in chats then [WrongFormat] else [ChatMissing], {})
              case Ok(Some(m)) =>
                if chatGuid !in chats then out == Handled([ChatMissing], {}) && quiet
                else
                  && World() == AfterRead(old(World()), user, chatGuid, chats[chatGuid], m.id, now)
                  && match MarkLastRead(tables, user, chats[chatGuid], m.id)
                     case Err(e) => out == Raised(e)
                     case Ok(_) => out == Handled([], {})
    {
      var errors := [];
      var found := ActiveMessage(db.Tables(), messageGuid);
      if found.Err? {
        return Raised(found.error);
      }
      if found.value.None? {
        errors := [MessageMissing];
      }
      if chatGuid !in chats {
        return Handled(errors + [ChatMissing], {});
      }
      if found.value.None? {
        // message.id on None: the AttributeError is answered by the session loop
        return Handled(errors + [WrongFormat], {});
      }
      CanPublish(chatGuid);
      var read := AcknowledgeAndBroadcast(chatGuid, chats[chatGuid], found.value.value.id, now);
      if read.Err? {
        return Raised(read.error);
      }
      out := Handled([], {});
    }

    /** message_read_handler, as a whole. */
    method MessageReadHandler(chatGuid: ChatGuid, messageGuid: MessageId, now: Time) returns (out: Outcome)
      requires Valid()
      modifies db, cache, presence, broker
      ensures Valid() && chats == old(chats)
      ensures var tables := old(db.Tables());
              var found := ActiveMessage(tables, messageGuid);
              var quiet := World() == old(World());
              match found
              case Err(e) => out == Raised(e) && quiet
              case Ok(None) =>
                && quiet
                && out == Handled([MessageMissing] + if chatGuid in chats then [WrongFormat] else [ChatMissing], {})
              case Ok(Some(m)) =>
                if chatGuid !in chats then out == Handled([ChatMissing], {}) && quiet
                else
                  && World() == AfterRead(old(World()), user, chatGuid, chats[chatGuid], m.id, now)
                  && match MarkLastRead(tables, user, chats[chatGuid], m.id)
                     case Err(e) => out == Raised(e)
                     case Ok(_) => out == Handled([], {})
      ensures Echoed(old(chats)) ==>
        IsDone(old(World()), World(), user, old(chats), MessageReadFrame(chatGuid, messageGuid, now), out.Raised?)
      ensures RowsConsistent(old(db.Tables())) && Echoed(old(chats)) ==>
        ReadIsAnswered(old(World()), World(), user, old(chats), chatGuid, messageGuid, now, out)
    {
      ghost var was := World();
      out := ReadOrRefuse(chatGuid, messageGuid, now);
      if Echoed(chats) {
        ReadIsDone(was, World(), user, chats, chatGuid, messageGuid, now, out);
      }
    }

    method AddUserToChatHandler(chatGuid: ChatGuid, chatId: ChatId, now: Time)
      requires Valid()
      modifies this`chats, manager`chats, manager`readers, manager.pubsubClient, presence, broker
      ensures Valid() && chats == old(chats)[chatGuid := chatId]
      ensures manager.State() == Join(old(manager.State()), chatGuid, websocket)
      ensures presence.log == old(presence.log) + [Presence.Online(user, now)]
      ensures broker.published == old(broker.published) + [(chatGuid, StatusNote(user, true))]
      ensures RunsAs(old(World()), World(), [])
      ensures Marked(old(World()), World(), [(chatGuid, Presence.Online(user, now))])
    {
      ghost var was := World();
      JoinChat(chatGuid, chatId);
      MarkOnline(chatGuid, now);
      MarkDone(was, World(), chatGuid, Presence.Online(user, now));
    }
  }
}
