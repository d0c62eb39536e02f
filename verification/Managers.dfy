/** The process-wide membership maps of src/managers/websocket_manager.py and the
    subscriptions of src/managers/pubsub_manager.py. */
module Managers {
  import opened Collections

  type Socket = nat
  type UserGuid = nat
  type ChatGuid = nat

  /** A broadcast on its way: its channel and its running number. */
  datatype Note = Note(channel: ChatGuid, number: nat)

  /** A redis pubsub object: what it is subscribed to and what it has not handed out yet. */
  datatype PubSub = PubSub(channels: set<ChatGuid>, queue: seq<Note>)

  /** `pubsubs` holds every pubsub object ever made by connect, the newest last;
      `readers` the positions of those that have a reader task. */
  datatype Manager = Manager(chats: map<ChatGuid, set<Socket>>, userSockets: map<UserGuid, set<Socket>>,
                             pubsubs: seq<PubSub>, readers: set<nat>)

  datatype PythonError = KeyError

  function SocketsOf(m: Manager, c: ChatGuid): set<Socket> {
    if c in m.chats then m.chats[c] else {}
  }

  function SocketsOfUser(m: Manager, u: UserGuid): set<Socket> {
    if u in m.userSockets then m.userSockets[u] else {}
  }

  // ---- the pubsub client ----

  function Connected(pubsubs: seq<PubSub>): seq<PubSub> {
    pubsubs + [PubSub({}, [])]
  }

  /** self.pubsub is always the pubsub object made last. */
  function Newest(pubsubs: seq<PubSub>): PubSub
    requires pubsubs != []
  {
    pubsubs[|pubsubs| - 1]
  }

  function WithNewest(pubsubs: seq<PubSub>, p: PubSub): seq<PubSub>
    requires pubsubs != []
  {
    pubsubs[|pubsubs| - 1 := p]
  }

  function Subscribed(pubsubs: seq<PubSub>, c: ChatGuid): seq<PubSub>
    requires pubsubs != []
  {
    WithNewest(pubsubs, Newest(pubsubs).(channels := Newest(pubsubs).channels + {c}))
  }

  function Unsubscribed(pubsubs: seq<PubSub>, c: ChatGuid): seq<PubSub>
    requires pubsubs != []
  {
    WithNewest(pubsubs, Newest(pubsubs).(channels := Newest(pubsubs).channels - {c}))
  }

  /** Redis hands a published note to every pubsub object subscribed to its channel. */
  function Enqueued(pubsubs: seq<PubSub>, note: Note): seq<PubSub> {
    Map(pubsubs, (p: PubSub) => if note.channel in p.channels then p.(queue := p.queue + [note]) else p)
  }

  // ---- the websocket manager ----

  function Join(m: Manager, c: ChatGuid, s: Socket): Manager {
    if c in m.chats then m.(chats := m.chats[c := m.chats[c] + {s}])
    else
      m.(chats := m.chats[c := {s}],
         pubsubs := Subscribed(Connected(m.pubsubs), c),
         readers := m.readers + {|m.pubsubs|})
  }

  function Leave(m: Manager, c: ChatGuid, s: Socket): Result<Manager, PythonError>
    requires m.chats != map[] ==> m.pubsubs != []
  {
    if c !in m.chats || s !in m.chats[c] then Err(KeyError)
    else if m.chats[c] - {s} == {} then
      assert m.chats != map[];
      Ok(m.(chats := m.chats - {c}, pubsubs := Unsubscribed(m.pubsubs, c)))
    else Ok(m.(chats := m.chats[c := m.chats[c] - {s}]))
  }

  function AddUserSocket(m: Manager, u: UserGuid, s: Socket): Manager {
    m.(userSockets := m.userSockets[u := SocketsOfUser(m, u) + {s}])
  }

  function RemoveUserSocket(m: Manager, u: UserGuid, s: Socket): Result<Manager, PythonError> {
    if u !in m.userSockets then Ok(m)
    else if s !in m.userSockets[u] then Err(KeyError)
    else Ok(m.(userSockets := m.userSockets[u := m.userSockets[u] - {s}]))
  }

  class RedisPubSubManager {
    var pubsubs: seq<PubSub>

    constructor ()
      ensures pubsubs == []
    {
      pubsubs := [];
    }

    method Connect()
      modifies this
      ensures pubsubs == Connected(old(pubsubs))
    {
      pubsubs := pubsubs + [PubSub({}, [])];
    }

    method Subscribe(chatGuid: ChatGuid) returns (pubsub: nat)
      requires pubsubs != []
      modifies this
      ensures pubsubs == Subscribed(old(pubsubs), chatGuid)
      ensures pubsub == |pubsubs| - 1
    {
      pubsub := |pubsubs| - 1;
      pubsubs := pubsubs[pubsub := pubsubs[pubsub].(channels := pubsubs[pubsub].channels + {chatGuid})];
    }

    method Unsubscribe(chatGuid: ChatGuid)
      requires pubsubs != []
      modifies this
      ensures pubsubs == Unsubscribed(old(pubsubs), chatGuid)
    {
      var pubsub := |pubsubs| - 1;
      pubsubs := pubsubs[pubsub := pubsubs[pubsub].(channels := pubsubs[pubsub].channels - {chatGuid})];
    }

    /** get_message on one pubsub object. */
    method GetMessage(pubsub: nat) returns (note: Option<Note>)
      requires pubsub < |pubsubs|
      modifies this
      ensures old(pubsubs)[pubsub].queue == [] ==> note == None && pubsubs == old(pubsubs)
      ensures old(pubsubs)[pubsub].queue != [] ==>
        && note == Some(old(pubsubs)[pubsub].queue[0])
        && pubsubs == old(pubsubs)[pubsub := old(pubsubs)[pubsub].(queue := old(pubsubs)[pubsub].queue[1..])]
    {
      var p := pubsubs[pubsub];
      if p.queue == [] {
        note := None;
      } else {
        note := Some(p.queue[0]);
        pubsubs := pubsubs[pubsub := p.(queue := p.queue[1..])];
      }
    }
  }

  function Popped(pubsubs: seq<PubSub>, i: nat): seq<PubSub>
    requires i < |pubsubs| && pubsubs[i].queue != []
  {
    pubsubs[i := pubsubs[i].(queue := pubsubs[i].queue[1..])]
  }

  class WebSocketManager {
    var chats: map<ChatGuid, set<Socket>>
    var userGuidToWebsocket: map<UserGuid, set<Socket>>
    const pubsubClient: RedisPubSubManager
    var readers: set<nat>

    function State(): Manager
      reads this, pubsubClient
    {
      Manager(chats, userGuidToWebsocket, pubsubClient.pubsubs, readers)
    }

    /** A chat in the map was added after a connect. */
    ghost predicate Valid()
      reads this, pubsubClient
    {
      chats != map[] ==> pubsubClient.pubsubs != []
    }

    constructor ()
      ensures Valid() && fresh(pubsubClient)
      ensures State() == Manager(map[], map[], [], {})
    {
      chats, userGuidToWebsocket, readers := map[], map[], {};
      pubsubClient := new RedisPubSubManager();
    }

    method AddUserSocketConnection(userGuid: UserGuid, websocket: Socket)
      requires Valid()
      modifies this`userGuidToWebsocket
      ensures Valid() && State() == AddUserSocket(old(State()), userGuid, websocket)
    {
      if userGuid !in userGuidToWebsocket {
        userGuidToWebsocket := userGuidToWebsocket[userGuid := {}];
      }
      userGuidToWebsocket := userGuidToWebsocket[userGuid := userGuidToWebsocket[userGuid] + {websocket}];
    }

    method AddUserToChat(chatGuid: ChatGuid, websocket: Socket)
      requires Valid()
      modifies this`chats, this`readers, pubsubClient
      ensures Valid() && State() == Join(old(State()), chatGuid, websocket)
    {
      if chatGuid in chats {
        chats := chats[chatGuid := chats[chatGuid] + {websocket}];
      } else {
        chats := chats[chatGuid := {websocket}];
        pubsubClient.Connect();
        var subscriber := pubsubClient.Subscribe(chatGuid);
        readers := readers + {subscriber};
      }
    }

    method RemoveUserFromChat(chatGuid: ChatGuid, websocket: Socket) returns (r: Result<(), PythonError>)
      requires Valid()
      modifies this`chats, pubsubClient
      ensures Valid()
      ensures match Leave(old(State()), chatGuid, websocket)
              case Ok(m) => r == Ok(()) && State() == m
              case Err(e) => r == Err(e) && State() == old(State())
    {
      if chatGuid !in chats || websocket !in chats[chatGuid] {
        return Err(KeyError);
      }
      chats := chats[chatGuid := chats[chatGuid] - {websocket}];
      if chats[chatGuid] == {} {
        ghost var before := old(chats);
        assert chats - {chatGuid} == before - {chatGuid};
        chats := chats - {chatGuid};
        pubsubClient.Unsubscribe(chatGuid);
      }
      r := Ok(());
    }

    method RemoveUserGuidToWebsocket(userGuid: UserGuid, websocket: Socket) returns (r: Result<(), PythonError>)
      requires Valid()
      modifies this`userGuidToWebsocket
      ensures Valid()
      ensures match RemoveUserSocket(old(State()), userGuid, websocket)
              case Ok(m) => r == Ok(()) && State() == m
              case Err(e) => r == Err(e) && State() == old(State())
    {
      r := Ok(());
      if userGuid in userGuidToWebsocket {
        if websocket !in userGuidToWebsocket[userGuid] {
          return Err(KeyError);
        }
        userGuidToWebsocket := userGuidToWebsocket[userGuid := userGuidToWebsocket[userGuid] - {websocket}];
      }
    }

    /** One round of _pubsub_data_reader: take a message and send it to each socket of its chat. */
    method ReadOnce(subscriber: nat) returns (note: Option<Note>, sent: set<Socket>)
      requires Valid() && subscriber < |pubsubClient.pubsubs|
      modifies pubsubClient
      ensures Valid()
      ensures old(pubsubClient.pubsubs)[subscriber].queue == [] ==>
        note == None && sent == {} && State() == old(State())
      ensures old(pubsubClient.pubsubs)[subscriber].queue != [] ==>
        && note == Some(old(pubsubClient.pubsubs)[subscriber].queue[0])
        && sent == SocketsOf(old(State()), note.value.channel)
        && State() == old(State()).(pubsubs := Popped(old(pubsubClient.pubsubs), subscriber))
    {
      sent := {};
      note := pubsubClient.GetMessage(subscriber);
      if note.Some? && note.value.channel in chats {
        var sockets := chats[note.value.channel];
        var left := sockets;
        while left != {}
          invariant left <= sockets && sent == sockets - left
          decreases left
        {
          var socket :| socket in left;
          sent := sent + {socket};
          left := left - {socket};
        }
      }
    }
  }
}
