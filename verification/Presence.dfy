/** The expiring online key of src/websocket/services.py against the plain log of a user's comings and goings. */
module Presence {
  type UserId = nat
  type ChatGuid = nat
  type Time = int

  const STATUS_EXPIRATION_SECONDS: Time := 60

  /** A session of a user marks the user online or offline. */
  datatype Mark = Online(user: UserId, at: Time) | Offline(user: UserId, at: Time)

  datatype Status = IsOnline | IsInactive

  /** The status keys in Redis, each with the time at which it expires. */
  type Keys = map<UserId, Time>

  function Put(keys: Keys, m: Mark): Keys {
    match m
    case Online(u, at) => keys[u := at + STATUS_EXPIRATION_SECONDS]
    case Offline(u, at) => keys - {u}
  }

  function Replay(log: seq<Mark>): Keys {
    if log == [] then map[] else Put(Replay(log[..|log| - 1]), log[|log| - 1])
  }

  /** cache.exists. */
  predicate Exists(keys: Keys, u: UserId, now: Time) {
    u in keys && now < keys[u]
  }

  ghost predicate StillOnline(log: seq<Mark>, i: nat, u: UserId, now: Time)
    requires i < |log|
  {
    && log[i].Online? && log[i].user == u && now - log[i].at < 60
    && forall j :: i < j < |log| ==> !(log[j].Offline? && log[j].user == u)
  }

  /** The reference: an online mark of the last 60 seconds with no later offline mark. */
  ghost predicate RecentlyOnline(log: seq<Mark>, u: UserId, now: Time) {
    exists i :: 0 <= i < |log| && StillOnline(log, i, u, now)
  }

  /** The marks of all sessions, in the order of one clock that now reads `now`. */
  ghost predicate InOrder(log: seq<Mark>, now: Time) {
    && (forall i, j :: 0 <= i < j < |log| ==> log[i].at <= log[j].at)
    && (forall i :: 0 <= i < |log| ==> log[i].at <= now)
  }

  /** However the sessions of all users interleave, the key is there exactly when the log says online. */
  lemma {:induction false} KeyRefinesLog(log: seq<Mark>, u: UserId, now: Time)
    requires InOrder(log, now)
    ensures Exists(Replay(log), u, now) <==> RecentlyOnline(log, u, now)
  {
    if log != [] {
      var n := |log| - 1;
      KeyRefinesLog(log[..n], u, now);
      if log[n] == Online(u, log[n].at) {
        assert now - log[n].at < 60 ==> StillOnline(log, n, u, now);
      } else if log[n] != Offline(u, log[n].at) {
        forall i | 0 <= i < n ensures StillOnline(log, i, u, now) <==> StillOnline(log[..n], i, u, now) {
        }
      }
    }
  }

  /** Who has just been marked online is online for a minute. */
  lemma JustOnline(log: seq<Mark>, u: UserId, at: Time, now: Time)
    requires log != [] && log[|log| - 1] == Online(u, at) && now < at + 60
    ensures RecentlyOnline(log, u, now)
  {
    assert StillOnline(log, |log| - 1, u, now);
  }

  class PresenceStore {
    var keys: Keys
    ghost var log: seq<Mark>

    ghost predicate Valid()
      reads this
    {
      keys == Replay(log)
    }

    constructor ()
      ensures Valid() && log == []
    {
      keys, log := map[], [];
    }

    /** mark_user_as_online, apart from its broadcast. */
    method MarkUserAsOnline(user: UserId, now: Time)
      requires Valid()
      modifies this
      ensures Valid() && log == old(log) + [Online(user, now)]
    {
      keys := keys[user := now + 60];
      log := log + [Online(user, now)];
      assert log[..|log| - 1] == old(log);
    }

    /** mark_user_as_offline, apart from its broadcast. */
    method MarkUserAsOffline(user: UserId, now: Time)
      requires Valid()
      modifies this
      ensures Valid() && log == old(log) + [Offline(user, now)]
    {
      keys := keys - {user};
      log := log + [Offline(user, now)];
      assert log[..|log| - 1] == old(log);
    }

    /** One round of check_user_statuses: the status broadcast to each chat that is both in the session's map and
        among the user's chats; nothing once the session has no chats. */
    method CheckUserStatus(user: UserId, now: Time, sessionChats: set<ChatGuid>, userChats: set<ChatGuid>)
      returns (sent: map<ChatGuid, Status>)
      requires Valid() && InOrder(log, now)
      ensures sent.Keys == sessionChats * userChats
      ensures forall c :: c in sent ==> sent[c] == if RecentlyOnline(log, user, now) then IsOnline else IsInactive
    {
      var isOnline := user in keys && now < keys[user];
      KeyRefinesLog(log, user, now);
      sent := map[];
      if sessionChats == {} {
        return;
      }
      var left := sessionChats * userChats;
      while left != {}
        invariant left <= sessionChats * userChats && sent.Keys == sessionChats * userChats - left
        invariant forall c :: c in sent ==> sent[c] == if isOnline then IsOnline else IsInactive
        decreases left
      {
        var c :| c in left;
        sent := sent[c := if isOnline then IsOnline else IsInactive];
        left := left - {c};
      }
    }
  }
}
