/** From the saved row to the sockets: what members of a chat are sent is what was saved in it. */
module Arrival {
  import opened Collections
  import opened Models
  import opened Managers
  import opened Effects
  import F = Fanout
  import opened Membership
  import Delivery
  import opened DeliveryOrder

  function OnChannel(chat: ChatGuid): Publication -> bool {
    (note: Publication) => note.0 == chat
  }

  function InChat(chat: ChatGuid): Message -> bool {
    (m: Message) => m.chatId == chat
  }

  /** The broadcasts of the run are the publications with the same numbers, on the same channels. */
  ghost predicate Carries(c: F.Cluster, es: seq<F.Event>, published: seq<Publication>) {
    if es == [] then c.published <= |published|
    else
      var past, e := F.After(c, es[..|es| - 1]), es[|es| - 1];
      && Carries(c, es[..|es| - 1], published)
      && (e.Broadcast? && F.Enabled(past, e) ==> past.published < |published| && published[past.published].0 == e.chat)
  }

  ghost predicate Numbered(notes: seq<Note>, published: seq<Publication>) {
    forall i :: 0 <= i < |notes| ==> notes[i].number < |published|
  }

  /** What the notes carry. */
  function Payloads(notes: seq<Note>, published: seq<Publication>): (r: seq<Publication>)
    requires forall i :: 0 <= i < |notes| ==> notes[i].number < |published|
    ensures |r| == |notes| && forall i :: 0 <= i < |notes| ==> r[i] == published[notes[i].number]
  {
    seq(|notes|, i requires 0 <= i < |notes| => published[notes[i].number])
  }

  lemma OneMorePublished(published: seq<Publication>, first: nat, n: nat, chat: ChatGuid)
    requires first <= n < |published|
    ensures Filter(published[first..n + 1], OnChannel(chat)) ==
            Filter(published[first..n], OnChannel(chat)) + if published[n].0 == chat then [published[n]] else []
  {
    assert published[first..n + 1] == published[first..n] + [published[n]];
    var last := [published[n]];
    FilterAppend(published[first..n], last, OnChannel(chat));
    assert last[..0] == [];
    assert Filter(last, OnChannel(chat)) == if published[n].0 == chat then [published[n]] else [];
  }

  /** So far the notes carry what was published on the channel from `first` on. */
  ghost predicate Carried(notes: seq<Note>, published: seq<Publication>, first: nat, n: nat, chat: ChatGuid) {
    && first <= n <= |published| && Numbered(notes, published)
    && Payloads(notes, published) == Filter(published[first..n], OnChannel(chat))
  }

  lemma OneMoreCarried(notes: seq<Note>, published: seq<Publication>, first: nat, n: nat, chat: ChatGuid, to: ChatGuid)
    requires Carried(notes, published, first, n, chat) && n < |published| && published[n].0 == to
    ensures Carried(notes + if to == chat then [Note(chat, n)] else [], published, first, n + 1, chat)
  {
    OneMorePublished(published, first, n, chat);
    var more := notes + if to == chat then [Note(chat, n)] else [];
    assert Payloads(more, published) == Payloads(notes, published) + if to == chat then [published[n]] else [];
  }

  /** What is broadcast on a chat in a run carries what was published on its channel meanwhile, in order. */
  lemma {:induction false} SentCarriesPublished(c: F.Cluster, es: seq<F.Event>, published: seq<Publication>,
                                                chat: ChatGuid)
    requires Carries(c, es, published)
    ensures Carried(SentOn(c, es, chat), published, c.published, F.After(c, es).published, chat)
  {
    if es == [] {
      assert published[c.published..c.published] == [];
    } else {
      var past, e := F.After(c, es[..|es| - 1]), es[|es| - 1];
      SentCarriesPublished(c, es[..|es| - 1], published, chat);
      if e.Broadcast? && F.Enabled(past, e) {
        OneMoreCarried(SentOn(c, es[..|es| - 1], chat), published, c.published, past.published, chat, e.chat);
      } else {
        assert SentOn(c, es, chat) == SentOn(c, es[..|es| - 1], chat);
      }
    }
  }

  lemma NewSince(was: World, now: World)
    requires was.published <= now.published && SavedIsBroadcast(was, now)
    ensures NewNotes(now.published[|was.published|..]) ==
            Map(now.tables.messages[|was.tables.messages|..], ROW_NOTE)
  {
    var added := now.published[|was.published|..];
    var before, rows := NewNotes(was.published), Map(now.tables.messages[|was.tables.messages|..], ROW_NOTE);
    assert now.published == was.published + added;
    NotesAppend(was.published, added);
    assert before + NewNotes(added) == before + rows;
    assert (before + NewNotes(added))[|before|..] == NewNotes(added) && (before + rows)[|before|..] == rows;
  }

  /** Of what was published on the channel of a chat the new messages are the rows saved in it. */
  lemma SavedOnChannel(was: World, now: World, chat: ChatGuid)
    requires was.published <= now.published && SavedIsBroadcast(was, now)
    ensures Filter(Filter(now.published[|was.published|..], OnChannel(chat)), IS_NEW) ==
            Map(Filter(now.tables.messages[|was.tables.messages|..], InChat(chat)), ROW_NOTE)
  {
    var added, rows := now.published[|was.published|..], now.tables.messages[|was.tables.messages|..];
    var both := (note: Publication) => note.0 == chat && note.1.NewMessage?;
    FilterFilter(added, OnChannel(chat), IS_NEW, both);
    FilterFilter(added, IS_NEW, OnChannel(chat), both);
    NewSince(was, now);
    FilterMap(rows, ROW_NOTE, InChat(chat), OnChannel(chat));
  }

  /** While sessions and views save messages, the broadcasts of the system being their publications: a socket that stays
      joined to a chat can be brought by deliveries alone to have been sent, of new messages, exactly the rows saved in
      the chat meanwhile, in order and once each, unless its process had left a subscription behind. */
  lemma {:induction false} SavedRowsArrive(was: World, now: World, processes: nat, before: seq<F.Event>,
                                           after: seq<F.Event>, p: nat, chat: ChatGuid, s: Socket)
    returns (more: seq<F.Event>)
    requires was.published <= now.published && SavedIsBroadcast(was, now)
    requires State(processes, before).published == |was.published|
    requires F.After(State(processes, before), after).published == |now.published|
    requires Carries(State(processes, before), after, now.published)
    requires p < processes && Delivery.LeftBehind(processes, before, p, chat) == 0
    requires Stays(State(processes, before), after, p, chat, s)
    ensures OnlyDelivers(more)
    ensures var c := State(processes, before);
            var got := Got(F.After(F.After(c, after), more), s, chat, c.published);
            && Numbered(got, now.published)
            && Filter(Payloads(got, now.published), IS_NEW) ==
                 Map(Filter(now.tables.messages[|was.tables.messages|..], InChat(chat)), ROW_NOTE)
  {
    var c := State(processes, before);
    more := EverythingCanArrive(processes, before, after, p, chat, s);
    SentCarriesPublished(c, after, now.published, chat);
    SavedOnChannel(was, now, chat);
    assert now.published[|was.published|..|now.published|] == now.published[|was.published|..];
  }

  /** A first part of the notes carries a first part of what was published. */
  lemma CarriedPrefix(notes: seq<Note>, got: seq<Note>, published: seq<Publication>, first: nat, n: nat, chat: ChatGuid)
    requires Carried(notes, published, first, n, chat) && got <= notes
    ensures Numbered(got, published) && Payloads(got, published) <= Filter(published[first..], OnChannel(chat))
  {
    assert published[first..] == published[first..n] + published[n..];
    FilterAppend(published[first..n], published[n..], OnChannel(chat));
    assert Payloads(notes, published)[..|got|] == Payloads(got, published);
  }

  /** At any time it has been sent a first part of what was published on the channel, in order. */
  lemma {:induction false} PublishedArrivesInOrder(published: seq<Publication>, processes: nat, before: seq<F.Event>,
                                                   after: seq<F.Event>, p: nat, chat: ChatGuid, s: Socket)
    requires Carries(State(processes, before), after, published)
    requires p < processes && Delivery.LeftBehind(processes, before, p, chat) == 0
    requires Stays(State(processes, before), after, p, chat, s)
    ensures var c := State(processes, before);
            var got := Got(F.After(c, after), s, chat, c.published);
            && c.published <= |published| && Numbered(got, published)
            && Payloads(got, published) <= Filter(published[c.published..], OnChannel(chat))
  {
    var c := State(processes, before);
    BroadcastsArriveInOrder(processes, before, after, p, chat, s);
    SentCarriesPublished(c, after, published, chat);
    CarriedPrefix(SentOn(c, after, chat), Got(F.After(c, after), s, chat, c.published), published, c.published,
                  F.After(c, after).published, chat);
  }
}
