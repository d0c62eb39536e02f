# A verified model of the chat server

The server keeps its messages in Postgres, its caches and broadcasts in Redis, and its websocket sessions in several
processes that share nothing but those two. The project models four coupled parts of it and proves what they promise
each other.

**The message store with read watermarks.** There are no per-message read flags: one `last_read_message_id` per user
and chat stands for all of them (README.md:36). `Models`, `Queries` and `Store` hold the tables, the queries and the
transactions. `ReadTracking` runs a reference with one flag per user and message beside them and proves that pages,
page sizes, badges, lists and read broadcasts are what the flags say, in every run. `PageMeaning`, `DirectChats`,
`Pagination` and `ServedWalks` prove what pages, counts and page walks mean. `Races` takes creating a chat and
acknowledging a message apart into the statements between which the server awaits, lets requests interleave at will,
and proves exactly when the promises about pairs, watermarks and broadcasts survive. `HalfCreated` looks at a chat
between the flush of its row and the flush of its read statuses, and at null watermarks. `Answers` says in the terms of the rows what clients are
told, who is refused, and how sending, acknowledging, creating and deleting change the next answers of both participants.

**The Redis caches.** `CacheProtocol` is a transition system in which every request is split into its existence check
and insert, or its select and update, and then into the start of each clearing scan, each deleted key and the end of
each scan. The parts interleave at will with other requests, with readers that fill the caches, with eviction, expiry
and the clock. Pages are fresh unless a writer is between its write and its clear; chat lists never under-report as long
as no update writes a watermark back past a message that was read. `Writes` has the statements that change the tables.
`CacheLimits` and `ListFreshness` say exactly when the parts of an answer that nobody keeps fresh are fresh all the
same, and `CacheRuns` has the runs in which they are not.

**Sessions and fan-out.** `Managers` has the two manager classes, `Fanout` the transition system of all processes:
sessions that join, are active and leave, managers, pubsub objects with their queues, broadcasts and deliveries.
`Membership`, `Delivery` and `DeliveryOrder` prove what holds in every run of it, and `Arrival` that the new messages sent
to a socket that stays in a chat are exactly the rows saved in the chat, in order and once each.

**Presence.** `Presence` compares the expiring online key with a plain log of online and offline marks.

The tables, the cache, the managers, the session and its handlers are classes (`Storage`, `Managers`, `Presence`,
`Handlers`), the views, service loops and the session loop are methods (`Views`, `ChatServices`, `Sessions`). Their
contracts tie each of them to the functions about which the lemmas speak: the handlers to the transactions, the views
to the steps of the cache protocol, the managers to the steps of the fan-out system. `Outcomes` writes out what a handler
leaves behind, row by row and key by key. `Effects` and `WriterRuns` compose the handlers: whatever frames a session is
sent, what it does to the tables, the cache and the broker is a run of the transactions asked for. Every row saved is
broadcast on the channel of its chat and nothing else is as new, the read broadcasts are those of `ReadTracking`, each
online or offline mark is announced in its chat, and a reachable state of the cache protocol leads to a reachable one.

## What is assumed

- A row's guid is a second name for its id, so the model has one name for both. A chat with guid 0 does not exist.
- Within a chat `created_at` increases strictly with the message id. The older-page query compares with a strict `<`
  (src/chat/services.py:239), so it would skip messages of equal time.
- A client that sends to, reads or deletes a chat is one of its two participants; the initiator of a chat is not its
  recipient (the TODO in src/chat/router.py:51); `message_read` names an active message of that chat.
- `add_user_to_chat` is used for chats under the id and guid that the server announced; `Effects.Echoes` says so where
  it is needed.
- In `Store` and `ReadTracking` each request is one step. In `Races` and `CacheProtocol` it is not, but a chat appears
  together with its read statuses (`HalfCreated` says what is seen in between), a message together with the new time of
  its chat, and a select reads the current rows.
- A page or list reader's query and its `cache.set` are one step. Each manager method and each delivery of a message to
  the sockets of a chat is one step.
- A Redis scan returns every key that is there from its start to its end; a key that was gone in between, by deletion,
  eviction or expiry, and was filled again need not be returned.
- In `Arrival` the broadcasts of the system are the handlers' publications, in the same order and on the same channels.
- Caching is enabled, sending to a socket succeeds, closing a Redis connection leaves subscriptions alone.
- In `Fanout` a session ends by a disconnect. `Sessions.WebsocketEndpoint` also shows the other ending: an exception
  that a handler lets through skips the cleanup, and the socket stays in the chats of its local map.

## Where the code does not give what one might expect

- The page cache key has no user in it (src/chat/router.py:90), while `last_read_message` depends on the user. A served
  page has the right one if and only if the viewer's watermark equals that of the participant who filled the cache
  (`CacheLimits.CachedLastReadMessage`, `CacheLimits.ServedFromOther`); `CacheRuns.WrongLastReadMessage` is a reachable
  state in which it is wrong.
- The cache is asked before the participants are (src/chat/router.py:93-99). Who is not a participant is served a page if
  and only if one of the requested size is cached (`CacheLimits.OutsiderIsServedFromCache`).
- Reading a message and creating a chat do not clear cached chat lists. A cached list equals a fresh one if and only if,
  since it was filled, no chat of the user was inserted and in each listed chat no message of the other participant lies
  between the watermark at the start and the last one written (`CacheLimits.CachedListIsFresh`);
  `CacheRuns.NewChatIsMissing` and `CacheRuns.ReadIsStillCounted` are reachable states for both.
- A cached list can even under-report, because a racing acknowledgement can write a watermark back. From its filling on
  it never does if and only if no update writes a watermark of a listed chat below a message that had been read when the
  list was filled (`CacheLimits.ReportsUnlessReopened`, and `CacheLimits.CachedListReports` for a single state).
  `CacheRuns.ReadIsForgotten` is a reachable state in which it does. With each acknowledgement uninterrupted it never
  happens (`CacheProtocol.ServedListNeverUnderReports`, `CacheProtocol.UninterruptedUpdateIsCalm`).
- The engine commits each statement by itself (src/database.py:42), and the existence check and the insert of a chat, or
  the select and the update of a watermark, are separate statements. A pair keeps to one chat if and only if no insert
  finds that a chat of its pair was created since its own check (`Races.OneChatUnlessTaken`); watermarks stay the
  highest answered ids and broadcasts ascend if and only if no update comes after a higher id was written, and no
  broadcast after one as high was sent, since the request's own select (`Races.AcksInOrderUnlessPassed`).
  `RacingRuns.RacingCreations` and `RacingRuns.RacingAcknowledgements` are runs in which they fail.
- A chat can be seen before its read statuses. Meanwhile badges raise, lists count nothing and older pages raise when they
  have something to show (`HalfCreated.WithoutStatuses`); afterwards a participant's lookup finds one row if and only if
  that participant acknowledged nothing in between (`HalfCreated.SingleUnlessAcknowledged`).
- Exactly-once delivery fails after a chat is given up by a process while another chat's pubsub object is the newest,
  because `unsubscribe` acts on the newest one. `Delivery.SubscriptionsAreCounted` and `Delivery.BroadcastReachesMembers`
  give the exact number of deliveries in every run; in the run of `DuplicateDelivery.RejoiningDuplicates` a socket is
  sent one broadcast twice.
- A session that ends marks its user offline once for each of its chats, also when the user is still connected by another
  session, and not at all when it has no chat (src/websocket/router.py:98-110; `Sessions.LeaveAll`).
- `message_read` for a message that does not exist first answers with an error, then fails on `message.id` and answers
  with a second one (src/websocket/handlers.py:136-151); `Session.MessageReadHandler` follows the code.

## Model

| member | source | states |
|---|---|---|
| Models.ChatLookupIsSingle | src/chat/services.py:52-61 | in consistent tables a lookup by guid never raises for multiple rows, and finds a chat exactly when that chat has the guid |
| Queries.MarksOfParticipants | src/chat/services.py:172-190 | whoever looks, the loop over the read statuses binds the viewer's own watermark and the other participant's |
| Queries.ViewsAreTrue | src/chat/services.py:196-207 | `is_read` computed from the viewer's two watermarks is, for every row, "the one who did not write it has read it" |
| Queries.ActiveInOrder | src/chat/services.py:159-165 | ordering by `created_at` descending is the reverse of the id order |
| PageMeaning.FirstPageMeaning | src/chat/services.py:156-209 | the first page is the newest `size` active messages with true read flags, and says that there is more exactly when there is |
| PageMeaning.OlderPageMeaning | src/chat/services.py:225-275 | an older page never meets an unbound watermark, and is the newest `limit` active messages before the cursor with true read flags |
| PageMeaning.PagesAgreeForBothParticipants | src/chat/services.py:178-205 | both participants get equal first and older pages, read flags included |
| PageMeaning.ReadFlagsAreClosed | src/chat/services.py:196-207 | in first and older pages ids strictly decrease, and below a read message every message of the same author is read |
| PageMeaning.LastReadMessageIsThePeers | src/chat/services.py:178-193 | `last_read_message` is the message of the chat that the other participant's watermark names, and missing exactly when that participant has read nothing |
| PageMeaning.LastReadMessageDependsOnViewer | src/chat/services.py:172-193 | the `last_read_message` of the two participants agrees if and only if their watermarks are equal |
| PageMeaning.StatsMeaning | src/chat/services.py:278-313 | the badge of one chat is the number of active messages by the other participant that are not read |
| PageMeaning.FirstPageCoversUnread | src/chat/router.py:83-87 | page sizing never raises, and the page of that size holds every message past the viewer's watermark |
| DirectChats.GroupedEqualsPerChat | src/chat/services.py:82-108 | the one joined and grouped query with zero defaults gives, for each listed chat, the count of the per-chat query and of the per-message meaning |
| DirectChats.FreshListMeaning | src/chat/router.py:132-143 | the list holds exactly the active direct chats with their unread counts, and the total is the size of the set of all unread messages by others in them |
| Answers.PagesShowRows | src/chat/services.py:196-207 | first and older pages show active rows of the chat with their own id, author, content and time, and as read exactly what the one who did not write it has read |
| Answers.FirstPageRefusals | src/chat/router.py:80-102 | a first page is refused with 404 exactly when the chat is not there, and with 409 exactly to an outsider for whom no page of the requested size is cached |
| Answers.OlderRefusals | src/chat/router.py:185-198 | an older page is refused with 404 for a missing chat, 409 for an outsider, 404 for a cursor that is no active message of the chat, in this order, and never otherwise |
| Answers.ListHoldsActiveChats | src/chat/services.py:123-138 | a user's list holds exactly the user's chats that are direct and not deleted |
| Answers.ListIsNewestFirst | src/chat/services.py:134-134 | of two chats of a list the first is the one updated later |
| Answers.SentHeadsThePage | src/websocket/handlers.py:69-86 | after a message both participants see it first, with its author, content and time and unread, and below it what they saw before |
| Answers.SentIsCounted | src/websocket/handlers.py:69-86 | a message adds one to the other participant's count and nothing to its author's |
| Answers.SentComesFirst | src/websocket/handlers.py:78-81 | a message gives its chat the new time, and puts the chat first in both lists when that is later than the times of all other chats |
| Answers.AcknowledgedIsShown | src/websocket/services.py:99-113 | an acknowledgement turns the read flags of exactly the other participant's messages up to it, on both participants' pages, and nothing else shown there |
| Answers.AcknowledgedIsLastRead | src/chat/services.py:193-193 | the other participant is then told that the acknowledged message is the last one read, or a later one that had been before |
| Answers.CreateAnswer | src/chat/router.py:41-66 | creating is refused with 404 exactly for an unknown recipient, else with 409 exactly when the pair has a direct chat that is not deleted; otherwise the answer is a new id under which the chat of the two stands with two empty watermarks |
| Answers.CreatedForBoth | src/chat/router.py:63-66 | a new chat is in both lists, with nothing new and nothing to show, and neither can create another |
| Answers.DeletedRows | src/models.py:72-73 | exactly the chat, its messages and its read statuses are gone |
| Answers.DeletedIsGone | src/chat/router.py:162-166 | a deleted chat is answered with 404, listed nowhere, and takes neither messages nor acknowledgements; a page that is still cached is not served |
| Answers.DeletedLeavesOthers | src/chat/router.py:165-166 | every other chat answers as before: pages, last read message, sizes, badges, and its place in the lists |
| Answers.DeletedCanBeCreated | src/chat/services.py:142-153 | the pair of a deleted chat can create a new one |
| Store.PairLookupIsSingle | src/chat/services.py:142-153 | the existence check never raises, and answers yes exactly when the pair has an active direct chat |
| Store.StatusLookupIsSingle | src/websocket/services.py:95-97 | the read status lookup of a participant finds exactly one row, with that participant's watermark |
| Store.ReadMovesOneWatermark | src/websocket/services.py:92-115 | the watermark becomes the larger of itself and the acknowledged id, a status is returned exactly on a strict advance, every other watermark and table stays |
| Store.CreateKeepsUnique | src/chat/router.py:58-64 | one more chat keeps the pairs unique if and only if the pair has no active direct chat yet |
| Store.CreateKeepsConsistent | src/chat/services.py:15-27 | creating a chat after a negative existence check keeps every invariant of the tables |
| Store.SendKeepsConsistent | src/websocket/handlers.py:69-86 | saving a participant's message succeeds and keeps every invariant of the tables |
| Store.ReadKeepsConsistent | src/websocket/services.py:92-115 | acknowledging a message succeeds and keeps every invariant of the tables |
| Store.DeleteKeepsConsistent | src/chat/router.py:165-166 | deleting a chat with its messages and read statuses keeps every invariant of the tables |
| Store.EveryRunIsConsistent | src/chat/services.py:15-27 | in every run of whole transactions each chat has two distinct participants with exactly one non-null watermark each, naming 0 or a message of that chat, and each pair has at most one active direct chat |
| Pagination.OlderViewFromIndex | src/chat/router.py:177-202 | asking for what is older than the k-th active message gives the next ones down, never an error |
| Pagination.WalkIsComplete | src/chat/services.py:233-252 | first page then older pages give exactly the messages active at the first request, newest first, no gaps or repeats, although messages arrive meanwhile; only the last page says that there is no more |
| Pagination.WalkEnds | src/chat/services.py:243-252 | with any positive limits every walk ends and no request of it fails |
| Pagination.WalkLength | src/chat/services.py:163-170 | with one limit a walk takes exactly 1 + ceil(max(0, n - size) / limit) requests |
| Pagination.WalkShowsTruth | src/chat/services.py:196-207 | a whole walk during which nobody acknowledges shows every message with its true flag |
| Pagination.BadgeEqualsUnreadOnWalk | src/chat/services.py:287-301 | whatever is sent, acknowledged or written back meanwhile, a whole walk shows as many unread messages of the other participant as the badge counted, less those acknowledged before their page was served, plus those that had become new again; either number is positive if and only if there is such a message |
| ServedWalks.ServedWalkIsComplete | src/chat/router.py:92-115 | a walk from the page that the client was served, cached or not, with no writer about to clear it, is complete |
| ServedWalks.ServedSnapshotsGrow | src/chat/services.py:225-275 | whatever the server does between the requests of a walk, racing requests included and short of deleting the chat, the active messages only grow at the new end |
| ServedWalks.ServedMarksGrow | src/websocket/services.py:102-110 | between the requests of a walk the viewer's watermark only grows, as long as no update writes it back |
| ReadTracking.WatermarksRefineFlags | README.md:36 | in every run one watermark per user and chat says the same about every message as one flag per user and message |
| ReadTracking.CompactFormAgrees | README.md:36 | in every run first pages, older pages, page sizes, badges and read broadcasts equal those computed from the per-message flags |
| ReadTracking.CompactListAgrees | README.md:36 | in every run the chat list has the counts and the total computed from the per-message flags |
| ReadTracking.MarkAfter | src/websocket/services.py:92-115 | what each transaction does to each watermark: an acknowledgement raises its own to the maximum, a new chat starts at 0, all else leaves it |
| ReadTracking.MarkIsHighestAcknowledged | src/websocket/services.py:99-113 | in every run of whole requests, whatever else happens in between, a watermark is the highest id that its user acknowledged in its chat |
| ReadTracking.ReadAllIsHighest | src/websocket/services.py:99-113 | any acknowledgements, of any users in any chats, leave the tables with each watermark raised to the highest of its own |
| ReadTracking.ReadAllMark | src/websocket/services.py:99-113 | each watermark ends as the maximum of its start and its own acknowledged ids, in any mixed sequence |
| ReadTracking.ReadOrderIsIrrelevant | src/websocket/services.py:92-115 | acknowledgements of any users in any chats, reordered or repeated, end in the same tables |
| ReadTracking.AnnouncedIsAdvance | src/websocket/handlers.py:149-168 | a `message_read` broadcast goes out exactly when the watermark strictly advances, with the id that it advances to |
| ReadTracking.BroadcastsIncrease | src/websocket/handlers.py:152-168 | per user and chat the `message_read` broadcasts of a run of whole requests carry strictly increasing ids |
| Races.LookupsStaySingle | src/chat/services.py:52-61 | however requests race, each chat has two participants with one non-null watermark each, and lookups by guid or participant find one row, once its read statuses are there |
| HalfCreated.WithoutStatuses | src/chat/services.py:20-26 | what every query gives for a chat whose row is flushed and whose read statuses are not: everything unread, the older page raising exactly when it has something to show, a badge that raises, a list that counts nothing, an acknowledgement that inserts its own row |
| HalfCreated.SingleUnlessAcknowledged | src/chat/services.py:23-27 | when the read statuses follow, a participant's lookup finds one row if and only if that participant acknowledged nothing in between, and raises otherwise |
| HalfCreated.NullMark | src/models.py:118-118 | what every query gives for a participant whose watermark is null: page size, badge, acknowledgement and older pages raise, first pages and lists take it for 0 |
| Races.StepKeepsPairs | src/chat/router.py:58-64 | a step keeps pairs unique if and only if it is not an insert for a pair whose chat was created since the insert's own check |
| Races.OneChatUnlessTaken | src/chat/router.py:58-64 | a run keeps every pair to one active direct chat throughout if and only if no insert is overtaken by another creation for its pair |
| Races.StepKeepsMarks | src/websocket/services.py:95-113 | a step keeps each watermark at its highest answered id if and only if it is not an update after a higher id was written since its own select |
| Races.StepKeepsAscending | src/websocket/handlers.py:149-168 | a step keeps the broadcasts ascending if and only if it is not a broadcast after one as high was sent since its own select |
| Races.MarksHighestUnlessPassed | src/websocket/services.py:95-113 | a run keeps every watermark at its highest answered id throughout if and only if no update is passed |
| Races.BroadcastsAscendUnlessPassed | src/websocket/handlers.py:149-168 | in a run in which no update is passed the broadcasts ascend throughout if and only if no broadcast is passed |
| Races.AcksInOrderUnlessPassed | src/websocket/services.py:95-113 | a run keeps watermarks highest and broadcasts ascending throughout if and only if no update and no broadcast is passed |
| Races.UninterruptedCreation | src/chat/router.py:58-64 | check and insert with nothing in between are the one transaction of the store |
| Races.UninterruptedAcknowledgement | src/websocket/handlers.py:149-168 | select, update and broadcast with nothing in between are the one transaction of the store and its announcement |
| RacingRuns.RacingCreations | src/chat/router.py:58-64 | a run in which both users create the chat at once: two active chats, and an existence check that raises from then on |
| RacingRuns.RacingAcknowledgements | src/websocket/services.py:95-113 | a run in which two sessions acknowledge at once: the lower watermark wins, and the broadcasts go down |
| CacheProtocol.FilledUntilExpiry | src/chat/router.py:92-113 | a page that was not cached is served for half an hour to everybody who asks for the same size, and then no more; no other key is touched |
| CacheProtocol.ListFilledUntilExpiry | src/chat/router.py:127-147 | the same for a list, under its own user's key |
| Writes.WriteKeepsRows | src/websocket/services.py:99-113 | each single write, at whatever time it happens, keeps every invariant of the rows |
| Writes.StaysOpen | src/websocket/services.py:95-113 | whatever is written between the select and the update of an acknowledgement, an update that still finds its row finds the chat and its participant, and the id still names a message of it |
| Writes.MarkAfterWrite | src/websocket/services.py:102-113 | an update sets its own watermark to its id, up or down; no other write moves any |
| CacheProtocol.WriteClearsPages | src/websocket/handlers.py:96-101 | a write that changes a chat which still exists is followed by clearing that chat's pages of every size |
| CacheProtocol.CountRisesIfReopened | src/websocket/services.py:102-113 | an update raises its user's count of the chat if and only if it writes the watermark back past a message of the other participant |
| CacheProtocol.WriteKeepsReports | src/chat/router.py:168-170 | a write that is not followed by clearing a user's list, and re-opens nothing, keeps an old list from under-reporting |
| CacheProtocol.NextKeepsInv | src/chat/router.py:92-113 | each step of a reader, a split request, eviction, expiry or the clock keeps the cache invariant |
| CacheProtocol.EveryRunKeepsInv | src/chat/router.py:92-113 | the cache invariant holds after every run of split requests |
| CacheProtocol.StalePagesAreCovered | src/websocket/handlers.py:84-101 | a cached page that differs from a fresh query is covered by a writer between its write and its clear; with no clearing pending it equals the fresh page for both participants |
| CacheProtocol.ServedPageIsFresh | src/chat/router.py:86-113 | with no covering writer the page served, cached or not, is the fresh one, and holds every message past the viewer's watermark |
| CacheProtocol.NextKeepsLists | src/chat/router.py:127-149 | each step but an update that re-opens a message keeps an uncovered list from under-reporting |
| CacheProtocol.ServedListNeverUnderReports | src/chat/router.py:127-149 | in every state reached without re-opening a message, with no covering writer, each chat's fresh count is at most the count served (0 for a missing chat), and so is the total |
| CacheProtocol.UninterruptedUpdateIsCalm | src/websocket/services.py:95-113 | an update right after its own select re-opens nothing |
| CacheLimits.CachedLastReadMessage | src/chat/router.py:90-113 | in every reachable state an uncovered cached page is one participant's fresh answer, and another's if and only if the watermarks are equal |
| CacheLimits.ServedFromOther | src/chat/router.py:92-113 | served from a page that the other participant has just filled, `last_read_message` is right if and only if the watermarks are equal |
| CacheRuns.WrongLastReadMessage | src/chat/router.py:90-96 | a reachable state, with nothing under way, in which a participant is served a message as last read by the other one, who has read nothing |
| CacheLimits.OutsiderIsServedFromCache | src/chat/router.py:92-99 | who is not a participant is served a page if and only if one of the requested size is cached, and refused otherwise |
| ListFreshness.StepChangesList | src/chat/router.py:132-143 | a write that does not clear a user's list leaves the fresh list as it was if and only if it neither inserts a chat of the user nor moves the user's watermark in a listed chat, up or down, past a message of the other participant |
| ListFreshness.ListIsSame | src/chat/router.py:132-143 | after any number of such writes the fresh list is what it was if and only if no chat was added and no message of a listed chat became new or read |
| ListFreshness.OldListReports | src/chat/router.py:132-143 | after any number of such writes the old list under-reports if and only if a watermark in a listed chat is below a message that was read |
| CacheLimits.CachedListIsFresh | src/chat/router.py:127-149 | from its filling until it is cleared, evicted, expired or filled anew, a cached list equals a fresh one if and only if no chat of the user was inserted and in each listed chat no message of the other participant lies between the watermark at the start and the last one written |
| CacheLimits.CachedListReports | src/chat/router.py:127-149 | a cached list under-reports if and only if in a listed chat such a message lies above the last watermark written and not above the one at the start |
| CacheLimits.ReportsUnlessReopened | src/chat/router.py:127-149 | from its filling on a cached list never under-reports, in any state, if and only if no update writes a watermark of a listed chat below a message that had been read |
| CacheRuns.NewChatIsMissing | src/chat/router.py:63-66 | a reachable state in which a new chat is missing from the served list |
| CacheRuns.ReadIsStillCounted | src/websocket/handlers.py:164-166 | a reachable state in which an acknowledged message is still counted in the served list |
| CacheRuns.ReadIsForgotten | src/websocket/services.py:95-113 | a reachable state, with nothing under way, in which a served list counts fewer new messages of a chat than there are, after two sessions acknowledged at once |
| ChatServices.FindWatermarks | src/chat/services.py:178-182 | the loop finds the last own and the last other row's watermark |
| ChatServices.GetChatMessages | src/chat/services.py:156-209 | computes the first page of `Queries`, about which `FirstPageMeaning` speaks |
| ChatServices.BuildSchemas | src/chat/services.py:261-272 | builds the shown messages, or raises exactly when a needed watermark is unbound or null |
| ChatServices.GetOlderChatMessages | src/chat/services.py:225-275 | computes the older page of `Queries`, or raises when a needed watermark is missing |
| ChatServices.AddNewMessagesStats | src/chat/services.py:278-313 | returns the badge and sets the flag exactly when it is positive; raises without an own read status |
| ChatServices.GetNewMessagesPerChat | src/chat/services.py:72-120 | the dictionary filled from the groups gives every listed chat the size of its group, or 0 |
| ChatServices.GetUserActiveDirectChats | src/websocket/services.py:126-142 | maps exactly the active direct chats of the user, and returns nothing exactly when there is none |
| Storage.ChatDatabase.CreateDirectChat | src/chat/services.py:15-34 | the tables become those of `Store.CreateDirectChat` |
| Storage.ChatDatabase.SaveMessage | src/websocket/handlers.py:69-91 | the tables become those of `Store.SaveMessage`, or stay as they were when the chat is gone |
| Storage.ChatDatabase.MarkLastReadMessage | src/websocket/services.py:92-115 | run without interruption, tables and returned status are those of `Store.MarkLastRead`; nothing changes on an error, a chat that is gone included |
| Storage.ChatDatabase.DeleteChat | src/chat/router.py:165-166 | the chat, its messages and its read statuses are gone, all else stays |
| WriterRuns.ListsAreDropped | src/utils.py:26-30 | clearing the lists of some users deletes exactly their list keys |
| Storage.RedisCache.ClearMatching | src/utils.py:19-30 | deletes exactly the keys that match |
| Storage.RedisCache.ClearForGetMessages | src/utils.py:19-23 | deletes exactly the pages of the chat, of every size |
| Storage.RedisCache.ClearForGetDirectChats | src/websocket/handlers.py:97-99 | deletes exactly the chat lists of the given users |
| WriterRuns.WriterRunsAlone | src/websocket/handlers.py:84-101 | checking or selecting, writing and then clearing without interruption ends where a run of the split steps ends, and re-opens nothing |
| WriterRuns.EntriesCanGo | src/chat/router.py:111-113 | in the cache protocol any key can be evicted at any time, and the clock can move on by any amount |
| WriterRuns.WriterKeepsReachable | src/websocket/handlers.py:84-101 | a request with its clearing, uninterrupted, leads from a reachable state of the cache protocol to a reachable one |
| Views.CreateDirectChatView | src/chat/router.py:41-66 | 404 for an unknown recipient, 409 for an existing chat, otherwise the new chat |
| Views.GetUserMessagesInChat | src/chat/router.py:69-115 | answer and cache are those of the protocol's page step, error cases included |
| Views.TotalOf | src/chat/router.py:138-143 | the loop's total is that of the list about which `FreshListMeaning` speaks |
| Views.GetUserChatsView | src/chat/router.py:119-149 | answer and cache are those of the protocol's list step |
| Views.DeleteDirectChatView | src/chat/router.py:152-170 | succeeds exactly for a participant, deletes the chat and clears exactly both lists; otherwise changes nothing |
| Managers.WebSocketManager.AddUserSocketConnection | src/managers/websocket_manager.py:29-30 | the user gains the socket |
| Managers.WebSocketManager.AddUserToChat | src/managers/websocket_manager.py:32-39 | the whole new state is that of the step `Join` |
| Managers.WebSocketManager.RemoveUserFromChat | src/managers/websocket_manager.py:46-51 | the whole new state is that of the step `Leave`; an absent socket is a KeyError that changes nothing |
| Managers.WebSocketManager.RemoveUserGuidToWebsocket | src/managers/websocket_manager.py:53-55 | the user loses the socket; an absent socket is a KeyError |
| Managers.WebSocketManager.ReadOnce | src/managers/websocket_manager.py:58-68 | one message is taken off this reader's queue and sent to exactly the sockets now joined to its channel |
| Fanout.JoinKeepsManagerOk | src/managers/websocket_manager.py:32-39 | joining adds the socket to that chat alone, and every chat kept is still heard by a running reader |
| Fanout.LeaveKeepsManagerOk | src/managers/websocket_manager.py:46-51 | leaving takes the socket from that chat alone, leaves no empty set, and no chat kept goes deaf, although the newest pubsub object is the one unsubscribed |
| Fanout.StepEffect | src/websocket/router.py:42-53 | each step changes the chat and user maps of each process by exactly the socket it names |
| Fanout.SessionEffect | src/websocket/handlers.py:55-62 | each step changes a session's own map in step with its manager's |
| Fanout.StepKeepsInv | src/websocket/router.py:29-110 | each step of a session, broadcast or delivery keeps local maps, managers and subscriptions in agreement |
| Fanout.EveryRunKeepsInv | src/websocket/router.py:29-110 | the agreement holds after every run of any number of sessions and processes |
| Membership.LocalMapAgrees | src/websocket/handlers.py:218-220 | in every reachable state a chat is in a session's local map exactly when its socket is in the manager's set, up to the chats it is still joining or has already left, and the socket is in no other process |
| Membership.EveryChatIsHeard | src/managers/websocket_manager.py:36-39 | in every reachable state every chat of a manager has a socket, and a live pubsub object with a running reader subscribed to it |
| Membership.CleanupNeverFails | src/websocket/router.py:98-110 | disconnect cleanup never removes an absent socket, from a chat or from its user |
| Membership.MembersCanBroadcast | src/managers/websocket_manager.py:41-44 | a process with a joined session has a connection to publish on |
| Membership.NothingIsLeft | src/managers/websocket_manager.py:46-51 | once all sessions have ended every manager's chat map is empty |
| Membership.SessionsDoNotInterfere | src/websocket/router.py:42-53 | striking out everything one session does leaves every other socket's membership as it was |
| Membership.LifetimeLeavesNoTrace | src/websocket/router.py:98-110 | a session that has come and gone, with any other sessions acting in between, leaves every process's chat map as if it had never been there |
| Membership.LifetimeIsNeutral | src/websocket/router.py:98-110 | with no step of another session in between, a session leaves every process's chat map as it found it |
| Delivery.JoinSubscriptions | src/managers/pubsub_manager.py:15-21 | connecting and subscribing for a chat that gets its first socket adds exactly one subscription, to that chat; joining a chat already kept adds none |
| Delivery.LeaveSubscriptions | src/managers/pubsub_manager.py:23-24 | unsubscribing when a chat loses its last socket takes away exactly one subscription of it, unless the newest pubsub object is another chat's: then none; no other chat loses any |
| Delivery.SubscriptionsAreCounted | src/managers/pubsub_manager.py:15-27 | in every run a process has one subscription for a chat it keeps, plus one for every time it gave the chat up while another chat's pubsub object was the newest |
| Delivery.StepDelivers | src/managers/websocket_manager.py:58-68 | each step moves copies of a broadcast from queues to joined sockets and loses or doubles none |
| Delivery.BroadcastReachesMembers | src/managers/websocket_manager.py:41-68 | a socket that stays joined receives a broadcast from any process, or has it queued, once plus once per subscription left behind; hence exactly once if and only if none was |
| Delivery.BroadcastReachesOnlyMembers | src/managers/websocket_manager.py:58-68 | a socket not joined meanwhile never receives it |
| Delivery.NothingLeftBehind | src/managers/websocket_manager.py:48-51 | a process that never gave the chat up has left nothing behind, so delivery is exactly once |
| DeliveryOrder.BroadcastsArriveInOrder | src/managers/websocket_manager.py:58-68 | where nothing was left behind, a socket that stays joined gets the chat's broadcasts in the order in which they are sent, each once, none skipped |
| DeliveryOrder.QueuesCanBeEmptied | src/managers/websocket_manager.py:58-68 | from every state some deliveries alone empty every queue of a process |
| DeliveryOrder.CopiesCanBeDelivered | src/managers/websocket_manager.py:58-68 | from every reachable state some deliveries alone leave no copy of any broadcast queued |
| DeliveryOrder.EverythingCanArrive | src/managers/websocket_manager.py:41-68 | where nothing was left behind, some deliveries alone bring a socket that stayed joined exactly the broadcasts sent on the chat, in order |
| Arrival.SentCarriesPublished | src/managers/websocket_manager.py:41-44 | what is broadcast on a chat in a run carries what was published on its channel meanwhile, in order |
| Arrival.PublishedArrivesInOrder | src/managers/websocket_manager.py:58-68 | at any time a socket that stays joined, with nothing left behind, has been sent a first part of what was published on the channel since, in order |
| Arrival.SavedRowsArrive | src/websocket/handlers.py:69-114 | such a socket can be brought by deliveries alone to have been sent, of new messages, exactly the rows saved in the chat since, in order, once each, with their id, author, content and time |
| DuplicateDelivery.RejoiningDuplicates | src/managers/pubsub_manager.py:23-24 | a run of twelve events of the system in which a socket is sent one broadcast twice |
| Presence.KeyRefinesLog | src/websocket/services.py:57-71 | for every interleaving of sessions the key exists exactly when an online mark lies within the last 60 seconds with no later offline mark |
| Presence.JustOnline | src/websocket/services.py:67-71 | who was marked online last is online for a minute |
| Presence.PresenceStore.MarkUserAsOnline | src/websocket/services.py:67-71 | logs an online mark and keeps the key in agreement with the log |
| Presence.PresenceStore.MarkUserAsOffline | src/websocket/services.py:57-60 | logs an offline mark and keeps the key in agreement with the log |
| Presence.PresenceStore.CheckUserStatus | src/websocket/services.py:21-53 | one round sends, to exactly the chats in both maps, online or inactive as the log says |
| Handlers.Session.JoinChat | src/websocket/handlers.py:58-60 | local map and manager gain the chat together |
| Handlers.Session.JoinIfNew | src/websocket/handlers.py:55-66 | a chat not in the local map is joined exactly when it exists; otherwise nothing changes |
| Outcomes.SendOutcome | src/websocket/handlers.py:68-114 | what is left behind in a chat that is there: the row with its author, content and time, the chat's new time, exactly both lists and the chat's pages cleared, the mark, its announcement, and then the row broadcast on the chat's channel |
| Outcomes.SendNowhere | src/websocket/handlers.py:69-91 | in a chat that is gone nothing is saved, cleared, marked or published |
| Outcomes.ReadOutcome | src/websocket/handlers.py:148-168 | a message above the watermark becomes the watermark, no other row moves, exactly the chat's pages are cleared, and exactly this acknowledgement is broadcast on the chat's channel; any other message changes nothing |
| Outcomes.FriendIsPeer | src/websocket/services.py:168-169 | the friend who is notified of a new chat is the other participant |
| Effects.JoinsIfThere | src/websocket/handlers.py:55-66 | the chat lookup never raises, and a session joins exactly a chat that is there and that it has not joined |
| Effects.ActiveMessageIsSingle | src/websocket/services.py:84-89 | the message lookup never raises, and finds exactly the message with that guid that is not deleted |
| Effects.RaisesInGoneChats | src/websocket/handlers.py:88-91 | only a frame for a chat of the local map can raise: a message exactly when the chat is gone, an acknowledgement only by somebody who is not in it |
| Effects.ExpectedNeverRaises | src/websocket/router.py:76-88 | a frame that asks for nothing but what is expected never raises |
| Handlers.Session.NewMessageHandler | src/websocket/handlers.py:35-118 | every branch: unknown chat, newly joined chat with the other participant's sockets notified, failed save, and the saved message broadcast as `Outcomes` says; the whole is the transaction that the frame asks for, with its mark, and keeps the cache protocol's states reachable |
| Handlers.Session.SendInChat | src/websocket/handlers.py:68-118 | in a chat of the local map the message is saved and broadcast, or the failure is raised; friends are notified only of a new chat |
| Handlers.Session.SaveAndBroadcast | src/websocket/handlers.py:68-114 | a failed save changes nothing; a successful one is one transaction whose row is broadcast |
| Handlers.Session.ClearAndBroadcast | src/websocket/handlers.py:93-114 | the mark, the clearing loops and the broadcast, in order |
| Handlers.Session.AcknowledgeAndBroadcast | src/websocket/handlers.py:148-168 | the read status, clear, mark and broadcast, exactly on an advance; the broadcast is the one that `Announced` gives |
| Handlers.Session.MessageReadHandler | src/websocket/handlers.py:121-168 | every branch: a message that is there and not deleted is acknowledged in a chat of the local map as `Outcomes` says; a missing message, a missing chat or both are answered and change nothing; the whole is the transaction that the frame asks for, with its mark, and keeps the cache protocol's states reachable |
| Handlers.Session.AddUserToChatHandler | src/websocket/handlers.py:199-224 | the chat is in local map and manager, the user is marked online and announced, and nothing else is published |
| Effects.SendRunsTheProtocol | src/websocket/handlers.py:84-101 | tables and cache after `new_message` are reached by a run of the split writer's steps |
| Effects.SendRunsAs | src/websocket/handlers.py:68-114 | what `new_message` leaves behind is one transaction whose row is broadcast on its chat's channel, announces no read, and keeps reachable states reachable |
| Effects.ReadRunsTheProtocol | src/websocket/handlers.py:149-166 | the same for `message_read`, which clears only on an advance |
| Effects.ReadRunsAs | src/websocket/handlers.py:148-168 | what `message_read` leaves behind is one transaction with exactly its announcement on the chat's channel, no new message, and keeps reachable states reachable |
| Effects.RunsAsBoth | src/websocket/router.py:58-83 | such effects compose: runs one after the other are one run, and the rows saved in both are broadcast in order and once each |
| Effects.MarkedTwice | src/websocket/services.py:57-79 | so do marks: each is logged and announced once, in order |
| Sessions.WebsocketEndpoint | src/websocket/router.py:29-110 | run without steps of other sessions in between, a session that disconnects restores both membership maps, whatever frames came, and one that raises keeps exactly its local map's chats; tables, cache and broadcasts have gone through what the handled frames asked for, every row saved is broadcast, the user is marked online at the start and by each frame that changes something, and offline in each chat that is left; frames that are expected are all handled up to the disconnect |
| Sessions.ConnectSocket | src/websocket/router.py:38-45 | the socket is registered and its user marked online: for a minute the user counts as online |
| Sessions.Serve | src/websocket/router.py:58-96 | over the whole dispatch loop the socket is added to exactly the chats of the local map, what the handled frames ask for is what happened, and the loop ends only by the disconnect or at the first frame that raises |
| Sessions.ExpectedFramesPass | src/websocket/router.py:58-96 | no frame of a session whose frames ask for nothing but what is expected raises |
| Sessions.ExpectedSessionEnds | src/websocket/router.py:98-110 | such a session goes on to its disconnect |
| Sessions.Dispatch | src/websocket/router.py:69-90 | no frame breaks the agreement of local map and manager; each does what the transaction that it asks for does, with its mark, and raises exactly when its handler does; an unknown one only gets an error |
| Sessions.SubscribeAll | src/websocket/router.py:48-53 | the initial joins add the socket to exactly the given chats |
| Sessions.LeaveAll | src/websocket/router.py:98-107 | the cleanup takes the socket from exactly the chats of the local map, never finds it absent, marks the user offline once for each and announces that in each, and does nothing else |
| Sessions.CleanUp | src/websocket/router.py:98-110 | after it both membership maps are as before the session |
| Sessions.RemoveSocket | src/websocket/router.py:110-110 | after the chats are left and the socket removed both maps are as before the session |

## Left out

- FastAPI routing, Pydantic validation, JSON encoding: payloads are datatypes, and a frame that fails to parse is not a frame.
- SQLAlchemy, Postgres and Redis themselves: sequences, maps and sets with the atomicity stated above; key patterns are a datatype.
- Authentication, Google login, images and file storage, the websocket rate limiter, settings, contacts: thin, or foreign code.
- Admin edits of rows: writes from outside the protocol. Soft-deleted rows can be in the tables, no modelled step makes one.
- Group chats: no code that creates them is shown.
- Typing and `chat_deleted` notices: one-branch sends.
- The contents of the new-chat notice, and columns that answers copy from a chat or its users: only who is notified, and which chats, are modelled.
- Finer awaits inside manager methods and inside the reader's loop over a live set.
- That each reader does keep taking messages: `DeliveryOrder` shows that every queued broadcast can be delivered.
- Store.EveryRunIsConsistent: takes each request as one step; what survives when requests race, and exactly when the rest does, is in `Races`.
- ReadTracking.MarkIsHighestAcknowledged: takes each request as one step; the exact condition for racing requests is `Races.MarksHighestUnlessPassed`.
- ReadTracking.BroadcastsIncrease: takes each request as one step; the exact condition for racing requests is `Races.AcksInOrderUnlessPassed`.
- Races.LookupsStaySingle: takes a chat and its read statuses as inserted together; what holds in between and after is in `HalfCreated`.
- Managers.RedisPubSubManager.Connect: pubsub objects are positions in a sequence, so aliasing of the Python objects is not captured.
- The order of the chat list among chats of equal `updated_at` is fixed by the model and open in SQL.
