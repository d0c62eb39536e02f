/** Walking a chat page by page while the server keeps serving other requests. */
module Pagination {
  import opened Collections
  import opened Models
  import opened Queries
  import opened PageMeaning
  import opened Store

  /** get_older_messages: the cursor is an active message of the chat, named by its guid. */
  function OlderMessagesView(db: Database, u: UserId, c: ChatId, cursor: MessageId, limit: nat)
    : Result<Page, ViewError>
  {
    match ChatByGuid(db, c)
    case Err(e) => Err(ViewError.Database(e))
    case Ok(None) => Err(NotFound)
    case Ok(Some(chat)) =>
      if u !in chat.users then Err(Conflict)
      else
        match ScalarOneOrNone(Filter(ActiveMessages(db, c), IdIs(cursor)))
        case Err(e) => Err(ViewError.Database(e))
        case Ok(None) => Err(NotFound)
        case Ok(Some(m)) =>
          match OlderMessages(db, u, c, limit, m.createdAt)
          case Err(e) => Err(ViewError.Database(e))
          case Ok(page) => Ok(page)
  }

  ghost predicate GrownAt(dbs: nat -> Database, u: UserId, c: ChatId, i: nat) {
    && RowsConsistent(dbs(i)) && Participates(dbs(i), u, c)
    && ActiveMessages(dbs(0), c) <= ActiveMessages(dbs(i), c)
  }

  /** The tables at the time of each request of a walk: messages may have arrived, the chat is still there. */
  ghost predicate Growing(dbs: nat -> Database, u: UserId, c: ChatId) {
    GrownAt(dbs, u, c, 0) && forall i: nat :: GrownAt(dbs, u, c, i)
  }

  ghost function ChatRow(db: Database, u: UserId, c: ChatId): (chat: Chat)
    requires RowsConsistent(db) && Participates(db, u, c)
    ensures chat in db.chats && chat.id == c && u in chat.users && |chat.users| == 2
  {
    var chat :| chat in db.chats && chat.id == c && u in chat.users;
    chat
  }

  /** Asking for messages older than the k-th active message returns the next ones down. */
  lemma {:induction false} OlderViewFromIndex(db: Database, u: UserId, c: ChatId, k: nat, limit: nat)
    requires RowsConsistent(db) && Participates(db, u, c) && k < |ActiveMessages(db, c)|
    ensures OlderMessagesView(db, u, c, ActiveMessages(db, c)[k].id, limit)
         == Ok(TruePage(db, ChatRow(db, u, c), Reverse(ActiveMessages(db, c)[..k]), limit))
  {
    var chat := ChatRow(db, u, c);
    var active := ActiveMessages(db, c);
    ChatLookupIsSingle(db, c);
    ActiveInOrder(db, c);
    FindByKey(active, MESSAGE_ID, IdIs(active[k].id), k);
    FilterBelowIndex(active, CREATED_AT, CreatedBefore(active[k].createdAt), k);
    OlderPageMeaning(db, chat, u, limit, active[k].createdAt);
  }

  /** The answer to the i-th request of a walk, asked with a cursor. */
  type Answers = (nat, MessageId) -> Result<Page, ViewError>

  function Served(dbs: nat -> Database, u: UserId, c: ChatId, limits: nat -> nat): Answers {
    (i: nat, cursor: MessageId) => OlderMessagesView(dbs(i), u, c, cursor, limits(i))
  }

  function OldestId(page: Page): MessageId
    requires page.messages != []
  {
    page.messages[|page.messages| - 1].id
  }

  /** The pages from the i-th request on: each request continues from the oldest message received,
      until has_more_messages is false. */
  ghost predicate Continues(answers: Answers, i: nat, page: Page, rest: seq<Page>)
    decreases rest
  {
    if page.hasMore then
      && page.messages != [] && rest != []
      && answers(i, OldestId(page)) == Ok(rest[0])
      && Continues(answers, i + 1, rest[0], rest[1..])
    else rest == []
  }

  /** A whole walk: the first page, then the older pages. */
  ghost predicate IsWalk(dbs: nat -> Database, u: UserId, c: ChatId, size: nat, limits: nat -> nat, pages: seq<Page>)
  {
    && pages != []
    && pages[0] == ChatMessages(dbs(0), u, c, size).page
    && Continues(Served(dbs, u, c, limits), 1, pages[0], pages[1..])
  }

  function Received(pages: seq<Page>): seq<MessageView> {
    if pages == [] then [] else pages[0].messages + Received(pages[1..])
  }

  /** A message as shown, apart from its read flag. */
  function Unflagged(shown: seq<MessageView>): seq<MessageView> {
    Map(shown, (v: MessageView) => v.(isRead := false))
  }

  function Plain(rows: seq<Message>): seq<MessageView> {
    Map(rows, (m: Message) => MessageView(m.id, m.chatId, m.author, m.content, m.createdAt, false))
  }

  function Low(k: nat, limit: nat): nat {
    if k <= limit then 0 else k - limit
  }

  /** `page` holds the next `limit` messages of `start` below position k. */
  ghost predicate Cuts(start: seq<Message>, k: nat, limit: nat, page: Page)
    requires k <= |start|
  {
    && page.hasMore == (k > limit)
    && Unflagged(page.messages) == Plain(Reverse(start[Low(k, limit)..k]))
    && (k > limit ==> page.messages != [] && OldestId(page) == start[k - limit].id)
  }

  lemma TakeIsPiece(start: seq<Message>, k: nat, limit: nat)
    requires k <= |start|
    ensures |Reverse(start[..k])| == k
    ensures Take(Reverse(start[..k]), limit) == Reverse(start[Low(k, limit)..k])
  {
  }

  lemma UnflaggedViews(db: Database, chat: Chat, rows: seq<Message>)
    requires |chat.users| == 2
    ensures Unflagged(TrueViews(db, chat, rows)) == Plain(rows)
  {
  }

  lemma TruePageCuts(db: Database, chat: Chat, start: seq<Message>, k: nat, limit: nat)
    requires |chat.users| == 2 && k <= |start| && limit > 0
    ensures Cuts(start, k, limit, TruePage(db, chat, Reverse(start[..k]), limit))
  {
    TakeIsPiece(start, k, limit);
    UnflaggedViews(db, chat, Reverse(start[Low(k, limit)..k]));
  }

  ghost predicate AnswerIsPiece(start: seq<Message>, limits: nat -> nat, answers: Answers, i: nat, k: nat)
    requires k < |start|
  {
    answers(i, start[k].id).Ok? && Cuts(start, k, limits(i), answers(i, start[k].id).value)
  }

  /** Every answer to a cursor in `start` is the next piece of `start`, no matter when it is asked. */
  ghost predicate AnswersFrom(start: seq<Message>, limits: nat -> nat, answers: Answers) {
    forall i: nat, k: nat :: k < |start| ==> AnswerIsPiece(start, limits, answers, i, k)
  }

  lemma OlderPageOfGrowing(dbs: nat -> Database, u: UserId, c: ChatId, k: nat, i: nat, limit: nat)
    requires Growing(dbs, u, c) && GrownAt(dbs, u, c, i) && k < |ActiveMessages(dbs(0), c)|
    ensures OlderMessagesView(dbs(i), u, c, ActiveMessages(dbs(0), c)[k].id, limit)
         == Ok(TruePage(dbs(i), ChatRow(dbs(i), u, c), Reverse(ActiveMessages(dbs(0), c)[..k]), limit))
  {
    var start, now := ActiveMessages(dbs(0), c), ActiveMessages(dbs(i), c);
    assert now[k] == start[k] && now[..k] == start[..k];
    OlderViewFromIndex(dbs(i), u, c, k, limit);
  }

  lemma ServedAnswer(dbs: nat -> Database, u: UserId, c: ChatId, limits: nat -> nat, i: nat, k: nat)
    requires Growing(dbs, u, c) && limits(i) > 0 && k < |ActiveMessages(dbs(0), c)|
    ensures AnswerIsPiece(ActiveMessages(dbs(0), c), limits, Served(dbs, u, c, limits), i, k)
  {
    OlderPageOfGrowing(dbs, u, c, k, i, limits(i));
    TruePageCuts(dbs(i), ChatRow(dbs(i), u, c), ActiveMessages(dbs(0), c), k, limits(i));
  }

  lemma ServedAnswers(dbs: nat -> Database, u: UserId, c: ChatId, limits: nat -> nat)
    requires Growing(dbs, u, c) && forall j: nat :: limits(j) > 0
    ensures AnswersFrom(ActiveMessages(dbs(0), c), limits, Served(dbs, u, c, limits))
  {
    var start := ActiveMessages(dbs(0), c);
    forall i: nat, k: nat | k < |start| ensures AnswerIsPiece(start, limits, Served(dbs, u, c, limits), i, k) {
      ServedAnswer(dbs, u, c, limits, i, k);
    }
  }

  lemma FirstPageCuts(db: Database, u: UserId, c: ChatId, size: nat)
    requires RowsConsistent(db) && Participates(db, u, c) && size > 0
    ensures Cuts(ActiveMessages(db, c), |ActiveMessages(db, c)|, size, ChatMessages(db, u, c, size).page)
  {
    var active := ActiveMessages(db, c);
    assert active[..|active|] == active;
    FirstPageMeaning(db, ChatRow(db, u, c), u, size);
    TruePageCuts(db, ChatRow(db, u, c), active, |active|, size);
  }

  ghost predicate OnlyLastIsFinal(page: Page, rest: seq<Page>) {
    && page.hasMore == (rest != [])
    && forall j :: 0 <= j < |rest| ==> rest[j].hasMore == (j < |rest| - 1)
  }

  lemma FinalTogether(page: Page, rest: seq<Page>)
    requires rest != [] && page.hasMore && OnlyLastIsFinal(rest[0], rest[1..])
    ensures OnlyLastIsFinal(page, rest)
  {
    assert forall j :: 1 <= j < |rest| ==> rest[j] == rest[1..][j - 1];
  }

  lemma PieceTogether(page: Page, rest: seq<Page>, start: seq<Message>, k: nat, limit: nat)
    requires k <= |start| && Cuts(start, k, limit, page)
    requires if k > limit then Unflagged(Received(rest)) == Plain(Reverse(start[..k - limit])) else rest == []
    ensures Unflagged(page.messages + Received(rest)) == Plain(Reverse(start[..k]))
  {
    var low := Low(k, limit);
    assert Unflagged(page.messages + Received(rest)) == Unflagged(page.messages) + Unflagged(Received(rest));
    assert Reverse(start[low..k]) + Reverse(start[..low]) == Reverse(start[..k]);
    assert Plain(Reverse(start[low..k]) + Reverse(start[..low]))
        == Plain(Reverse(start[low..k])) + Plain(Reverse(start[..low]));
  }

  lemma ContinuesStep(start: seq<Message>, limits: nat -> nat, answers: Answers, i: nat, k: nat, limit: nat,
                      page: Page, rest: seq<Page>)
    requires AnswersFrom(start, limits, answers)
    requires k <= |start| && limit > 0 && Cuts(start, k, limit, page) && Continues(answers, i, page, rest)
    ensures if k > limit
            then && rest != [] && Cuts(start, k - limit, limits(i), rest[0])
                 && Continues(answers, i + 1, rest[0], rest[1..])
            else rest == []
  {
    if k > limit {
      assert AnswerIsPiece(start, limits, answers, i, k - limit);
      assert answers(i, start[k - limit].id) == Ok(rest[0]);
    }
  }

  lemma {:induction false} ContinuesIsComplete(start: seq<Message>, limits: nat -> nat, answers: Answers,
                                               i: nat, k: nat, limit: nat, page: Page, rest: seq<Page>)
    requires AnswersFrom(start, limits, answers) && forall j: nat :: limits(j) > 0
    requires k <= |start| && limit > 0 && Cuts(start, k, limit, page) && Continues(answers, i, page, rest)
    ensures Unflagged(page.messages + Received(rest)) == Plain(Reverse(start[..k]))
    decreases rest
  {
    ContinuesStep(start, limits, answers, i, k, limit, page, rest);
    if k > limit {
      ContinuesIsComplete(start, limits, answers, i + 1, k - limit, limits(i), rest[0], rest[1..]);
    }
    PieceTogether(page, rest, start, k, limit);
  }

  lemma {:induction false} ContinuesIsFinal(answers: Answers, i: nat, page: Page, rest: seq<Page>)
    requires Continues(answers, i, page, rest)
    ensures OnlyLastIsFinal(page, rest)
    decreases rest
  {
    if page.hasMore {
      ContinuesIsFinal(answers, i + 1, rest[0], rest[1..]);
      FinalTogether(page, rest);
    }
  }

  /** The walk receives exactly the messages that were active at the first request, newest first, without gaps or
      repeats, and only its last page says that there is nothing more. */
  lemma {:induction false} WalkIsComplete(dbs: nat -> Database, u: UserId, c: ChatId, size: nat, limits: nat -> nat,
                                          pages: seq<Page>)
    requires Growing(dbs, u, c) && size > 0 && forall j: nat :: limits(j) > 0
    requires IsWalk(dbs, u, c, size, limits, pages)
    ensures Unflagged(Received(pages)) == Plain(NewestFirst(dbs(0), c))
    ensures OnlyLastIsFinal(pages[0], pages[1..])
  {
    var start := ActiveMessages(dbs(0), c);
    ServedAnswers(dbs, u, c, limits);
    FirstPageCuts(dbs(0), u, c, size);
    ContinuesIsComplete(start, limits, Served(dbs, u, c, limits), 1, |start|, size, pages[0], pages[1..]);
    ContinuesIsFinal(Served(dbs, u, c, limits), 1, pages[0], pages[1..]);
    assert start[..|start|] == start;
  }

  // ---- every walk ends, after a known number of requests ----

  lemma NextPiece(start: seq<Message>, limits: nat -> nat, answers: Answers, i: nat, k: nat, limit: nat, page: Page)
    returns (next: Page)
    requires AnswersFrom(start, limits, answers) && limit < k <= |start| && Cuts(start, k, limit, page)
    ensures page.hasMore && page.messages != [] && answers(i, OldestId(page)) == Ok(next)
    ensures Cuts(start, k - limit, limits(i), next)
  {
    assert AnswerIsPiece(start, limits, answers, i, k - limit);
    next := answers(i, start[k - limit].id).value;
  }

  lemma ContinuesWith(answers: Answers, i: nat, page: Page, next: Page, later: seq<Page>)
    requires page.hasMore && page.messages != [] && answers(i, OldestId(page)) == Ok(next)
    requires Continues(answers, i + 1, next, later)
    ensures Continues(answers, i, page, [next] + later)
  {
    assert ([next] + later)[1..] == later;
  }

  lemma {:induction false} ContinuesEnds(start: seq<Message>, limits: nat -> nat, answers: Answers,
                                         i: nat, k: nat, limit: nat, page: Page)
    returns (rest: seq<Page>)
    requires AnswersFrom(start, limits, answers) && forall j: nat :: limits(j) > 0
    requires k <= |start| && limit > 0 && Cuts(start, k, limit, page)
    ensures Continues(answers, i, page, rest)
    decreases k
  {
    rest := [];
    if k > limit {
      var next := NextPiece(start, limits, answers, i, k, limit, page);
      var later := ContinuesEnds(start, limits, answers, i + 1, k - limit, limits(i), next);
      ContinuesWith(answers, i, page, next, later);
      rest := [next] + later;
    }
  }

  /** Every walk ends: no request of it fails, and the cursor moves strictly down until nothing is left. */
  lemma {:induction false} WalkEnds(dbs: nat -> Database, u: UserId, c: ChatId, size: nat, limits: nat -> nat)
    requires Growing(dbs, u, c) && size > 0 && forall j: nat :: limits(j) > 0
    ensures exists pages :: IsWalk(dbs, u, c, size, limits, pages)
  {
    var start := ActiveMessages(dbs(0), c);
    ServedAnswers(dbs, u, c, limits);
    FirstPageCuts(dbs(0), u, c, size);
    var first := ChatMessages(dbs(0), u, c, size).page;
    var rest := ContinuesEnds(start, limits, Served(dbs, u, c, limits), 1, |start|, size, first);
    assert ([first] + rest)[1..] == rest;
    assert IsWalk(dbs, u, c, size, limits, [first] + rest);
  }

  function Ceiling(n: nat, limit: nat): nat
    requires limit > 0
  {
    (n + limit - 1) / limit
  }

  lemma TimesAtLeast(a: int, d: nat)
    requires a >= 1
    ensures a * d >= d
  {
    assert a * d == (a - 1) * d + d;
    assert (a - 1) * d >= 0;
  }

  lemma QuotientIs(x: nat, d: nat, q: nat, r: nat)
    requires d > 0 && x == q * d + r && r < d
    ensures x / d == q
  {
    var p := x / d;
    if p > q {
      TimesAtLeast(p - q, d);
    } else if q > p {
      TimesAtLeast(q - p, d);
    }
  }

  lemma CeilingOfFew(k: nat, limit: nat)
    requires 0 < k <= limit
    ensures Ceiling(k, limit) == 1
  {
    QuotientIs(k + limit - 1, limit, 1, k - 1);
  }

  lemma CeilingOfMore(k: nat, limit: nat)
    requires 0 < limit < k
    ensures Ceiling(k, limit) == 1 + Ceiling(k - limit, limit)
  {
    var q := (k - 1) / limit;
    assert (q + 1) * limit == q * limit + limit;
    QuotientIs(k - 1 + limit, limit, q + 1, (k - 1) % limit);
  }

  function Requests(n: nat, limit: nat): nat
    requires limit > 0
  {
    if n == 0 then 0 else if n <= limit then 1 else 1 + Requests(n - limit, limit)
  }

  lemma {:induction false} RequestsIsCeiling(n: nat, limit: nat)
    requires limit > 0
    ensures Requests(n, limit) == Ceiling(n, limit)
    decreases n
  {
    if n == 0 {
      QuotientIs(limit - 1, limit, 0, limit - 1);
    } else if n <= limit {
      CeilingOfFew(n, limit);
    } else {
      CeilingOfMore(n, limit);
      RequestsIsCeiling(n - limit, limit);
    }
  }

  lemma {:induction false} ContinuesLength(start: seq<Message>, limits: nat -> nat, limit: nat, answers: Answers,
                                           i: nat, k: nat, first: nat, page: Page, rest: seq<Page>)
    requires AnswersFrom(start, limits, answers) && limit > 0 && forall j: nat :: limits(j) == limit
    requires first > 0 && k <= |start| && Cuts(start, k, first, page) && Continues(answers, i, page, rest)
    ensures |rest| == Requests(Max(0, k - first), limit)
    decreases rest
  {
    ContinuesStep(start, limits, answers, i, k, first, page, rest);
    if k > first {
      ContinuesLength(start, limits, limit, answers, i + 1, k - first, limit, rest[0], rest[1..]);
    }
  }

  /** What a walk is, apart from the tables behind it: every answer is the next piece of the active messages. */
  ghost predicate InPieces(start: seq<Message>, limits: nat -> nat, answers: Answers, size: nat, pages: seq<Page>) {
    && pages != [] && AnswersFrom(start, limits, answers) && Cuts(start, |start|, size, pages[0])
    && Continues(answers, 1, pages[0], pages[1..])
  }

  lemma WalkOfPieces(dbs: nat -> Database, u: UserId, c: ChatId, size: nat, limits: nat -> nat, pages: seq<Page>)
    returns (start: seq<Message>, answers: Answers)
    requires Growing(dbs, u, c) && size > 0 && forall j: nat :: limits(j) > 0
    requires IsWalk(dbs, u, c, size, limits, pages)
    ensures start == ActiveMessages(dbs(0), c) && InPieces(start, limits, answers, size, pages)
  {
    start, answers := ActiveMessages(dbs(0), c), Served(dbs, u, c, limits);
    ServedAnswers(dbs, u, c, limits);
    FirstPageCuts(dbs(0), u, c, size);
  }

  /** One request for the first page, and one for each `limit` messages, or part of that, that are left. */
  ghost predicate IsRequestCount(requests: nat, messages: nat, size: nat, limit: nat)
    requires limit > 0
  {
    requests == 1 + Ceiling(Max(0, messages - size), limit)
  }

  lemma PiecesLength(start: seq<Message>, limits: nat -> nat, limit: nat, answers: Answers, size: nat, pages: seq<Page>)
    requires size > 0 && limit > 0 && forall j: nat :: limits(j) == limit
    ensures InPieces(start, limits, answers, size, pages) ==> IsRequestCount(|pages|, |start|, size, limit)
  {
    if InPieces(start, limits, answers, size, pages) {
      ContinuesLength(start, limits, limit, answers, 1, |start|, size, pages[0], pages[1..]);
      RequestsIsCeiling(Max(0, |start| - size), limit);
    }
  }

  /** With one limit for all older pages the number of requests is fixed by the number of messages. */
  lemma {:induction false} WalkLength(dbs: nat -> Database, u: UserId, c: ChatId, size: nat, limits: nat -> nat,
                                      limit: nat, pages: seq<Page>)
    requires Growing(dbs, u, c) && size > 0 && limit > 0 && forall j: nat :: limits(j) == limit
    requires IsWalk(dbs, u, c, size, limits, pages)
    ensures IsRequestCount(|pages|, |ActiveMessages(dbs(0), c)|, size, limit)
  {
    var start, answers := WalkOfPieces(dbs, u, c, size, limits, pages);
    PiecesLength(start, limits, limit, answers, size, pages);
  }

  // ---- read flags over a walk ----

  /** Nobody acknowledges a message of the chat while the walk is under way. */
  ghost predicate NoReads(dbs: nat -> Database, c: ChatId) {
    forall i: nat :: StatusesOf(dbs(i), c) == StatusesOf(dbs(0), c)
  }

  ghost predicate FlagIsTrue(db: Database, chat: Chat, v: MessageView)
    requires |chat.users| == 2
  {
    v.isRead == (v.id <= Mark(db, Peer(chat, v.author), chat.id))
  }

  ghost predicate FlagsAreTrue(db: Database, chat: Chat, shown: seq<MessageView>)
    requires |chat.users| == 2
  {
    forall v :: v in shown ==> FlagIsTrue(db, chat, v)
  }

  lemma TruePageFlags(db: Database, db0: Database, chat: Chat, chat0: Chat, rows: seq<Message>, limit: nat)
    requires ChatConsistent(db, chat) && ChatConsistent(db0, chat0) && chat.id == chat0.id
    requires StatusesOf(db, chat.id) == StatusesOf(db0, chat.id)
    ensures FlagsAreTrue(db0, chat0, TruePage(db, chat, rows, limit).messages)
  {
    assert chat.users == chat0.users;
    var taken := Take(rows, limit);
    forall i | 0 <= i < |taken| ensures FlagIsTrue(db0, chat0, TrueViews(db, chat, taken)[i]) {
    }
  }

  lemma ServedFlags(dbs: nat -> Database, u: UserId, c: ChatId, limits: nat -> nat, i: nat, k: nat)
    requires Growing(dbs, u, c) && NoReads(dbs, c) && k < |ActiveMessages(dbs(0), c)|
    ensures var r := OlderMessagesView(dbs(i), u, c, ActiveMessages(dbs(0), c)[k].id, limits(i));
            r.Ok? && FlagsAreTrue(dbs(0), ChatRow(dbs(0), u, c), r.value.messages)
  {
    assert GrownAt(dbs, u, c, i);
    OlderPageOfGrowing(dbs, u, c, k, i, limits(i));
    TruePageFlags(dbs(i), dbs(0), ChatRow(dbs(i), u, c), ChatRow(dbs(0), u, c),
                  Reverse(ActiveMessages(dbs(0), c)[..k]), limits(i));
  }

  ghost predicate AnswerIsFlagged(start: seq<Message>, answers: Answers, db: Database, chat: Chat, i: nat, k: nat)
    requires |chat.users| == 2 && k < |start|
  {
    answers(i, start[k].id).Ok? ==> FlagsAreTrue(db, chat, answers(i, start[k].id).value.messages)
  }

  ghost predicate AnswersFlagged(start: seq<Message>, answers: Answers, db: Database, chat: Chat)
    requires |chat.users| == 2
  {
    forall i: nat, k: nat :: k < |start| ==> AnswerIsFlagged(start, answers, db, chat, i, k)
  }

  lemma {:induction false} ContinuesFlags(start: seq<Message>, limits: nat -> nat, answers: Answers, db: Database,
                                          chat: Chat, i: nat, k: nat, limit: nat, page: Page, rest: seq<Page>)
    requires AnswersFrom(start, limits, answers) && forall j: nat :: limits(j) > 0
    requires |chat.users| == 2 && AnswersFlagged(start, answers, db, chat)
    requires k <= |start| && limit > 0 && Cuts(start, k, limit, page) && Continues(answers, i, page, rest)
    ensures FlagsAreTrue(db, chat, Received(rest))
    decreases rest
  {
    ContinuesStep(start, limits, answers, i, k, limit, page, rest);
    if k > limit {
      assert AnswerIsFlagged(start, answers, db, chat, i, k - limit);
      assert answers(i, start[k - limit].id) == Ok(rest[0]);
      ContinuesFlags(start, limits, answers, db, chat, i + 1, k - limit, limits(i), rest[0], rest[1..]);
    }
  }

  lemma WalkFlags(dbs: nat -> Database, u: UserId, c: ChatId, size: nat, limits: nat -> nat, pages: seq<Page>)
    requires Growing(dbs, u, c) && NoReads(dbs, c) && size > 0 && forall j: nat :: limits(j) > 0
    requires IsWalk(dbs, u, c, size, limits, pages)
    ensures FlagsAreTrue(dbs(0), ChatRow(dbs(0), u, c), Received(pages))
  {
    var start, chat := ActiveMessages(dbs(0), c), ChatRow(dbs(0), u, c);
    ServedAnswers(dbs, u, c, limits);
    var answers := Served(dbs, u, c, limits);
    forall i: nat, k: nat | k < |start| ensures AnswerIsFlagged(start, answers, dbs(0), chat, i, k) {
      ServedFlags(dbs, u, c, limits, i, k);
    }
    FirstPageCuts(dbs(0), u, c, size);
    FirstPageMeaning(dbs(0), chat, u, size);
    TruePageFlags(dbs(0), dbs(0), chat, chat, NewestFirst(dbs(0), c), size);
    ContinuesFlags(start, limits, answers, dbs(0), chat, 1, |start|, size, pages[0], pages[1..]);
  }

  lemma FlaggedFromPlain(db: Database, chat: Chat, shown: seq<MessageView>, rows: seq<Message>)
    requires |chat.users| == 2 && Unflagged(shown) == Plain(rows)
    requires FlagsAreTrue(db, chat, shown)
    ensures shown == TrueViews(db, chat, rows)
  {
    assert |shown| == |Unflagged(shown)| == |Plain(rows)| == |rows|;
    forall i | 0 <= i < |shown| ensures shown[i] == TrueViews(db, chat, rows)[i] {
      assert shown[i] in shown;
      assert Unflagged(shown)[i] == Plain(rows)[i];
    }
  }

  function UnreadView(u: UserId): MessageView -> bool {
    (v: MessageView) => v.author != u && !v.isRead
  }

  /** A walk during which nobody acknowledges shows the truth of its first request throughout. */
  lemma {:induction false} WalkShowsTruth(dbs: nat -> Database, u: UserId, c: ChatId, size: nat, limits: nat -> nat,
                                          pages: seq<Page>)
    requires Growing(dbs, u, c) && NoReads(dbs, c) && size > 0 && forall j: nat :: limits(j) > 0
    requires IsWalk(dbs, u, c, size, limits, pages)
    ensures Received(pages) == TrueViews(dbs(0), ChatRow(dbs(0), u, c), NewestFirst(dbs(0), c))
  {
    WalkIsComplete(dbs, u, c, size, limits, pages);
    WalkFlags(dbs, u, c, size, limits, pages);
    FlaggedFromPlain(dbs(0), ChatRow(dbs(0), u, c), Received(pages), NewestFirst(dbs(0), c));
  }

  // ---- the badge and a walk during which messages are acknowledged ----

  /** The page shows a message of the other participant as unread exactly when it is past the viewer's watermark. */
  ghost predicate UnreadAsOf(db: Database, u: UserId, c: ChatId, page: Page) {
    forall v :: v in page.messages && v.author != u ==> (v.isRead <==> v.id <= Mark(db, u, c))
  }

  lemma TruePageUnread(db: Database, chat: Chat, u: UserId, rows: seq<Message>, limit: nat)
    requires ChatConsistent(db, chat) && u in chat.users
    requires forall m :: m in rows ==> m in db.messages && m.chatId == chat.id
    ensures UnreadAsOf(db, u, chat.id, TruePage(db, chat, rows, limit))
  {
    var taken := Take(rows, limit);
    forall i | 0 <= i < |taken| && taken[i].author != u
      ensures TrueViews(db, chat, taken)[i].isRead <==> taken[i].id <= Mark(db, u, chat.id)
    {
      assert taken[i] in rows && taken[i].author in chat.users;
    }
  }

  lemma ServedUnread(dbs: nat -> Database, u: UserId, c: ChatId, limits: nat -> nat, i: nat, k: nat)
    requires Growing(dbs, u, c) && k < |ActiveMessages(dbs(0), c)|
    ensures var r := OlderMessagesView(dbs(i), u, c, ActiveMessages(dbs(0), c)[k].id, limits(i));
            r.Ok? && UnreadAsOf(dbs(i), u, c, r.value)
  {
    assert GrownAt(dbs, u, c, i);
    OlderPageOfGrowing(dbs, u, c, k, i, limits(i));
    var rows := Reverse(ActiveMessages(dbs(0), c)[..k]);
    forall m | m in rows ensures m in dbs(i).messages && m.chatId == c {
      assert m in ActiveMessages(dbs(i), c);
    }
    TruePageUnread(dbs(i), ChatRow(dbs(i), u, c), u, rows, limits(i));
  }

  ghost predicate AnswerIsDated(start: seq<Message>, answers: Answers, dbs: nat -> Database, u: UserId, c: ChatId,
                                i: nat, k: nat)
    requires k < |start|
  {
    answers(i, start[k].id).Ok? ==> UnreadAsOf(dbs(i), u, c, answers(i, start[k].id).value)
  }

  ghost predicate AnswersDated(start: seq<Message>, answers: Answers, dbs: nat -> Database, u: UserId, c: ChatId) {
    forall i: nat, k: nat :: k < |start| ==> AnswerIsDated(start, answers, dbs, u, c, i, k)
  }

  lemma ServedDated(dbs: nat -> Database, u: UserId, c: ChatId, limits: nat -> nat)
    requires Growing(dbs, u, c)
    ensures AnswersDated(ActiveMessages(dbs(0), c), Served(dbs, u, c, limits), dbs, u, c)
  {
    var start, answers := ActiveMessages(dbs(0), c), Served(dbs, u, c, limits);
    forall i: nat, k: nat | k < |start| ensures AnswerIsDated(start, answers, dbs, u, c, i, k) {
      ServedUnread(dbs, u, c, limits, i, k);
    }
  }

  lemma FirstPageDated(db: Database, u: UserId, c: ChatId, size: nat)
    requires RowsConsistent(db) && Participates(db, u, c)
    ensures UnreadAsOf(db, u, c, ChatMessages(db, u, c, size).page)
  {
    FirstPageMeaning(db, ChatRow(db, u, c), u, size);
    ActiveRowsBelong(db, c, CreatedBefore(0));
    TruePageUnread(db, ChatRow(db, u, c), u, NewestFirst(db, c), size);
  }

  /** A walk of pieces, each of which is dated. */
  lemma DatedPieces(dbs: nat -> Database, u: UserId, c: ChatId, size: nat, limits: nat -> nat, pages: seq<Page>)
    returns (start: seq<Message>, answers: Answers)
    requires Growing(dbs, u, c) && size > 0 && forall j: nat :: limits(j) > 0
    requires IsWalk(dbs, u, c, size, limits, pages)
    ensures pages != [] && UnreadAsOf(dbs(0), u, c, pages[0])
    ensures AnswersFrom(start, limits, answers) && AnswersDated(start, answers, dbs, u, c)
    ensures Cuts(start, |start|, size, pages[0]) && Continues(answers, 1, pages[0], pages[1..])
  {
    start, answers := ActiveMessages(dbs(0), c), Served(dbs, u, c, limits);
    ServedAnswers(dbs, u, c, limits);
    ServedDated(dbs, u, c, limits);
    FirstPageCuts(dbs(0), u, c, size);
    FirstPageDated(dbs(0), u, c, size);
  }

  /** Each page of the list shows what was unread at its own request. */
  ghost predicate PagesDated(dbs: nat -> Database, u: UserId, c: ChatId, i: nat, pages: seq<Page>) {
    forall j :: 0 <= j < |pages| ==> UnreadAsOf(dbs(i + j), u, c, pages[j])
  }

  lemma DatedTogether(dbs: nat -> Database, u: UserId, c: ChatId, i: nat, pages: seq<Page>)
    requires pages != [] && UnreadAsOf(dbs(i), u, c, pages[0]) && PagesDated(dbs, u, c, i + 1, pages[1..])
    ensures PagesDated(dbs, u, c, i, pages)
  {
    forall j | 0 <= j < |pages| ensures UnreadAsOf(dbs(i + j), u, c, pages[j]) {
      if j > 0 {
        assert pages[j] == pages[1..][j - 1];
        assert UnreadAsOf(dbs(i + 1 + (j - 1)), u, c, pages[1..][j - 1]);
      }
    }
  }

  lemma {:induction false} ContinuesDated(start: seq<Message>, limits: nat -> nat, answers: Answers,
                                          dbs: nat -> Database, u: UserId, c: ChatId, i: nat, k: nat, limit: nat,
                                          page: Page, rest: seq<Page>)
    requires AnswersFrom(start, limits, answers) && forall j: nat :: limits(j) > 0
    requires AnswersDated(start, answers, dbs, u, c)
    requires k <= |start| && limit > 0 && Cuts(start, k, limit, page) && Continues(answers, i, page, rest)
    ensures PagesDated(dbs, u, c, i, rest)
    decreases rest
  {
    ContinuesStep(start, limits, answers, i, k, limit, page, rest);
    if k > limit {
      assert AnswerIsDated(start, answers, dbs, u, c, i, k - limit);
      assert answers(i, start[k - limit].id) == Ok(rest[0]);
      ContinuesDated(start, limits, answers, dbs, u, c, i + 1, k - limit, limits(i), rest[0], rest[1..]);
      DatedTogether(dbs, u, c, i, rest);
    }
  }

  lemma PiecesAreDated(start: seq<Message>, limits: nat -> nat, answers: Answers, dbs: nat -> Database, u: UserId,
                       c: ChatId, size: nat, pages: seq<Page>)
    requires AnswersFrom(start, limits, answers) && AnswersDated(start, answers, dbs, u, c)
    requires size > 0 && forall j: nat :: limits(j) > 0
    requires pages != [] && UnreadAsOf(dbs(0), u, c, pages[0])
    requires Cuts(start, |start|, size, pages[0]) && Continues(answers, 1, pages[0], pages[1..])
    ensures PagesDated(dbs, u, c, 0, pages)
  {
    ContinuesDated(start, limits, answers, dbs, u, c, 1, |start|, size, pages[0], pages[1..]);
    DatedTogether(dbs, u, c, 0, pages);
  }

  lemma WalkIsDated(dbs: nat -> Database, u: UserId, c: ChatId, size: nat, limits: nat -> nat, pages: seq<Page>)
    requires Growing(dbs, u, c) && size > 0 && forall j: nat :: limits(j) > 0
    requires IsWalk(dbs, u, c, size, limits, pages)
    ensures PagesDated(dbs, u, c, 0, pages)
  {
    var start, answers := DatedPieces(dbs, u, c, size, limits, pages);
    PiecesAreDated(start, limits, answers, dbs, u, c, size, pages);
  }

  function NewView(u: UserId, mark: MessageId): MessageView -> bool {
    (v: MessageView) => v.author != u && v.id > mark
  }

  /** The badge counts the shown messages that were new at the first request. */
  lemma BadgeCountsNew(db: Database, chat: Chat, u: UserId, shown: seq<MessageView>)
    requires ChatConsistent(db, chat) && u in chat.users
    requires Unflagged(shown) == Plain(NewestFirst(db, chat.id))
    ensures ChatStats(db, u, chat.id) == Ok(|Filter(shown, NewView(u, Mark(db, u, chat.id)))|)
  {
    var mark, active := Mark(db, u, chat.id), ActiveMessages(db, chat.id);
    var unflag := (v: MessageView) => v.(isRead := false);
    var plain := (m: Message) => MessageView(m.id, m.chatId, m.author, m.content, m.createdAt, false);
    MarksOfParticipants(db, chat, u);
    FilterMap(shown, unflag, NewView(u, mark), NewView(u, mark));
    FilterMap(NewestFirst(db, chat.id), plain, NewFor(u, mark), NewView(u, mark));
    assert Map(shown, unflag) == Unflagged(shown);
    assert Map(NewestFirst(db, chat.id), plain) == Plain(NewestFirst(db, chat.id));
    FilterReverse(active, NewFor(u, mark));
  }

  lemma {:induction false} ReceivedOnSomePage(pages: seq<Page>, v: MessageView)
    ensures v in Received(pages) <==> exists i :: 0 <= i < |pages| && v in pages[i].messages
  {
    if pages != [] {
      ReceivedOnSomePage(pages[1..], v);
      assert forall i :: 0 < i < |pages| ==> pages[i] == pages[1..][i - 1];
      if i :| 0 <= i < |pages| && v in pages[i].messages {
        assert i > 0 ==> v in pages[1..][i - 1].messages;
      }
    }
  }

  /** Some message that was new at the first request had been acknowledged when its page was served. */
  ghost predicate AcknowledgedMeanwhile(dbs: nat -> Database, u: UserId, c: ChatId, pages: seq<Page>) {
    exists i, v :: 0 <= i < |pages| && v in pages[i].messages && v.author != u &&
                   Mark(dbs(0), u, c) < v.id <= Mark(dbs(i), u, c)
  }

  /** Some message that was read at the first request had become new again when its page was served. */
  ghost predicate ReopenedMeanwhile(dbs: nat -> Database, u: UserId, c: ChatId, pages: seq<Page>) {
    exists i, v :: 0 <= i < |pages| && v in pages[i].messages && v.author != u &&
                   Mark(dbs(i), u, c) < v.id <= Mark(dbs(0), u, c)
  }

  function ButNot(p: MessageView -> bool, q: MessageView -> bool): MessageView -> bool {
    (v: MessageView) => p(v) && !q(v)
  }

  lemma ShownOtherwise(dbs: nat -> Database, u: UserId, c: ChatId, pages: seq<Page>)
    requires PagesDated(dbs, u, c, 0, pages)
    ensures AcknowledgedMeanwhile(dbs, u, c, pages) <==>
            exists v :: v in Received(pages) && ButNot(NewView(u, Mark(dbs(0), u, c)), UnreadView(u))(v)
    ensures ReopenedMeanwhile(dbs, u, c, pages) <==>
            exists v :: v in Received(pages) && ButNot(UnreadView(u), NewView(u, Mark(dbs(0), u, c)))(v)
  {
    forall i, v | 0 <= i < |pages| && v in pages[i].messages && v.author != u
      ensures v in Received(pages) && (v.isRead <==> v.id <= Mark(dbs(i), u, c))
    {
      ReceivedOnSomePage(pages, v);
      assert UnreadAsOf(dbs(0 + i), u, c, pages[i]);
    }
    forall v | v in Received(pages) ensures exists i :: 0 <= i < |pages| && v in pages[i].messages {
      ReceivedOnSomePage(pages, v);
    }
  }

  lemma {:induction false} SomePass<T(!new)>(s: seq<T>, p: T -> bool)
    ensures |Filter(s, p)| > 0 <==> exists x :: x in s && p(x)
  {
    if x :| x in s && p(x) {
      FilterKeeps(s, p, x);
    }
    if Filter(s, p) != [] {
      assert Filter(s, p)[0] in Filter(s, p);
    }
  }

  lemma CountsDiffer(shown: seq<MessageView>, p: MessageView -> bool, q: MessageView -> bool)
    ensures |Filter(shown, p)| + |Filter(shown, ButNot(q, p))| == |Filter(shown, q)| + |Filter(shown, ButNot(p, q))|
  {
    var either := (v: MessageView) => p(v) || q(v);
    FilterDisjointUnion(shown, p, ButNot(q, p), either);
    FilterDisjointUnion(shown, q, ButNot(p, q), either);
  }

  /** Whatever is sent, acknowledged or written back meanwhile, a whole walk shows as many unread messages of the other
      participant as the badge counted, without those acknowledged before their page was served, and with those that
      had become new again. */
  lemma {:induction false} BadgeEqualsUnreadOnWalk(dbs: nat -> Database, u: UserId, c: ChatId, size: nat,
                                                   limits: nat -> nat, pages: seq<Page>)
    returns (acknowledged: nat, reopened: nat)
    requires Growing(dbs, u, c) && size > 0 && forall j: nat :: limits(j) > 0
    requires IsWalk(dbs, u, c, size, limits, pages)
    ensures acknowledged == |Filter(Received(pages), ButNot(NewView(u, Mark(dbs(0), u, c)), UnreadView(u)))|
    ensures reopened == |Filter(Received(pages), ButNot(UnreadView(u), NewView(u, Mark(dbs(0), u, c))))|
    ensures ChatStats(dbs(0), u, c).Ok?
    ensures |Filter(Received(pages), UnreadView(u))| == ChatStats(dbs(0), u, c).value - acknowledged + reopened
    ensures acknowledged > 0 <==> AcknowledgedMeanwhile(dbs, u, c, pages)
    ensures reopened > 0 <==> ReopenedMeanwhile(dbs, u, c, pages)
  {
    var shown, was := Received(pages), NewView(u, Mark(dbs(0), u, c));
    acknowledged := |Filter(shown, ButNot(was, UnreadView(u)))|;
    reopened := |Filter(shown, ButNot(UnreadView(u), was))|;
    WalkIsComplete(dbs, u, c, size, limits, pages);
    WalkIsDated(dbs, u, c, size, limits, pages);
    BadgeCountsNew(dbs(0), ChatRow(dbs(0), u, c), u, shown);
    CountsDiffer(shown, UnreadView(u), was);
    ShownOtherwise(dbs, u, c, pages);
    SomePass(shown, ButNot(was, UnreadView(u)));
    SomePass(shown, ButNot(UnreadView(u), was));
  }
}
