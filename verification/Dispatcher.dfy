/** The drain of one webhook subscription: the row as a class whose fields the drain updates, and
    `_drain_one` as a method over the visible change feed and an environment of clock readings,
    receiver answers and body sizes. */
module Dispatcher {
  import opened Basics
  import opened ChangeFeed
  import opened DeliveryProtocol
  import opened FailureHistory
  import opened Notices

  const MAX_BODY_BYTES := 512 * 1024

  datatype Response = Response(status: int, retryAfter: Option<nat>) | TransportError(error: ErrorClass)

  /** Everything the n-th round of a drain is told from outside.  `table` is the change feed as the
      round's query reads it, in `seq` order, and `missingBills` are the bills its second query does
      not find; writers may act between the rounds and between the two queries. */
  datatype Environment = Environment(
    table: nat -> seq<Event>,
    monotonic: nat -> int,
    now: nat -> int,
    attemptedAt: nat -> int,
    scopeKnown: nat -> bool,
    missingBills: nat -> set<BillId>,
    bodySize: (seq<Event>, bool) -> nat,
    receive: nat -> Response,
    backoff: nat -> nat)

  ghost predicate TablesInOrder(env: Environment) { forall n :: Ascending(env.table(n)) }

  /** The first `n` rounds began before the deadline. */
  predicate InTime(env: Environment, deadline: int, n: nat) { forall r | 0 <= r < n :: env.monotonic(r) < deadline }

  ghost predicate AllReceivable(env: Environment) { forall n :: Receivable(env.receive(n)) }

  predicate Receivable(r: Response) {
    r.TransportError? ==> r.error in {Timeout, Tls, Dns, SsrfRejected, TooLarge, Connection, Transport}
  }

  // ----- fetching -----

  function Matching(filter: Filter, table: seq<Event>, cursor: nat, watermark: nat): (r: seq<Event>)
    ensures forall e :: e in r <==> && e in table && e.bill in filter.bills && (filter.kinds == {} || e.kind in filter.kinds)
                                    && cursor < e.seqNo <= watermark
    ensures Ascending(table) ==> Ascending(r)
  {
    if table == [] then []
    else
      var rest := Matching(filter, table[1..], cursor, watermark);
      if InScope(filter, table[0]) && cursor < table[0].seqNo <= watermark then [table[0]] + rest else rest
  }

  /** The raw half of `_fetch_batch`: `ORDER BY seq LIMIT 101`, of which 100 are kept. */
  function FetchPage(filter: Filter, table: seq<Event>, cursor: nat, watermark: nat): (r: (seq<Event>, bool)) {
    var rows := Matching(filter, table, cursor, watermark);
    if |rows| > MAX_EVENTS_PER_BATCH then (rows[..MAX_EVENTS_PER_BATCH], true) else (rows, false)
  }

  /** The page is cut exactly when a row of the window is left out. */
  lemma CutPageLeavesARow(filter: Filter, table: seq<Event>, cursor: nat, watermark: nat)
    requires Ascending(table)
    ensures var (rows, more) := FetchPage(filter, table, cursor, watermark);
            && (more <==> exists e :: e in table && InScope(filter, e) && cursor < e.seqNo <= watermark && e !in rows)
            && |rows| <= 100 && (more ==> |rows| == 100)
  {
    var all := Matching(filter, table, cursor, watermark);
    var (rows, more) := FetchPage(filter, table, cursor, watermark);
    if more {
      assert all[100] in all && all[100] !in rows;
    }
  }

  /** The query returns a page as the protocol demands it. */
  lemma FetchPageIsPage(c: Config, f: Feed, table: seq<Event>, cursor: nat, watermark: nat)
    requires Ascending(table) && Elements(table) == f.visible
    ensures var (rows, more) := FetchPage(c.filter, table, cursor, watermark);
            IsPage(c, f, cursor, watermark, rows, more)
  {
    var all := Matching(c.filter, table, cursor, watermark);
    var (rows, more) := FetchPage(c.filter, table, cursor, watermark);
    CutPageLeavesARow(c.filter, table, cursor, watermark);
    forall e | e in f.visible && InWindow(c, cursor, CompleteTo(rows, more, watermark), e) ensures e in rows {
      assert e in table && e in all;
      if more { PrefixHolds(all, MAX_EVENTS_PER_BATCH, e); }
    }
  }

  /** The halving loop: the batch that is left is a prefix that fits, or a single event; `more`
      says that something was cut off or had been left over before. */
  method FitBatch(env: Environment, events: seq<Event>, more: bool) returns (batch: seq<Event>, more': bool)
    requires events != []
    ensures 0 < |batch| <= |events| && batch == events[..|batch|]
    ensures env.bodySize(batch, more') <= MAX_BODY_BYTES || |batch| == 1
    ensures more' == (more || |batch| < |events|)
    ensures env.bodySize(events, more) <= MAX_BODY_BYTES ==> batch == events
  {
    batch, more' := events, more;
    while env.bodySize(batch, more') > MAX_BODY_BYTES && |batch| > 1
      invariant 0 < |batch| <= |events| && batch == events[..|batch|]
      invariant more' == (more || |batch| < |events|)
      invariant env.bodySize(events, more) <= MAX_BODY_BYTES ==> batch == events
      decreases |batch|
    {
      batch := batch[..|batch| / 2];
      more' := true;
    }
  }

  // ----- the subscription row -----

  function Greatest(a: nat, b: nat): nat { if a < b then b else a }

  /** What became of the batches of one drain, in order.  `more` is the flag that was serialized. */
  datatype Fate = Accepted | Oversized | Refused
  datatype Batch = Batch(events: seq<Event>, more: bool, fate: Fate)
  datatype Stop = OutOfTime | Stopped | Drained

  /** Every POSTed body is within the cap; only a single event that cannot fit is skipped. */
  predicate RightlyHandled(env: Environment, n: nat, b: Batch) {
    && b.events != []
    && (b.fate != Oversized ==> env.bodySize(b.events, b.more) <= MAX_BODY_BYTES)
    && (b.fate == Oversized ==> |b.events| == 1 && env.bodySize(b.events, b.more) > MAX_BODY_BYTES)
    && RightlyJudged(env, n, b.fate)
  }

  /** What was POSTed was accepted exactly if the round's answer was a 2xx. */
  predicate RightlyJudged(env: Environment, n: nat, fate: Fate) {
    fate != Oversized ==> (fate == Accepted <==> Is2xx(env.receive(n)))
  }

  /** The audit row of a batch. */
  predicate Describes(d: Delivery, b: Batch) {
    && b.events != []
    && d.firstSeq == Some(b.events[0].seqNo) && d.lastSeq == Some(b.events[|b.events| - 1].seqNo)
    && d.eventCount == |b.events|
    && d.Succeeded() == (b.fate == Accepted)
    && d.Skipped() == (b.fate == Oversized)
  }

  /** The audit row of a POST. */
  function Attempt(batch: seq<Event>, response: Response, at: int): Delivery
    requires batch != []
  {
    var first, last := Some(batch[0].seqNo), Some(batch[|batch| - 1].seqNo);
    match response
    case TransportError(error) => Delivery(first, last, |batch|, None, Some(error), at)
    case Response(status, _) => Delivery(first, last, |batch|, Some(status), ClassifyHttpStatus(status), at)
  }

  /** The audit row of a skip. */
  function Skip(event: Event, at: int): Delivery {
    Delivery(Some(event.seqNo), Some(event.seqNo), 1, None, Some(PayloadTooLarge), at)
  }

  /** The audit row of what a round did with its batch: skipped when the round began, or POSTed. */
  function RowOf(env: Environment, n: nat, now: int, b: Batch): Delivery
    requires b.events != []
  {
    if b.fate == Oversized then Skip(b.events[0], now) else Attempt(b.events, env.receive(n), env.attemptedAt(n))
  }

  /** Why a row was disabled: its scope was unknown, or its last attempt met a rule. */
  predicate ReasonIs(reason: Option<Reason>, scopeKnown: bool, ds: seq<Delivery>) {
    if scopeKnown then ds != [] && reason == VerdictOn(ds) else reason == Some(UnknownScope)
  }

  /** What a disable leaves on a row. */
  datatype Marks = Marks(active: bool, reason: Option<Reason>, disabledAt: Option<int>, notice: Option<Notice>, attemptedAt: Option<int>)

  /** The marks after a drain of an active row: as they were, or dated, with the reason of the last
      round and with the notice. */
  predicate MarkedByDrain(env: Environment, trips: seq<Trip>, before: Marks, after: Marks, ds: seq<Delivery>) {
    if after.active then after.disabledAt == before.disabledAt && after.notice == before.notice
    else
      && trips != [] && ReasonIs(after.reason, env.scopeKnown(|trips| - 1), ds)
      && after.disabledAt == after.attemptedAt != None
      && after.notice == Some(WithDisabled(before.notice))
  }

  predicate KeepsMarks(before: Marks, after: Marks) {
    after.active && after.disabledAt == before.disabledAt && after.notice == before.notice
  }

  lemma MarkedFurther(env: Environment, trips: seq<Trip>, before: Marks, mid: Marks, after: Marks, ds: seq<Delivery>)
    requires KeepsMarks(before, mid) && MarkedByDrain(env, trips, mid, after, ds)
    ensures MarkedByDrain(env, trips, before, after, ds) && (after.active ==> KeepsMarks(before, after))
  {
  }

  /** When a round made its mark on the row. */
  function StampOf(env: Environment, n: nat, now: int, fate: Fate): int { if fate == Oversized then now else env.attemptedAt(n) }

  /** A row that was active and still is keeps its marks; one that was disabled at `at` is dated and
      has its notice. */
  predicate Marked(active: bool, disabledAt: Option<int>, disabledAt': Option<int>,
                   pending: Option<Notice>, pending': Option<Notice>, at: int)
  {
    && disabledAt' == (if active then disabledAt else Some(at))
    && pending' == (if active then pending else Some(WithDisabled(pending)))
  }

  /** The audit row of a crash. */
  function Crash(at: int): Delivery { Delivery(None, None, 0, None, Some(Internal), at) }

  predicate Is2xx(r: Response) { r.Response? && 200 <= r.status < 300 }

  lemma AttemptDescribes(batch: seq<Event>, more: bool, response: Response, at: int)
    requires batch != [] && Receivable(response)
    ensures var d := Attempt(batch, response, at);
            && WellClassified(d) && !d.Skipped()
            && d.at == at && d.status == (if response.Response? then Some(response.status) else None)
            && (response.TransportError? ==> d.error == Some(response.error))
            && (d.error == None <==> Is2xx(response)) && (d.error == None ==> d.status != None)
            && Describes(d, Batch(batch, more, if d.error == None then Accepted else Refused))
  {
  }

  /** One round of the drain, from one value of the cursor to the next, with the batch it handled
      if there was one. */
  datatype Trip = Trip(cursor: nat, next: nat, added: seq<Batch>)

  function Batches(trips: seq<Trip>): seq<Batch> {
    if trips == [] then [] else Batches(trips[..|trips| - 1]) + trips[|trips| - 1].added
  }

  function CountAccepted(batches: seq<Batch>): nat {
    if batches == [] then 0
    else
      var last := batches[|batches| - 1];
      CountAccepted(batches[..|batches| - 1]) + Accepts(last)
  }

  function Accepts(b: Batch): nat { if b.fate == Accepted then |b.events| else 0 }

  lemma OneMoreBatch(batches: seq<Batch>, added: seq<Batch>)
    requires |added| <= 1
    ensures CountAccepted(batches + added) == CountAccepted(batches) + if added == [] then 0 else Accepts(added[0])
  {
    if added == [] {
      assert batches + added == batches;
    } else {
      assert (batches + added)[..|batches|] == batches;
    }
  }

  function HandledAs(batches: seq<Batch>, fate: Fate): set<Event> {
    set b, e | b in batches && b.fate == fate && e in b.events :: e
  }

  lemma HandledInOne(b: Batch, fate: Fate)
    ensures HandledAs([b], fate) == if b.fate == fate then Elements(b.events) else {}
    ensures HandledAs([], fate) == {}
  {
    assert b in [b];
  }

  lemma HandledInMore(batches: seq<Batch>, added: seq<Batch>, fate: Fate)
    ensures HandledAs(batches + added, fate) == HandledAs(batches, fate) + HandledAs(added, fate)
  {
    var all, both := HandledAs(batches + added, fate), HandledAs(batches, fate) + HandledAs(added, fate);
    forall e | e in all ensures e in both {
      var b :| b in batches + added && b.fate == fate && e in b.events;
      assert b in batches || b in added;
    }
    forall e | e in both ensures e in all {
      var b :| (b in batches || b in added) && b.fate == fate && e in b.events;
      assert b in batches + added;
    }
  }

  /** The event was in the body of a round's POST, and the answer was a 2xx. */
  ghost predicate WasPosted(env: Environment, trips: seq<Trip>, e: Event) {
    exists r: nat :: PostedIn(env, trips, r, e)
  }

  predicate PostedIn(env: Environment, trips: seq<Trip>, r: nat, e: Event) {
    && r < |trips| && trips[r].added != [] && e in trips[r].added[0].events
    && env.bodySize(trips[r].added[0].events, trips[r].added[0].more) <= 524_288 && Is2xx(env.receive(r))
  }

  /** The body of this event alone is beyond the cap. */
  ghost predicate NeverFits(env: Environment, trips: seq<Trip>, e: Event) {
    exists r: nat :: AloneIn(env, trips, r, e)
  }

  predicate AloneIn(env: Environment, trips: seq<Trip>, r: nat, e: Event) {
    && r < |trips| && trips[r].added != [] && trips[r].added[0].events == [e]
    && env.bodySize([e], trips[r].added[0].more) > 524_288
  }

  lemma {:induction false} BatchHasItsRound(trips: seq<Trip>, b: Batch) returns (r: nat)
    requires b in Batches(trips)
    ensures r < |trips| && b in trips[r].added
    decreases |trips|
  {
    r := |trips| - 1;
    if b !in trips[r].added {
      r := BatchHasItsRound(trips[..r], b);
    }
  }

  // ----- what a round does -----

  /** `b` is what the halving loop leaves of the fetched events. */
  predicate CutFrom(events: seq<Event>, more: bool, b: Batch) {
    && 0 < |b.events| <= |events| && b.events == events[..|b.events|]
    && b.more == (more || |b.events| < |events|)
  }

  /** What the n-th round does to the cursor, and the batch it handles if there is any. */
  predicate RoundResult(env: Environment, filter: Filter, watermark: nat, n: nat, t: Trip) {
    var (rows, more) := FetchPage(filter, env.table(n), t.cursor, watermark);
    var events := Present(rows, env.missingBills(n));
    && AtMostOneBatch(env, n, t)
    && if !env.scopeKnown(n) then t.added == [] && t.next == t.cursor
       else if events == [] then
         t.added == [] && t.next == Greatest(t.cursor, if rows == [] then watermark else rows[|rows| - 1].seqNo)
       else t.added != [] && CutFrom(events, more, t.added[0]) && t.next == AfterBatch(t.cursor, t.added[0])
  }

  predicate AtMostOneBatch(env: Environment, n: nat, t: Trip) {
    t.added != [] ==> |t.added| == 1 && RightlyHandled(env, n, t.added[0])
  }

  function AfterBatch(cursor: nat, b: Batch): nat
    requires b.events != []
  {
    if b.fate == Refused then cursor else Greatest(cursor, b.events[|b.events| - 1].seqNo)
  }

  /** Does the drain fetch again after this round, as far as time and the row allow? */
  predicate GoesOn(env: Environment, filter: Filter, watermark: nat, n: nat, t: Trip) {
    && env.scopeKnown(n)
    && if t.added == [] then FetchPage(filter, env.table(n), t.cursor, watermark).1
       else t.added[0].fate != Refused && t.added[0].more
  }

  /** The batch of a round was handled so that the cursor moved past this row. */
  predicate MovedPast(t: Trip, e: Event) { t.added != [] && t.added[0].fate != Refused && e in t.added[0].events }

  /** Nothing deliverable is left between the cursor and the watermark, as the n-th round sees it. */
  predicate NothingLeft(env: Environment, filter: Filter, watermark: nat, n: nat, cursor: nat) {
    forall e | e in env.table(n) && InScope(filter, e) && cursor < e.seqNo <= watermark :: e.bill in env.missingBills(n)
  }

  /** A round accounts for every row it moves the cursor past: the row was in its batch, or the
      round itself found its bill missing. */
  predicate Accounted(env: Environment, filter: Filter, n: nat, t: Trip) {
    && t.cursor <= t.next
    && (forall e | e in env.table(n) && InScope(filter, e) && t.cursor < e.seqNo <= t.next ::
          MovedPast(t, e) || e.bill in env.missingBills(n))
  }

  predicate BatchInPlace(env: Environment, filter: Filter, watermark: nat, n: nat, t: Trip) {
    t.added != [] ==>
      && Ascending(t.added[0].events) && RightlyHandled(env, n, t.added[0])
      && (forall e | e in t.added[0].events ::
            && e in env.table(n) && InScope(filter, e) && e.bill !in env.missingBills(n)
            && t.cursor < e.seqNo <= watermark && (t.added[0].fate != Refused ==> e.seqNo <= t.next))
  }

  /** One fetch accounts for its stretch of the table: it returns everything up to its last row. */
  lemma PageAccountsFor(filter: Filter, table: seq<Event>, cursor: nat, watermark: nat)
    requires Ascending(table)
    ensures var (rows, more) := FetchPage(filter, table, cursor, watermark);
            && Ascending(rows)
            && (rows == [] ==> !more)
            && (forall e | e in rows :: e in table && InScope(filter, e) && cursor < e.seqNo <= watermark)
            && (forall e, last | e in table && InScope(filter, e) && last in rows && cursor < e.seqNo <= last.seqNo :: e in rows)
            && (!more ==> forall e | e in table && InScope(filter, e) && cursor < e.seqNo <= watermark :: e in rows)
  {
    var all := Matching(filter, table, cursor, watermark);
    var (rows, more) := FetchPage(filter, table, cursor, watermark);
    forall e, last | e in table && InScope(filter, e) && last in rows && cursor < e.seqNo <= last.seqNo
      ensures e in rows
    {
      NotAfterLast(rows, last);
      assert e in all;
      PrefixHolds(all, |rows|, e);
    }
  }

  lemma NotAfterLast(rows: seq<Event>, e: Event)
    requires Ascending(rows) && e in rows
    ensures e.seqNo <= rows[|rows| - 1].seqNo
  {
  }

  lemma PrefixIsBefore(events: seq<Event>, k: nat)
    requires Ascending(events) && 0 < k <= |events|
    ensures Ascending(events[..k])
    ensures forall e | e in events[..k] :: e in events && e.seqNo <= events[k - 1].seqNo
    ensures forall e | e in events && e.seqNo <= events[k - 1].seqNo :: e in events[..k]
  {
    forall e | e in events[..k] ensures e in events && e.seqNo <= events[k - 1].seqNo {
      NotAfterLast(events[..k], e);
    }
    forall e | e in events && e.seqNo <= events[k - 1].seqNo ensures e in events[..k] {
      PrefixHolds(events, k, e);
    }
  }

  /** A page of which no bill is left: its rows are passed over, and nothing else. */
  lemma EmptyRoundAccounts(env: Environment, filter: Filter, watermark: nat, n: nat, t: Trip)
    requires Ascending(env.table(n)) && RoundResult(env, filter, watermark, n, t) && env.scopeKnown(n) && t.added == []
    ensures Accounted(env, filter, n, t) && t.next <= Greatest(t.cursor, watermark)
    ensures if GoesOn(env, filter, watermark, n, t) then t.cursor < t.next
            else NothingLeft(env, filter, watermark, n, t.next)
  {
    PageAccountsFor(filter, env.table(n), t.cursor, watermark);
    var (rows, more) := FetchPage(filter, env.table(n), t.cursor, watermark);
    assert forall e | e in rows :: e.bill in env.missingBills(n);
    if rows != [] {
      assert rows[|rows| - 1] in rows;
    }
  }

  /** The batch of a round is a stretch of what the round fetched. */
  lemma BatchStaysInPlace(env: Environment, filter: Filter, watermark: nat, n: nat, t: Trip)
    requires Ascending(env.table(n)) && RoundResult(env, filter, watermark, n, t) && t.added != []
    ensures BatchInPlace(env, filter, watermark, n, t)
    ensures t.cursor <= t.next <= Greatest(t.cursor, watermark)
    ensures t.added[0].fate != Refused ==> t.cursor < t.next == t.added[0].events[|t.added[0].events| - 1].seqNo
  {
    var rows := FetchPage(filter, env.table(n), t.cursor, watermark).0;
    var events, b := Present(rows, env.missingBills(n)), t.added[0];
    PageAccountsFor(filter, env.table(n), t.cursor, watermark);
    PrefixIsBefore(events, |b.events|);
    assert b.events[|b.events| - 1] in rows;
    assert events[|b.events| - 1] == b.events[|b.events| - 1];
  }

  /** Nothing between the cursor and the end of the batch is left out but rows whose bill is
      missing, and nothing is left behind it if the batch was all. */
  lemma BatchAccounts(env: Environment, filter: Filter, watermark: nat, n: nat, t: Trip)
    requires Ascending(env.table(n)) && RoundResult(env, filter, watermark, n, t) && t.added != []
    ensures Accounted(env, filter, n, t)
    ensures t.added[0].fate != Refused && !t.added[0].more ==> NothingLeft(env, filter, watermark, n, t.next)
  {
    var (rows, more) := FetchPage(filter, env.table(n), t.cursor, watermark);
    var b := t.added[0];
    BatchStaysInPlace(env, filter, watermark, n, t);
    BatchIsStretch(env, filter, watermark, n, t.cursor, rows, more, b);
    if !b.more {
      NothingBehind(env, filter, watermark, n, b);
    }
  }

  lemma NothingBehind(env: Environment, filter: Filter, watermark: nat, n: nat, b: Batch)
    requires b.events != [] && Ascending(b.events)
    requires forall e | e in env.table(n) && InScope(filter, e) && b.events[|b.events| - 1].seqNo < e.seqNo <= watermark ::
               e in b.events || e.bill in env.missingBills(n)
    ensures NothingLeft(env, filter, watermark, n, b.events[|b.events| - 1].seqNo)
  {
    forall e | e in env.table(n) && InScope(filter, e) && b.events[|b.events| - 1].seqNo < e.seqNo <= watermark
      ensures e.bill in env.missingBills(n)
    {
      assert e !in b.events;
    }
  }

  lemma BatchIsStretch(
    env: Environment, filter: Filter, watermark: nat, n: nat, cursor: nat, rows: seq<Event>, more: bool, b: Batch)
    requires FetchPage(filter, env.table(n), cursor, watermark) == (rows, more) && Ascending(env.table(n))
    requires CutFrom(Present(rows, env.missingBills(n)), more, b)
    ensures var last := b.events[|b.events| - 1];
            && (forall e | e in env.table(n) && InScope(filter, e) && cursor < e.seqNo <= last.seqNo ::
                  e in b.events || e.bill in env.missingBills(n))
            && (!b.more ==> forall e | e in env.table(n) && InScope(filter, e) && last.seqNo < e.seqNo <= watermark ::
                  e in b.events || e.bill in env.missingBills(n))
  {
    var events := Present(rows, env.missingBills(n));
    PageAccountsFor(filter, env.table(n), cursor, watermark);
    PrefixIsBefore(events, |b.events|);
    var last := events[|b.events| - 1];
    assert last in rows && b.events[|b.events| - 1] == last;
    assert !b.more ==> b.events == events;
    StretchAccounts(env, filter, watermark, n, cursor, rows, more, b.events, last);
  }

  /** What lies in the window up to `last` is in the batch, or its bill is missing. */
  lemma StretchAccounts(
    env: Environment, filter: Filter, watermark: nat, n: nat, cursor: nat, rows: seq<Event>, more: bool,
    batch: seq<Event>, last: Event)
    requires FetchPage(filter, env.table(n), cursor, watermark) == (rows, more) && Ascending(env.table(n)) && last in rows
    requires forall e | e in Present(rows, env.missingBills(n)) && e.seqNo <= last.seqNo :: e in batch
    ensures forall e | e in env.table(n) && InScope(filter, e) && cursor < e.seqNo <= last.seqNo ::
              e in batch || e.bill in env.missingBills(n)
    ensures !more && batch == Present(rows, env.missingBills(n)) ==>
              forall e | e in env.table(n) && InScope(filter, e) && last.seqNo < e.seqNo <= watermark ::
                e in batch || e.bill in env.missingBills(n)
  {
    PageAccountsFor(filter, env.table(n), cursor, watermark);
  }

  // ----- whole drains -----

  /** Rounds that follow each other from `start` to `cursor`, every one but the last with `more`. */
  ghost predicate Chain(round: (nat, Trip) -> bool, more: (nat, Trip) -> bool, start: nat, cursor: nat, trips: seq<Trip>)
    decreases |trips|
  {
    if trips == [] then cursor == start
    else
      var n := |trips| - 1;
      && cursor == trips[n].next && round(n, trips[n])
      && (n > 0 ==> more(n - 1, trips[n - 1]))
      && Chain(round, more, start, trips[n].cursor, trips[..n])
  }

  /** The first rounds of a chain are a chain, and what it counts does not fall afterwards. */
  lemma {:induction false} PrefixOfChain(
    round: (nat, Trip) -> bool, more: (nat, Trip) -> bool, start: nat, cursor: nat, trips: seq<Trip>, r: nat)
    requires Chain(round, more, start, cursor, trips) && r < |trips|
    requires forall n, t | round(n, t) :: t.cursor <= t.next
    ensures Chain(round, more, start, trips[r].cursor, trips[..r])
    ensures round(r, trips[r]) && trips[r].next <= cursor
    ensures r < |trips| - 1 ==> more(r, trips[r])
    decreases |trips|
  {
    var n := |trips| - 1;
    if r < n {
      var init := trips[..n];
      PrefixOfChain(round, more, start, trips[n].cursor, init, r);
      assert init[r] == trips[r] && init[..r] == trips[..r];
    }
  }

  function IsRound(env: Environment, filter: Filter, watermark: nat): (nat, Trip) -> bool {
    (n: nat, t: Trip) => RoundResult(env, filter, watermark, n, t)
  }

  function IsUnfinished(env: Environment, filter: Filter, watermark: nat): (nat, Trip) -> bool {
    (n: nat, t: Trip) => GoesOn(env, filter, watermark, n, t)
  }

  /** A drain from `start` to `cursor`: its rounds follow each other, and every round but the last
      called for another. */
  ghost predicate IsDrain(env: Environment, filter: Filter, watermark: nat, start: nat, cursor: nat, trips: seq<Trip>) {
    Chain(IsRound(env, filter, watermark), IsUnfinished(env, filter, watermark), start, cursor, trips)
  }

  /** The last of these rounds, if any, calls for another. */
  ghost predicate CallsForMore(env: Environment, filter: Filter, watermark: nat, trips: seq<Trip>) {
    trips != [] ==> IsUnfinished(env, filter, watermark)(|trips| - 1, trips[|trips| - 1])
  }

  lemma RoundAccounts(env: Environment, filter: Filter, watermark: nat, n: nat, t: Trip)
    requires Ascending(env.table(n)) && RoundResult(env, filter, watermark, n, t)
    ensures Accounted(env, filter, n, t) && BatchInPlace(env, filter, watermark, n, t)
    ensures t.next <= Greatest(t.cursor, watermark)
    ensures GoesOn(env, filter, watermark, n, t) ==> t.cursor < t.next
  {
    if t.added != [] {
      BatchStaysInPlace(env, filter, watermark, n, t);
      BatchAccounts(env, filter, watermark, n, t);
    } else if env.scopeKnown(n) {
      EmptyRoundAccounts(env, filter, watermark, n, t);
    }
  }

  /** All rounds account for what they pass, the cursor never falls, and later batches come after
      earlier ones. */
  ghost predicate Progress(env: Environment, filter: Filter, watermark: nat, start: nat, cursor: nat, trips: seq<Trip>) {
    && start <= cursor <= Greatest(start, watermark)
    && (forall r | 0 <= r < |trips| ::
          Accounted(env, filter, r, trips[r]) && BatchInPlace(env, filter, watermark, r, trips[r]))
    && (forall e: Event | start < e.seqNo <= cursor :: exists r :: 0 <= r < |trips| && InTrip(trips[r], e))
    && (forall q, r | 0 <= q < r < |trips| :: Precedes(trips[q], trips[r]))
    && (forall e | e in HandledAs(Batches(trips), Accepted) :: WasPosted(env, trips, e))
    && (forall e | e in HandledAs(Batches(trips), Oversized) :: NeverFits(env, trips, e))
  }

  /** The round moved the cursor past this position. */
  predicate InTrip(t: Trip, e: Event) { t.cursor < e.seqNo <= t.next }

  /** All of the first batch comes before all of the second. */
  ghost predicate Precedes(a: Trip, b: Trip) {
    a.added != [] && b.added != [] ==>
      forall x, y | x in a.added[0].events && y in b.added[0].events :: x.seqNo < y.seqNo
  }

  lemma PrefixOfDrain(env: Environment, filter: Filter, watermark: nat, start: nat, cursor: nat, trips: seq<Trip>, r: nat)
    requires IsDrain(env, filter, watermark, start, cursor, trips) && r < |trips|
    ensures IsDrain(env, filter, watermark, start, trips[r].cursor, trips[..r])
    ensures RoundResult(env, filter, watermark, r, trips[r]) && trips[r].next <= cursor
    ensures r < |trips| - 1 ==> GoesOn(env, filter, watermark, r, trips[r])
  {
    PrefixOfChain(IsRound(env, filter, watermark), IsUnfinished(env, filter, watermark), start, cursor, trips, r);
  }

  lemma InPlaceInOrder(env: Environment, filter: Filter, watermark: nat, q: nat, a: Trip, r: nat, b: Trip)
    requires BatchInPlace(env, filter, watermark, q, a) && BatchInPlace(env, filter, watermark, r, b)
    requires !IsRefused(a) && a.next <= b.cursor
    ensures Precedes(a, b)
  {
  }

  lemma BatchesInOrder(env: Environment, filter: Filter, watermark: nat, start: nat, cursor: nat, trips: seq<Trip>, q: nat, r: nat)
    requires TablesInOrder(env) && q < r < |trips| && IsDrain(env, filter, watermark, start, cursor, trips)
    ensures Precedes(trips[q], trips[r])
  {
    PrefixOfDrain(env, filter, watermark, start, cursor, trips, q);
    PrefixOfDrain(env, filter, watermark, start, cursor, trips, r);
    assert trips[..r][q] == trips[q];
    PrefixOfDrain(env, filter, watermark, start, trips[r].cursor, trips[..r], q);
    RoundAccounts(env, filter, watermark, q, trips[q]);
    RoundAccounts(env, filter, watermark, r, trips[r]);
    InPlaceInOrder(env, filter, watermark, q, trips[q], r, trips[r]);
  }

  /** Every position the drain passed was passed in one of its rounds. */
  lemma {:induction false} EveryRowHasItsRound(
    env: Environment, filter: Filter, watermark: nat, start: nat, cursor: nat, trips: seq<Trip>, e: Event)
    returns (r: nat)
    requires IsDrain(env, filter, watermark, start, cursor, trips) && start < e.seqNo <= cursor
    ensures r < |trips| && InTrip(trips[r], e)
    decreases |trips|
  {
    r := |trips| - 1;
    if e.seqNo <= trips[r].cursor {
      r := EveryRowHasItsRound(env, filter, watermark, start, trips[r].cursor, trips[..r], e);
    }
  }

  lemma {:induction false} DrainStaysBelow(
    env: Environment, filter: Filter, watermark: nat, start: nat, cursor: nat, trips: seq<Trip>)
    requires TablesInOrder(env) && IsDrain(env, filter, watermark, start, cursor, trips)
    ensures start <= cursor <= Greatest(start, watermark)
    decreases |trips|
  {
    if trips != [] {
      var n := |trips| - 1;
      DrainStaysBelow(env, filter, watermark, start, trips[n].cursor, trips[..n]);
      RoundAccounts(env, filter, watermark, n, trips[n]);
    }
  }

  lemma BatchOfRound(env: Environment, filter: Filter, watermark: nat, n: nat, t: Trip, b: Batch)
    requires RoundResult(env, filter, watermark, n, t) && b in t.added
    ensures t.added == [b] && RightlyHandled(env, n, b)
  {
  }

  lemma BatchOfDrain(
    env: Environment, filter: Filter, watermark: nat, start: nat, cursor: nat, trips: seq<Trip>, b: Batch) returns (r: nat)
    requires IsDrain(env, filter, watermark, start, cursor, trips) && b in Batches(trips)
    ensures r < |trips| && trips[r].added == [b] && RightlyHandled(env, r, b)
  {
    r := BatchHasItsRound(trips, b);
    RoundOfDrain(env, filter, watermark, start, cursor, trips, r);
    BatchOfRound(env, filter, watermark, r, trips[r], b);
  }

  lemma RoundOfDrain(env: Environment, filter: Filter, watermark: nat, start: nat, cursor: nat, trips: seq<Trip>, r: nat)
    requires IsDrain(env, filter, watermark, start, cursor, trips) && r < |trips|
    ensures RoundResult(env, filter, watermark, r, trips[r])
  {
    PrefixOfDrain(env, filter, watermark, start, cursor, trips, r);
  }

  lemma HandledInBatch(batches: seq<Batch>, fate: Fate, e: Event) returns (b: Batch)
    requires e in HandledAs(batches, fate)
    ensures b in batches && b.fate == fate && e in b.events
  {
    b :| b in batches && b.fate == fate && e in b.events;
  }

  lemma AcceptedInRound(env: Environment, trips: seq<Trip>, r: nat, b: Batch, e: Event)
    requires r < |trips| && trips[r].added == [b] && RightlyHandled(env, r, b) && b.fate == Accepted && e in b.events
    ensures WasPosted(env, trips, e)
  {
    assert PostedIn(env, trips, r, e);
  }

  lemma OversizedInRound(env: Environment, trips: seq<Trip>, r: nat, b: Batch, e: Event)
    requires r < |trips| && trips[r].added == [b] && RightlyHandled(env, r, b) && b.fate == Oversized && e in b.events
    ensures NeverFits(env, trips, e)
  {
    assert b.events == [e];
    assert AloneIn(env, trips, r, e);
  }

  lemma AcceptedWasPosted(
    env: Environment, filter: Filter, watermark: nat, start: nat, cursor: nat, trips: seq<Trip>, e: Event)
    requires IsDrain(env, filter, watermark, start, cursor, trips) && e in HandledAs(Batches(trips), Accepted)
    ensures WasPosted(env, trips, e)
  {
    var b := HandledInBatch(Batches(trips), Accepted, e);
    var r := BatchOfDrain(env, filter, watermark, start, cursor, trips, b);
    AcceptedInRound(env, trips, r, b, e);
  }

  lemma SkippedNeverFits(
    env: Environment, filter: Filter, watermark: nat, start: nat, cursor: nat, trips: seq<Trip>, e: Event)
    requires IsDrain(env, filter, watermark, start, cursor, trips) && e in HandledAs(Batches(trips), Oversized)
    ensures NeverFits(env, trips, e)
  {
    var b := HandledInBatch(Batches(trips), Oversized, e);
    var r := BatchOfDrain(env, filter, watermark, start, cursor, trips, b);
    OversizedInRound(env, trips, r, b, e);
  }

  /** What a drain counts as accepted was in a POST answered with a 2xx; what it skips never fits. */
  lemma HandledRightly(env: Environment, filter: Filter, watermark: nat, start: nat, cursor: nat, trips: seq<Trip>)
    requires IsDrain(env, filter, watermark, start, cursor, trips)
    ensures forall e | e in HandledAs(Batches(trips), Accepted) :: WasPosted(env, trips, e)
    ensures forall e | e in HandledAs(Batches(trips), Oversized) :: NeverFits(env, trips, e)
  {
    forall e | e in HandledAs(Batches(trips), Accepted) ensures WasPosted(env, trips, e) {
      AcceptedWasPosted(env, filter, watermark, start, cursor, trips, e);
    }
    forall e | e in HandledAs(Batches(trips), Oversized) ensures NeverFits(env, trips, e) {
      SkippedNeverFits(env, filter, watermark, start, cursor, trips, e);
    }
  }

  lemma {:induction false} AscendingSize(rows: seq<Event>)
    requires Ascending(rows)
    ensures |Elements(rows)| == |rows|
    decreases |rows|
  {
    if rows != [] {
      var n := |rows| - 1;
      AscendingSize(rows[..n]);
      assert rows == rows[..n] + [rows[n]];
      assert Elements(rows) == Elements(rows[..n]) + {rows[n]};
    }
  }

  lemma AcceptedAreBelow(
    env: Environment, filter: Filter, watermark: nat, start: nat, cursor: nat, trips: seq<Trip>, e: Event)
    requires TablesInOrder(env) && IsDrain(env, filter, watermark, start, cursor, trips)
    requires e in HandledAs(Batches(trips), Accepted)
    ensures e.seqNo <= cursor
  {
    var b := HandledInBatch(Batches(trips), Accepted, e);
    var r := BatchOfDrain(env, filter, watermark, start, cursor, trips, b);
    PrefixOfDrain(env, filter, watermark, start, cursor, trips, r);
    RoundAccounts(env, filter, watermark, r, trips[r]);
  }

  lemma OneRoundCounts(batches: seq<Batch>, t: Trip)
    requires |t.added| <= 1 && (t.added != [] ==> Ascending(t.added[0].events))
    requires forall e | e in HandledAs(batches, Accepted) :: e.seqNo <= t.cursor
    requires forall e | t.added != [] && e in t.added[0].events :: t.cursor < e.seqNo
    ensures |HandledAs(batches + t.added, Accepted)|
         == |HandledAs(batches, Accepted)| + if t.added == [] then 0 else Accepts(t.added[0])
  {
    HandledInMore(batches, t.added, Accepted);
    if t.added != [] {
      assert t.added == [t.added[0]];
      HandledInOne(t.added[0], Accepted);
      AscendingSize(t.added[0].events);
      assert HandledAs(batches, Accepted) !! Elements(t.added[0].events);
    } else {
      HandledInOne(Batch([], false, Refused), Accepted);
    }
  }

  /** What a drain reports as sent is the number of events it had accepted. */
  lemma {:induction false} SentAreAccepted(
    env: Environment, filter: Filter, watermark: nat, start: nat, cursor: nat, trips: seq<Trip>)
    requires TablesInOrder(env) && IsDrain(env, filter, watermark, start, cursor, trips)
    ensures CountAccepted(Batches(trips)) == |HandledAs(Batches(trips), Accepted)|
    decreases |trips|
  {
    if trips == [] {
      HandledInOne(Batch([], false, Refused), Accepted);
    } else {
      var n := |trips| - 1;
      LastOfDrain(env, filter, watermark, start, cursor, trips);
      SentAreAccepted(env, filter, watermark, start, trips[n].cursor, trips[..n]);
      forall e | e in HandledAs(Batches(trips[..n]), Accepted) ensures e.seqNo <= trips[n].cursor {
        AcceptedAreBelow(env, filter, watermark, start, trips[n].cursor, trips[..n], e);
      }
      RoundAccounts(env, filter, watermark, n, trips[n]);
      OneRoundCounts(Batches(trips[..n]), trips[n]);
      OneMoreBatch(Batches(trips[..n]), trips[n].added);
    }
  }

  /** A drain accounts for everything it passes. */
  lemma DrainAccounts(env: Environment, filter: Filter, watermark: nat, start: nat, cursor: nat, trips: seq<Trip>)
    requires TablesInOrder(env) && IsDrain(env, filter, watermark, start, cursor, trips)
    ensures Progress(env, filter, watermark, start, cursor, trips)
  {
    DrainStaysBelow(env, filter, watermark, start, cursor, trips);
    HandledRightly(env, filter, watermark, start, cursor, trips);
    forall r | 0 <= r < |trips|
      ensures Accounted(env, filter, r, trips[r]) && BatchInPlace(env, filter, watermark, r, trips[r])
    {
      PrefixOfDrain(env, filter, watermark, start, cursor, trips, r);
      RoundAccounts(env, filter, watermark, r, trips[r]);
    }
    forall e: Event | start < e.seqNo <= cursor ensures exists r :: 0 <= r < |trips| && InTrip(trips[r], e) {
      var r := EveryRowHasItsRound(env, filter, watermark, start, cursor, trips, e);
    }
    forall q, r | 0 <= q < r < |trips| ensures Precedes(trips[q], trips[r]) {
      BatchesInOrder(env, filter, watermark, start, cursor, trips, q, r);
    }
  }

  /** The audit rows of a round, and of a drain. */
  function RowsOfRound(env: Environment, n: nat, t: Trip): seq<Delivery> {
    if t.added == [] || t.added[0].events == [] then [] else [RowOf(env, n, env.now(n), t.added[0])]
  }

  function RowsOf(env: Environment, trips: seq<Trip>): seq<Delivery> {
    if trips == [] then []
    else RowsOf(env, trips[..|trips| - 1]) + RowsOfRound(env, |trips| - 1, trips[|trips| - 1])
  }

  /** The audit rows before the first round of a drain and after each: each round adds its own. */
  ghost predicate IsLog(env: Environment, trips: seq<Trip>, log: seq<seq<Delivery>>, after: seq<Delivery>) {
    && |log| == |trips| + 1 && log[|trips|] == after
    && (forall r | 0 <= r < |trips| :: log[r + 1] == log[r] + RowsOfRound(env, r, trips[r]))
  }

  lemma OneMoreEntry(env: Environment, trips: seq<Trip>, all: seq<Trip>, log: seq<seq<Delivery>>, mid: seq<Delivery>, after: seq<Delivery>)
    requires IsLog(env, trips, log, mid) && |all| == |trips| + 1 && all[..|trips|] == trips
    requires after == mid + RowsOfRound(env, |trips|, all[|trips|])
    ensures IsLog(env, all, log + [after], after)
  {
    assert forall r | 0 <= r < |trips| :: all[r] == all[..|trips|][r];
  }

  lemma {:induction false} LogIsRows(env: Environment, trips: seq<Trip>, log: seq<seq<Delivery>>, after: seq<Delivery>)
    requires IsLog(env, trips, log, after)
    ensures after == log[0] + RowsOf(env, trips)
    decreases |trips|
  {
    if trips != [] {
      var n := |trips| - 1;
      assert log[n + 1] == log[n] + RowsOfRound(env, n, trips[n]);
      LogIsRows(env, trips[..n], log[..n + 1], log[n]);
    }
  }

  /** What ends a drain before its time: an unknown scope, a refusal, or a skip that disabled the row. */
  predicate Halts(env: Environment, n: nat, t: Trip, active: bool) { !env.scopeKnown(n) || IsRefused(t) || !active }

  /** Only the last batch of a drain can be refused. */
  lemma OnlyTheLastIsRefused(env: Environment, filter: Filter, watermark: nat, start: nat, cursor: nat, trips: seq<Trip>)
    requires TablesInOrder(env) && IsDrain(env, filter, watermark, start, cursor, trips)
    ensures forall r | 0 <= r < |trips| - 1 :: !IsRefused(trips[r])
  {
    forall r | 0 <= r < |trips| - 1 ensures !IsRefused(trips[r]) {
      PrefixOfDrain(env, filter, watermark, start, cursor, trips, r);
    }
  }

  predicate IsRefused(t: Trip) { t.added != [] && t.added[0].fate == Refused }

  /** A drain without its last round. */
  lemma LastOfDrain(env: Environment, filter: Filter, watermark: nat, start: nat, cursor: nat, trips: seq<Trip>)
    requires IsDrain(env, filter, watermark, start, cursor, trips) && trips != []
    ensures var n := |trips| - 1;
            && IsDrain(env, filter, watermark, start, trips[n].cursor, trips[..n])
            && CallsForMore(env, filter, watermark, trips[..n])
            && RoundResult(env, filter, watermark, n, trips[n]) && cursor == trips[n].next
  {
    var n := |trips| - 1;
    assert n > 0 ==> IsUnfinished(env, filter, watermark)(n - 1, trips[n - 1]);
  }

  lemma OneMoreInTime(env: Environment, deadline: int, n: nat)
    requires InTime(env, deadline, n) && env.monotonic(n) < deadline
    ensures InTime(env, deadline, n + 1)
  {
  }

  lemma OneMoreTrip(
    env: Environment, filter: Filter, watermark: nat, start: nat, cursor: nat, trips: seq<Trip>, t: Trip)
    requires IsDrain(env, filter, watermark, start, cursor, trips) && t.cursor == cursor
    requires RoundResult(env, filter, watermark, |trips|, t)
    requires CallsForMore(env, filter, watermark, trips)
    ensures IsDrain(env, filter, watermark, start, t.next, trips + [t])
    ensures Batches(trips + [t]) == Batches(trips) + t.added
  {
    var all := trips + [t];
    assert all[..|all| - 1] == trips && all[|all| - 1] == t;
  }

  /** One audit row for each batch, in order, behind the rows that were there before. */
  predicate Audited(before: seq<Delivery>, after: seq<Delivery>, batches: seq<Batch>)
    decreases |batches|
  {
    if batches == [] then after == before
    else
      && after != [] && Describes(after[|after| - 1], batches[|batches| - 1])
      && Audited(before, after[..|after| - 1], batches[..|batches| - 1])
  }

  lemma {:induction false} AuditedMore(before: seq<Delivery>, mid: seq<Delivery>, after: seq<Delivery>, batches: seq<Batch>, added: seq<Batch>)
    requires Audited(before, mid, batches) && Audited(mid, after, added)
    ensures Audited(before, after, batches + added)
    decreases |added|
  {
    if added == [] {
      assert batches + added == batches;
    } else {
      AuditedMore(before, mid, after[..|after| - 1], batches, added[..|added| - 1]);
      assert (batches + added)[..|batches + added| - 1] == batches + added[..|added| - 1];
    }
  }

  /** The audit rows one by one. */
  lemma {:induction false} AuditedAt(before: seq<Delivery>, after: seq<Delivery>, batches: seq<Batch>, i: nat)
    requires Audited(before, after, batches)
    ensures |after| == |before| + |batches| && after[..|before|] == before
    ensures i < |batches| ==> Describes(after[|before| + i], batches[i])
    decreases |batches|
  {
    if batches != [] {
      var n := |after| - 1;
      AuditedAt(before, after[..n], batches[..|batches| - 1], i);
      assert after[..n][..|before|] == after[..|before|];
    } else {
      assert after[..|before|] == before;
    }
  }

  lemma AuditedOne(before: seq<Delivery>, d: Delivery, b: Batch)
    requires Describes(d, b)
    ensures Audited(before, before + [d], [b])
  {
    assert (before + [d])[..|before|] == before && [b][..0] == [];
    assert Audited(before, before, []);
  }

  /** What one more round adds to a drain and its audit rows. */
  lemma TripExtends(
    env: Environment, filter: Filter, watermark: nat, start: nat, trips: seq<Trip>, t: Trip,
    before: seq<Delivery>, mid: seq<Delivery>, after: seq<Delivery>)
    requires IsDrain(env, filter, watermark, start, t.cursor, trips)
    requires CallsForMore(env, filter, watermark, trips) && RoundResult(env, filter, watermark, |trips|, t) && |t.added| <= 1
    requires Audited(before, mid, Batches(trips)) && Audited(mid, after, t.added)
    ensures IsDrain(env, filter, watermark, start, t.next, trips + [t])
    ensures Audited(before, after, Batches(trips + [t]))
    ensures CountAccepted(Batches(trips + [t])) == CountAccepted(Batches(trips)) + if t.added == [] then 0 else Accepts(t.added[0])
    ensures CallsForMore(env, filter, watermark, trips + [t]) <==> GoesOn(env, filter, watermark, |trips|, t)
  {
    OneMoreTrip(env, filter, watermark, start, t.cursor, trips, t);
    AuditedMore(before, mid, after, Batches(trips), t.added);
    OneMoreBatch(Batches(trips), t.added);
  }

  /** What a drain that began at `start`, with the audit rows `before`, has done so far. */
  ghost predicate SoFar(
    env: Environment, filter: Filter, watermark: nat, start: nat, cursor: nat, before: seq<Delivery>, after: seq<Delivery>,
    trips: seq<Trip>, sent: nat)
  {
    && IsDrain(env, filter, watermark, start, cursor, trips)
    && Audited(before, after, Batches(trips))
    && sent == CountAccepted(Batches(trips))
  }

  /** Such a drain calls for another round. */
  ghost predicate IsGoing(
    env: Environment, filter: Filter, watermark: nat, start: nat, cursor: nat, before: seq<Delivery>, after: seq<Delivery>,
    trips: seq<Trip>, sent: nat)
  {
    SoFar(env, filter, watermark, start, cursor, before, after, trips, sent) && CallsForMore(env, filter, watermark, trips)
  }

  /** It is at an end: `stop` says why. */
  ghost predicate IsEnded(
    env: Environment, filter: Filter, watermark: nat, start: nat, cursor: nat, before: seq<Delivery>, after: seq<Delivery>,
    trips: seq<Trip>, sent: nat, stop: Stop)
  {
    && SoFar(env, filter, watermark, start, cursor, before, after, trips, sent)
    && (trips != [] && IsRefused(trips[|trips| - 1]) ==> stop == Stopped)
    && (stop == Drained ==> trips != [] && NothingLeft(env, filter, watermark, |trips| - 1, cursor))
    && (stop == OutOfTime ==> CallsForMore(env, filter, watermark, trips))
  }

  lemma RoundIsOver(
    env: Environment, filter: Filter, watermark: nat, start: nat, trips: seq<Trip>, t: Trip,
    before: seq<Delivery>, mid: seq<Delivery>, after: seq<Delivery>, sent: nat, stop: Stop)
    requires IsGoing(env, filter, watermark, start, t.cursor, before, mid, trips, sent)
    requires RoundResult(env, filter, watermark, |trips|, t) && |t.added| <= 1 && Audited(mid, after, t.added)
    requires stop == OutOfTime ==> GoesOn(env, filter, watermark, |trips|, t)
    requires stop == Drained ==> NothingLeft(env, filter, watermark, |trips|, t.next)
    requires IsRefused(t) ==> stop == Stopped
    ensures var all, count := trips + [t], sent + if t.added == [] then 0 else Accepts(t.added[0]);
            && (stop == OutOfTime ==> IsGoing(env, filter, watermark, start, t.next, before, after, all, count))
            && (stop != OutOfTime ==> IsEnded(env, filter, watermark, start, t.next, before, after, all, count, stop))
  {
    TripExtends(env, filter, watermark, start, trips, t, before, mid, after);
    assert (trips + [t])[|trips|] == t;
  }

  /** A drain that calls for another round may end for want of time, and for nothing else. */
  lemma TimeIsUp(
    env: Environment, filter: Filter, watermark: nat, start: nat, cursor: nat, before: seq<Delivery>, after: seq<Delivery>,
    trips: seq<Trip>, sent: nat)
    requires IsGoing(env, filter, watermark, start, cursor, before, after, trips, sent)
    ensures IsEnded(env, filter, watermark, start, cursor, before, after, trips, sent, OutOfTime)
    ensures trips != [] ==> !Halts(env, |trips| - 1, trips[|trips| - 1], true)
  {
  }

  class Subscription {
    const filter: Filter
    var active: bool
    var lastSeq: nat
    var consecutiveFailures: nat
    var failingSince: Option<int>
    var lastError: Option<ErrorClass>
    var lastStatus: Option<int>
    var lastAttemptAt: Option<int>
    var lastSuccessAt: Option<int>
    var nextAttemptAt: Option<int>
    var disabledReason: Option<Reason>
    var disabledAt: Option<int>
    var notifyPending: Option<Notice>
    /** The `webhook_deliveries` rows of the current activation, oldest first. */
    var deliveries: seq<Delivery>

    constructor (filter: Filter, cursor: nat)
      ensures this.filter == filter && lastSeq == cursor && Valid() && active && deliveries == []
      ensures disabledAt == nextAttemptAt == lastAttemptAt == None && notifyPending == Some(Created)
    {
      this.filter := filter;
      active, lastSeq, consecutiveFailures, failingSince, lastError := true, cursor, 0, None, None;
      lastStatus, lastAttemptAt, lastSuccessAt, nextAttemptAt := None, None, None, None;
      disabledReason, disabledAt, notifyPending, deliveries := None, None, Some(Created), [];
    }

    function Counters(): Health
      reads this
    {
      Health(consecutiveFailures, failingSince, lastError)
    }

    function RowMarks(): Marks
      reads this
    {
      Marks(active, disabledReason, disabledAt, notifyPending, lastAttemptAt)
    }

    /** The counters are those of the recorded attempts, and the row is active until an attempt
        meets a disable rule or its scope is found unknown. */
    ghost predicate Valid()
      reads this
    {
      && Counters() == Replay(deliveries)
      && Activation(deliveries)
      && (active ==> disabledReason == None && (deliveries == [] || VerdictOn(deliveries) == None))
      && (!active ==> disabledReason != None
                      && (disabledReason == Some(UnknownScope)
                          || (deliveries != [] && VerdictOn(deliveries) == disabledReason)))
    }

    method RecordFailure(status: Option<int>, error: ErrorClass, now: int)
      modifies `consecutiveFailures, `failingSince, `lastError, `lastStatus, `lastAttemptAt
      ensures Counters() == AfterFailure(old(Counters()), error, now)
      ensures lastStatus == status && lastAttemptAt == Some(now)
    {
      if lastError != None && Some(error) != lastError {
        consecutiveFailures := 0;
      }
      lastAttemptAt := Some(now);
      lastStatus := status;
      lastError := Some(error);
      consecutiveFailures := consecutiveFailures + 1;
      if failingSince == None {
        failingSince := Some(now);
      }
    }

    method RecordSkip(error: ErrorClass, now: int)
      modifies `consecutiveFailures, `failingSince, `lastError, `lastStatus, `lastAttemptAt
      ensures Counters() == AfterSkip(old(Counters()), error)
      ensures lastStatus == None && lastAttemptAt == Some(now)
    {
      if lastError != None && Some(error) != lastError {
        consecutiveFailures := 0;
      }
      lastAttemptAt := Some(now);
      lastStatus := None;
      lastError := Some(error);
      consecutiveFailures := consecutiveFailures + 1;
      failingSince := None;
    }

    method RecordSuccess(status: int, now: int)
      modifies `consecutiveFailures, `failingSince, `lastError, `lastStatus, `lastAttemptAt, `lastSuccessAt, `nextAttemptAt
      ensures Counters() == AfterSuccess(old(Counters()))
      ensures lastStatus == Some(status) && lastAttemptAt == lastSuccessAt == Some(now) && nextAttemptAt == None
    {
      lastAttemptAt := Some(now);
      lastSuccessAt := Some(now);
      lastStatus := Some(status);
      lastError := None;
      consecutiveFailures := 0;
      failingSince := None;
      nextAttemptAt := None;
    }

    method AdvanceLastSeq(to: nat)
      modifies `lastSeq
      ensures lastSeq == Greatest(old(lastSeq), to)
    {
      lastSeq := Greatest(lastSeq, to);
    }

    method ApplyBackoff(env: Environment, now: int, retryAfter: Option<nat>)
      modifies `nextAttemptAt
      ensures nextAttemptAt == Some(now + if retryAfter != None then retryAfter.value else env.backoff(consecutiveFailures))
    {
      var delay := if retryAfter != None then retryAfter.value else env.backoff(consecutiveFailures);
      nextAttemptAt := Some(now + delay);
    }

    method Disable(reason: Reason, now: int)
      modifies `active, `disabledReason, `disabledAt, `notifyPending
      ensures !active && disabledReason == Some(reason) && disabledAt == Some(now)
      ensures notifyPending == Some(WithDisabled(old(notifyPending)))
    {
      active := false;
      disabledReason := Some(reason);
      disabledAt := Some(now);
      notifyPending := Some(WithDisabled(notifyPending));
    }

    method MaybeAutoDisable(now: int, reason: Reason)
      modifies `active, `disabledReason, `disabledAt, `notifyPending
      ensures var due := failingSince != None && now - failingSince.value > AUTO_DISABLE_AFTER;
              && active == (old(active) && !due)
              && disabledReason == (if due then Some(reason) else old(disabledReason))
              && disabledAt == (if due then Some(now) else old(disabledAt))
              && notifyPending == (if due then Some(WithDisabled(old(notifyPending))) else old(notifyPending))
    {
      if failingSince != None && now - failingSince.value > AUTO_DISABLE_AFTER {
        Disable(reason, now);
      }
    }

    /** What follows a failure once it is counted: retry later, or disable. */
    method RetryOrDisable(env: Environment, status: Option<int>, retryAfter: Option<nat>, now: int)
      modifies `active, `disabledReason, `disabledAt, `notifyPending, `nextAttemptAt
      ensures var verdict := FailureVerdict(Counters(), status, now);
              && active == (old(active) && verdict == None)
              && disabledReason == (if verdict == None then old(disabledReason) else verdict)
              && disabledAt == (if verdict == None then old(disabledAt) else Some(now))
              && notifyPending == (if verdict == None then old(notifyPending) else Some(WithDisabled(old(notifyPending))))
              && (verdict == None ==> nextAttemptAt == Some(now + if status == Some(429) && retryAfter != None
                                                                  then retryAfter.value else env.backoff(consecutiveFailures)))
    {
      if status == Some(410) {
        Disable(Gone, now);
      } else if status == Some(429) {
        ApplyBackoff(env, now, retryAfter);
        MaybeAutoDisable(now, TooManyFailures);
      } else if status != None && status.value in NON_RETRYABLE_4XX {
        if consecutiveFailures >= 3 {
          Disable(NonRetryableClientError, now);
        } else {
          ApplyBackoff(env, now, None);
          MaybeAutoDisable(now, TooManyFailures);
        }
      } else {
        ApplyBackoff(env, now, None);
        MaybeAutoDisable(now, TooManyFailures);
      }
    }

    /** Count a failure, retry or disable, and leave the audit row. */
    method CountFailure(env: Environment, d: Delivery, retryAfter: Option<nat>)
      requires d.Failed()
      modifies `active, `disabledReason, `disabledAt, `notifyPending, `nextAttemptAt, `deliveries,
               `consecutiveFailures, `failingSince, `lastError, `lastStatus, `lastAttemptAt
      ensures deliveries == old(deliveries) + [d]
      ensures Counters() == AfterFailure(old(Counters()), d.error.value, d.at)
      ensures lastStatus == d.status && lastAttemptAt == Some(d.at)
      ensures var verdict := FailureVerdict(Counters(), d.status, d.at);
              && active == (old(active) && verdict == None)
              && disabledReason == (if verdict == None then old(disabledReason) else verdict)
              && disabledAt == (if verdict == None then old(disabledAt) else Some(d.at))
              && notifyPending == (if verdict == None then old(notifyPending) else Some(WithDisabled(old(notifyPending))))
              && (verdict == None ==> nextAttemptAt == Some(d.at + if d.status == Some(429) && retryAfter != None
                                                                   then retryAfter.value else env.backoff(consecutiveFailures)))
    {
      RecordFailure(d.status, d.error.value, d.at);
      RetryOrDisable(env, d.status, retryAfter, d.at);
      deliveries := deliveries + [d];
    }

    /** The failure branches of a delivery: the counters take the attempt in, the cursor stays,
        and the subscription is disabled exactly when the attempt meets a disable rule. */
    method FailDelivery(env: Environment, d: Delivery, retryAfter: Option<nat>)
      requires Valid() && active && WellClassified(d) && d.Failed()
      modifies `active, `disabledReason, `disabledAt, `notifyPending, `nextAttemptAt, `deliveries,
               `consecutiveFailures, `failingSince, `lastError, `lastStatus, `lastAttemptAt
      ensures Valid() && deliveries == old(deliveries) + [d]
      ensures disabledReason == VerdictOn(deliveries) && active == (disabledReason == None)
      ensures active <==> !MeetsARule(deliveries)
      ensures Marked(active, old(disabledAt), disabledAt, old(notifyPending), notifyPending, d.at)
      ensures active ==> nextAttemptAt == Some(d.at + if d.status == Some(429) && retryAfter != None
                                                      then retryAfter.value else env.backoff(consecutiveFailures))
      ensures lastStatus == d.status && lastAttemptAt == Some(d.at)
    {
      ReplayOneMore(deliveries, d);
      VerdictIsExactly(deliveries + [d]);
      CountFailure(env, d, retryAfter);
    }

    /** The worker's handler for an exception in a drain, on the row as it was last committed: an
        `internal` attempt like any other failure, with an audit row without events.  The source
        does not ask whether the row is still active; a row that is not stays so. */
    method RecoverFromCrash(env: Environment, now: int)
      requires Valid()
      modifies `active, `disabledReason, `disabledAt, `notifyPending, `nextAttemptAt, `deliveries,
               `consecutiveFailures, `failingSince, `lastError, `lastStatus, `lastAttemptAt
      ensures deliveries == old(deliveries) + [Delivery(None, None, 0, None, Some(Internal), now)]
      ensures old(active) ==> Valid() && disabledReason == VerdictOn(deliveries) && active == (disabledReason == None)
      ensures old(active) ==> Marked(active, old(disabledAt), disabledAt, old(notifyPending), notifyPending, now)
      ensures !old(active) ==> !active && Counters() == AfterFailure(old(Counters()), Internal, now)
      ensures active ==> nextAttemptAt == Some(now + env.backoff(consecutiveFailures))
    {
      if active {
        FailDelivery(env, Crash(now), None);
      } else {
        CountFailure(env, Crash(now), None);
      }
    }

    /** The 2xx branch: the counters reset and the cursor moves to the last event of the batch. */
    method AcceptDelivery(d: Delivery)
      requires Valid() && active && WellClassified(d) && d.Succeeded() && d.status != None && d.lastSeq != None
      modifies `deliveries, `lastSeq, `nextAttemptAt,
               `consecutiveFailures, `failingSince, `lastError, `lastStatus, `lastAttemptAt, `lastSuccessAt
      ensures Valid() && deliveries == old(deliveries) + [d]
      ensures lastSeq == Greatest(old(lastSeq), d.lastSeq.value)
      ensures Counters() == Health(0, None, None) && nextAttemptAt == None
      ensures lastStatus == d.status && lastAttemptAt == lastSuccessAt == Some(d.at)
    {
      ReplayOneMore(deliveries, d);
      RecordSuccess(d.status.value, d.at);
      AdvanceLastSeq(d.lastSeq.value);
      deliveries := deliveries + [d];
    }

    /** POST one batch and record the outcome.  Only a 2xx moves the cursor, to the last event of
        the batch. */
    method Deliver(env: Environment, n: nat, batch: seq<Event>, more: bool) returns (fate: Fate)
      requires Valid() && active && batch != [] && Receivable(env.receive(n))
      modifies `active, `disabledReason, `disabledAt, `notifyPending, `nextAttemptAt, `deliveries, `lastSeq,
               `consecutiveFailures, `failingSince, `lastError, `lastStatus, `lastAttemptAt, `lastSuccessAt
      ensures Valid() && fate != Oversized
      ensures fate == Accepted <==> Is2xx(env.receive(n))
      ensures fate == Accepted ==> active
      ensures lastSeq == if fate == Accepted then Greatest(old(lastSeq), batch[|batch| - 1].seqNo) else old(lastSeq)
      ensures Audited(old(deliveries), deliveries, [Batch(batch, more, fate)])
      ensures deliveries == old(deliveries) + [Attempt(batch, env.receive(n), env.attemptedAt(n))]
      ensures lastAttemptAt == Some(env.attemptedAt(n))
      ensures lastStatus == if env.receive(n).Response? then Some(env.receive(n).status) else None
      ensures fate == Accepted ==> Counters() == Health(0, None, None) && nextAttemptAt == None
      // A refused batch: disabled by one of the four rules, or tried again after the receiver's own
      // delay if it answered 429 with one, and after the backoff otherwise.
      ensures fate == Refused ==> (active <==> !MeetsARule(deliveries)) && disabledReason == VerdictOn(deliveries)
      ensures Marked(active, old(disabledAt), disabledAt, old(notifyPending), notifyPending, env.attemptedAt(n))
      ensures fate == Refused && active ==>
                nextAttemptAt == Some(env.attemptedAt(n) + match env.receive(n) {
                                        case Response(429, Some(delay)) => delay
                                        case _ => env.backoff(consecutiveFailures)
                                      })
    {
      var response := env.receive(n);
      var d := Attempt(batch, response, env.attemptedAt(n));
      AttemptDescribes(batch, more, response, env.attemptedAt(n));
      if d.error == None {
        AuditedOne(deliveries, d, Batch(batch, more, Accepted));
        AcceptDelivery(d);
        fate := Accepted;
      } else {
        AuditedOne(deliveries, d, Batch(batch, more, Refused));
        FailDelivery(env, d, if response.Response? then response.retryAfter else None);
        fate := Refused;
      }
    }

    /** Skip one event whose body can never fit: an audit row, and the cursor moves past it. */
    method SkipOversized(event: Event, now: int)
      requires Valid() && active
      modifies `active, `disabledReason, `disabledAt, `notifyPending, `deliveries, `lastSeq,
               `consecutiveFailures, `failingSince, `lastError, `lastStatus, `lastAttemptAt
      ensures Valid() && lastSeq == Greatest(old(lastSeq), event.seqNo)
      ensures deliveries == old(deliveries) + [Skip(event, now)]
      ensures disabledReason == VerdictOn(deliveries) && active == (disabledReason == None)
      ensures active <==> !LastAre(deliveries, 2160, IsSkip)
      ensures lastStatus == None && lastAttemptAt == Some(now)
      ensures Marked(active, old(disabledAt), disabledAt, old(notifyPending), notifyPending, now)
    {
      var d := Skip(event, now);
      ReplayOneMore(deliveries, d);
      SkipRunExactly(deliveries + [d]);
      AdvanceLastSeq(event.seqNo);
      RecordSkip(PayloadTooLarge, now);
      if consecutiveFailures >= OVERSIZED_SKIP_DISABLE_AFTER {
        Disable(PayloadTooLargeRun, now);
      }
      deliveries := deliveries + [d];
    }

    /** Rows without bills, or no rows at all: only the cursor and the attempt stamp move. */
    method PassOver(to: nat, now: int)
      requires Valid()
      modifies `lastSeq, `lastAttemptAt
      ensures Valid() && lastSeq == Greatest(old(lastSeq), to) && lastAttemptAt == Some(now)
    {
      AdvanceLastSeq(to);
      lastAttemptAt := Some(now);
    }

    method DisableUnknownScope(now: int)
      requires Valid()
      modifies `active, `disabledReason, `disabledAt, `notifyPending, `lastAttemptAt
      ensures Valid() && !active && disabledReason == Some(UnknownScope) && lastAttemptAt == Some(now)
      ensures disabledAt == Some(now) && notifyPending == Some(WithDisabled(old(notifyPending)))
    {
      lastAttemptAt := Some(now);
      Disable(UnknownScope, now);
    }

    /** Skip a batch that can never fit, POST any other. */
    method Offer(env: Environment, n: nat, batch: seq<Event>, more: bool, now: int) returns (fate: Fate)
      requires Valid() && active && batch != [] && Receivable(env.receive(n))
      requires env.bodySize(batch, more) <= MAX_BODY_BYTES || |batch| == 1
      modifies this
      ensures Valid() && (fate == Accepted ==> active)
      ensures RightlyHandled(env, n, Batch(batch, more, fate))
      ensures lastSeq == AfterBatch(old(lastSeq), Batch(batch, more, fate))
      ensures Audited(old(deliveries), deliveries, [Batch(batch, more, fate)])
      ensures deliveries == old(deliveries) + [RowOf(env, n, now, Batch(batch, more, fate))]
      ensures lastAttemptAt == Some(StampOf(env, n, now, fate))
      ensures active ==> disabledReason == None
      ensures !active ==> disabledReason == VerdictOn(deliveries)
      ensures Marked(active, old(disabledAt), disabledAt, old(notifyPending), notifyPending, StampOf(env, n, now, fate))
    {
      if |batch| == 1 && env.bodySize(batch, more) > MAX_BODY_BYTES {
        AuditedOne(deliveries, Skip(batch[0], now), Batch(batch, more, Oversized));
        SkipOversized(batch[0], now);
        fate := Oversized;
      } else {
        fate := Deliver(env, n, batch, more);
      }
    }

    /** The rest of a round once there are events: fit, POST or skip, record. */
    method SendBatch(env: Environment, watermark: nat, n: nat, now: int)
      returns (stop: Stop, sent: nat, ghost added: seq<Batch>)
      requires Valid() && active && Receivable(env.receive(n)) && env.scopeKnown(n)
      requires Present(FetchPage(filter, env.table(n), lastSeq, watermark).0, env.missingBills(n)) != []
      modifies this
      ensures Valid() && (stop != Stopped ==> active)
      ensures |added| == 1 && sent == Accepts(added[0])
      ensures RoundResult(env, filter, watermark, n, Trip(old(lastSeq), lastSeq, added))
      ensures Audited(old(deliveries), deliveries, added)
      ensures deliveries == old(deliveries) + [RowOf(env, n, now, added[0])]
      ensures lastAttemptAt == Some(StampOf(env, n, now, added[0].fate))
      ensures !active ==> disabledReason == VerdictOn(deliveries)
      ensures Marked(active, old(disabledAt), disabledAt, old(notifyPending), notifyPending, StampOf(env, n, now, added[0].fate))
      ensures stop == if added[0].fate == Refused || !active then Stopped else if added[0].more then OutOfTime else Drained
    {
      var (rows, more) := FetchPage(filter, env.table(n), lastSeq, watermark);
      var events := Present(rows, env.missingBills(n));
      var batch, more' := FitBatch(env, events, more);
      var fate := Offer(env, n, batch, more', now);
      sent := if fate == Accepted then |batch| else 0;
      added := [Batch(batch, more', fate)];
      stop := if fate == Refused || !active then Stopped else if more' then OutOfTime else Drained;
    }

    /** What a round reports: it goes on only with a greater cursor, and ends by itself only with
        nothing deliverable left. */
    ghost predicate Reports(env: Environment, watermark: nat, n: nat, cursor: nat, added: seq<Batch>, stop: Stop)
      reads this
    {
      && RoundResult(env, filter, watermark, n, Trip(cursor, lastSeq, added))
      && (stop == OutOfTime ==> GoesOn(env, filter, watermark, n, Trip(cursor, lastSeq, added)) && cursor < lastSeq <= watermark)
      && (stop == Drained ==> NothingLeft(env, filter, watermark, n, lastSeq))
    }

    /** The rest of a round without events: over the rows, if there were any, or to the watermark. */
    method PassPage(env: Environment, watermark: nat, n: nat, now: int) returns (stop: Stop)
      requires Valid() && active && Ascending(env.table(n)) && env.scopeKnown(n)
      requires Present(FetchPage(filter, env.table(n), lastSeq, watermark).0, env.missingBills(n)) == []
      modifies `lastSeq, `lastAttemptAt
      ensures Valid() && stop != Stopped && lastAttemptAt == Some(now)
      ensures Reports(env, watermark, n, old(lastSeq), [], stop)
    {
      ghost var cursor := lastSeq;
      var (rows, more) := FetchPage(filter, env.table(n), lastSeq, watermark);
      PassOver(if rows == [] then watermark else rows[|rows| - 1].seqNo, now);
      stop := if rows != [] && more then OutOfTime else Drained;
      EmptyRoundAccounts(env, filter, watermark, n, Trip(cursor, lastSeq, []));
    }

    /** The rest of a round with events. */
    method SendPage(env: Environment, watermark: nat, n: nat, now: int) returns (stop: Stop, sent: nat, ghost added: seq<Batch>)
      requires Valid() && active && Receivable(env.receive(n)) && Ascending(env.table(n)) && env.scopeKnown(n)
      requires Present(FetchPage(filter, env.table(n), lastSeq, watermark).0, env.missingBills(n)) != []
      modifies this
      ensures Valid() && (stop != Stopped ==> active)
      ensures |added| == 1 && sent == Accepts(added[0]) && Audited(old(deliveries), deliveries, added)
      ensures Reports(env, watermark, n, old(lastSeq), added, stop)
      ensures deliveries == old(deliveries) + [RowOf(env, n, now, added[0])]
      ensures lastAttemptAt == Some(StampOf(env, n, now, added[0].fate))
      ensures !active ==> disabledReason == VerdictOn(deliveries)
      ensures Marked(active, old(disabledAt), disabledAt, old(notifyPending), notifyPending, StampOf(env, n, now, added[0].fate))
      ensures stop == Stopped <==> added[0].fate == Refused || !active
    {
      ghost var cursor := lastSeq;
      stop, sent, added := SendBatch(env, watermark, n, now);
      BatchStaysInPlace(env, filter, watermark, n, Trip(cursor, lastSeq, added));
      BatchAccounts(env, filter, watermark, n, Trip(cursor, lastSeq, added));
    }

    /** One round of the drain: fetch, join, fit, POST or skip, record.  It stops on an unknown
        scope, on a refusal, and when a skip disabled the row. */
    method Round(env: Environment, watermark: nat, n: nat) returns (stop: Stop, sent: nat, ghost added: seq<Batch>)
      requires Valid() && active && Receivable(env.receive(n)) && Ascending(env.table(n))
      modifies this
      ensures Valid() && (stop != Stopped ==> active)
      ensures |added| <= 1 && sent == (if added == [] then 0 else Accepts(added[0]))
      ensures Audited(old(deliveries), deliveries, added)
      ensures Reports(env, watermark, n, old(lastSeq), added, stop)
      ensures stop == Stopped <==> !env.scopeKnown(n) || (added != [] && (added[0].fate == Refused || !active))
      // What it leaves on the row, and when.
      ensures deliveries == old(deliveries) + if added == [] then [] else [RowOf(env, n, env.now(n), added[0])]
      ensures !active ==> ReasonIs(disabledReason, env.scopeKnown(n), deliveries)
      ensures !env.scopeKnown(n) ==> !active
      ensures var at := if added == [] then env.now(n) else StampOf(env, n, env.now(n), added[0].fate);
              && lastAttemptAt == Some(at)
              && Marked(active, old(disabledAt), disabledAt, old(notifyPending), notifyPending, at)
    {
      sent, added := 0, [];
      var now := env.now(n);
      if !env.scopeKnown(n) {
        DisableUnknownScope(now);
        stop := Stopped;
      } else if Present(FetchPage(filter, env.table(n), lastSeq, watermark).0, env.missingBills(n)) == [] {
        stop := PassPage(env, watermark, n, now);
      } else {
        stop, sent, added := SendPage(env, watermark, n, now);
      }
    }

    /** The row of a drain that calls for another round, and of one that is at an end. */
    ghost predicate Going(env: Environment, watermark: nat, start: nat, before: seq<Delivery>, trips: seq<Trip>, sent: nat)
      reads this
    {
      Valid() && active && IsGoing(env, filter, watermark, start, lastSeq, before, deliveries, trips, sent)
    }

    ghost predicate Ended(env: Environment, watermark: nat, start: nat, before: seq<Delivery>, trips: seq<Trip>, sent: nat, stop: Stop)
      reads this
    {
      && Valid() && (stop != Stopped ==> active)
      && IsEnded(env, filter, watermark, start, lastSeq, before, deliveries, trips, sent, stop)
    }

    /** One more round of a drain. */
    method NextRound(env: Environment, watermark: nat, n: nat, sentBefore: nat,
                     ghost start: nat, ghost before: seq<Delivery>, ghost trips: seq<Trip>)
      returns (stop: Stop, sent: nat, ghost trips': seq<Trip>)
      requires TablesInOrder(env) && Receivable(env.receive(n)) && n == |trips|
      requires Going(env, watermark, start, before, trips, sentBefore)
      modifies this
      ensures |trips'| == n + 1 && trips'[..n] == trips
      ensures deliveries == old(deliveries) + RowsOfRound(env, n, trips'[n])
      ensures stop == Stopped <==> Halts(env, n, trips'[n], active)
      ensures MarkedByDrain(env, trips', old(RowMarks()), RowMarks(), deliveries)
      ensures stop == OutOfTime ==> Going(env, watermark, start, before, trips', sent) && old(lastSeq) < lastSeq <= watermark
      ensures stop != OutOfTime ==> Ended(env, watermark, start, before, trips', sent, stop)
    {
      ghost var mid, cursor := deliveries, lastSeq;
      var result, more, added := Round(env, watermark, n);
      ghost var t := Trip(cursor, lastSeq, added);
      stop, sent, trips' := result, sentBefore + more, trips + [t];
      RoundIsOver(env, filter, watermark, start, trips, t, before, mid, deliveries, sentBefore, stop);
    }

    /** A drain so far: its audit rows, and the marks of an active row as they were. */
    ghost predicate Underway(env: Environment, marks: Marks, trips: seq<Trip>, log: seq<seq<Delivery>>)
      reads this
    {
      IsLog(env, trips, log, deliveries) && KeepsMarks(marks, RowMarks())
    }

    /** A drain that has ended: all that was said of it, its log, its marks and why it stopped. */
    ghost predicate Over(env: Environment, watermark: nat, start: nat, marks: Marks, trips: seq<Trip>, log: seq<seq<Delivery>>,
                         sent: nat, stop: Stop)
      reads this
    {
      && IsLog(env, trips, log, deliveries) && Ended(env, watermark, start, log[0], trips, sent, stop)
      && MarkedByDrain(env, trips, marks, RowMarks(), deliveries)
      && (stop == Stopped <==> trips != [] && Halts(env, |trips| - 1, trips[|trips| - 1], active))
    }

    lemma UnderwayIsOver(env: Environment, watermark: nat, start: nat, marks: Marks, trips: seq<Trip>, log: seq<seq<Delivery>>, sent: nat)
      requires Underway(env, marks, trips, log) && Going(env, watermark, start, log[0], trips, sent)
      ensures Over(env, watermark, start, marks, trips, log, sent, OutOfTime)
    {
      TimeIsUp(env, filter, watermark, start, lastSeq, log[0], deliveries, trips, sent);
    }

    /** One more round, on the row of the whole drain. */
    method DrainFurther(env: Environment, watermark: nat, n: nat, sentBefore: nat, ghost start: nat,
                        ghost marks: Marks, ghost trips: seq<Trip>, ghost log: seq<seq<Delivery>>)
      returns (stop: Stop, sent: nat, ghost trips': seq<Trip>, ghost log': seq<seq<Delivery>>)
      requires TablesInOrder(env) && Receivable(env.receive(n)) && n == |trips|
      requires Underway(env, marks, trips, log) && Going(env, watermark, start, log[0], trips, sentBefore)
      modifies this
      ensures |trips'| == n + 1 && log' != [] && log'[0] == log[0]
      ensures stop == OutOfTime ==> Underway(env, marks, trips', log') && Going(env, watermark, start, log'[0], trips', sent)
      ensures stop == OutOfTime ==> old(lastSeq) < lastSeq <= watermark
      ensures stop != OutOfTime ==> Over(env, watermark, start, marks, trips', log', sent, stop)
    {
      ghost var mid, marked := deliveries, RowMarks();
      stop, sent, trips' := NextRound(env, watermark, n, sentBefore, start, log[0], trips);
      log' := log + [deliveries];
      OneMoreEntry(env, trips, trips', log, mid, deliveries);
      MarkedFurther(env, trips', marks, marked, RowMarks(), deliveries);
    }

    /** The loop of `_drain_one`. */
    method DrainRounds(env: Environment, watermark: nat, deadline: int)
      returns (eventsSent: nat, ghost trips: seq<Trip>, stop: Stop, ghost log: seq<seq<Delivery>>)
      requires Valid() && active && TablesInOrder(env) && AllReceivable(env)
      modifies this
      ensures log != [] && log[0] == old(deliveries)
      ensures Over(env, watermark, old(lastSeq), old(RowMarks()), trips, log, eventsSent, stop)
      ensures InTime(env, deadline, |trips|) && (stop == OutOfTime ==> deadline <= env.monotonic(|trips|))
      ensures stop != OutOfTime ==> trips != []
    {
      ghost var start, marks := lastSeq, RowMarks();
      eventsSent, trips, stop, log := 0, [], OutOfTime, [deliveries];
      var n := 0;
      while env.monotonic(n) < deadline
        invariant n == |trips| && log != [] && log[0] == old(deliveries)
        invariant Underway(env, marks, trips, log) && Going(env, watermark, start, log[0], trips, eventsSent)
        invariant InTime(env, deadline, n)
        decreases Greatest(lastSeq, watermark) - lastSeq
      {
        OneMoreInTime(env, deadline, n);
        stop, eventsSent, trips, log := DrainFurther(env, watermark, n, eventsSent, start, marks, trips, log);
        if stop != OutOfTime {
          return;
        }
        n := n + 1;
      }
      stop := OutOfTime;
      UnderwayIsOver(env, watermark, start, marks, trips, log, eventsSent);
    }

    /** `_drain_one`: drain from the cursor to the watermark, until the deadline. */
    method DrainOne(env: Environment, watermark: nat, deadline: int)
      returns (eventsSent: nat, failed: bool, ghost trips: seq<Trip>, ghost stop: Stop)
      requires Valid() && active && TablesInOrder(env)
      requires AllReceivable(env)
      modifies this
      ensures Valid() && (!failed ==> active)
      ensures IsDrain(env, filter, watermark, old(lastSeq), lastSeq, trips)
      ensures Progress(env, filter, watermark, old(lastSeq), lastSeq, trips)
      ensures Audited(old(deliveries), deliveries, Batches(trips))
      ensures eventsSent == |HandledAs(Batches(trips), Accepted)|
      // Only the last batch can be refused, and that stops the drain.
      ensures forall r | 0 <= r < |trips| && IsRefused(trips[r]) :: r == |trips| - 1 && failed
      ensures failed == (stop == Stopped)
      ensures failed <==> trips != [] && Halts(env, |trips| - 1, trips[|trips| - 1], active)
      // What it leaves on the row: an audit row for each batch, and the marks of a disable.
      ensures deliveries == old(deliveries) + RowsOf(env, trips)
      ensures MarkedByDrain(env, trips, old(RowMarks()), RowMarks(), deliveries)
      // A drain that ends by itself has left nothing deliverable in the window.
      ensures stop == Drained ==> trips != [] && NothingLeft(env, filter, watermark, |trips| - 1, lastSeq)
      // A drain that is out of time would have gone on.
      ensures stop == OutOfTime ==> CallsForMore(env, filter, watermark, trips)
      // Every round began before the deadline, and a drain is out of time only past it.
      ensures (forall r | 0 <= r < |trips| :: env.monotonic(r) < deadline) && (stop == OutOfTime ==> deadline <= env.monotonic(|trips|))
      ensures env.monotonic(0) < deadline ==> trips != []
    {
      var outcome;
      ghost var log;
      eventsSent, trips, outcome, log := DrainRounds(env, watermark, deadline);
      LogIsRows(env, trips, log, deliveries);
      failed, stop := outcome == Stopped, outcome;
      DrainAccounts(env, filter, watermark, old(lastSeq), lastSeq, trips);
      SentAreAccepted(env, filter, watermark, old(lastSeq), lastSeq, trips);
      OnlyTheLastIsRefused(env, filter, watermark, old(lastSeq), lastSeq, trips);
    }
  }

  /** Appending an attempt to the record of an active subscription. */
  lemma ReplayOneMore(ds: seq<Delivery>, d: Delivery)
    requires WellClassified(d) && Activation(ds) && (ds == [] || VerdictOn(ds) == None)
    ensures Replay(ds + [d]) == After(Replay(ds), d)
    ensures VerdictOn(ds + [d]) == Verdict(After(Replay(ds), d), d)
    ensures Activation(ds + [d])
  {
    assert (ds + [d])[..|ds|] == ds;
  }
}
