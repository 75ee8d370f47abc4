/** The webhook delivery protocol for one subscription, as interleaved atomic steps: the writers
    of the change feed, any number of concurrent drains of the same subscription (a dispatcher
    that lost its singleton lock may still be draining beside its successor), and crashes between
    any two steps.  The main result is `NoEventIsLostIff`. */
module DeliveryProtocol {
  import opened ChangeFeed
  import opened Runs

  const MAX_EVENTS_PER_BATCH := 100

  type DrainId = nat

  /** `start` is the cursor the subscription was created with; the filter is fixed for a run. */
  datatype Config = Config(maxTxn: nat, lag: nat, filter: Filter, start: nat)

  /** Where one drain is between two of its transactions and POSTs.  `watermark` was snapshot at
      the start of the tick; `cursor` is the in-process copy of `last_seq`; `absent` are the rows
      the batch passes over. */
  datatype Drain =
    | Snapped(watermark: nat)
    | Draining(watermark: nat, cursor: nat)
    | Fetched(watermark: nat, cursor: nat, rows: seq<Event>, more: bool)
    | Ready(watermark: nat, cursor: nat, rows: seq<Event>, more: bool, events: seq<Event>, absent: set<Event>)
    | Answered(watermark: nat, cursor: nat, sent: seq<Event>, more: bool, absent: set<Event>)

  /** `accepted`: rows in a POST that was answered 2xx.  `skipped`: rows with a
      'payload_too_large' audit row.  `bypassed`: rows without a bill row when the batch around
      them was fetched. */
  datatype State = State(
    feed: Feed,
    lastSeq: nat,
    drains: map<DrainId, Drain>,
    accepted: set<Event>,
    skipped: set<Event>,
    bypassed: set<Event>)

  function Initial(c: Config): State {
    State(EMPTY_FEED, c.start, map[], {}, {}, {})
  }

  predicate Ascending(rows: seq<Event>) {
    forall i, j | 0 <= i < j < |rows| :: rows[i].seqNo < rows[j].seqNo
  }

  function Elements(rows: seq<Event>): (s: set<Event>)
    ensures forall e :: e in s <==> e in rows
  {
    set e | e in rows
  }

  predicate InWindow(c: Config, cursor: nat, upTo: nat, e: Event) {
    InScope(c.filter, e) && cursor < e.seqNo <= upTo
  }

  /** How far a fetched page is known to be complete. */
  function CompleteTo(rows: seq<Event>, more: bool, watermark: nat): nat {
    if more && rows != [] then rows[|rows| - 1].seqNo else watermark
  }

  /** `rows` is the first page, by `seq`, of the visible in-scope rows in the window, and `more`
      says that it is not the last. */
  predicate IsPage(c: Config, f: Feed, cursor: nat, watermark: nat, rows: seq<Event>, more: bool) {
    && Ascending(rows)
    && |rows| <= MAX_EVENTS_PER_BATCH
    && (more ==> |rows| == MAX_EVENTS_PER_BATCH)
    && (more <==> exists e :: e in f.visible && InWindow(c, cursor, watermark, e) && e !in rows)
    && (forall e | e in rows :: e in f.visible && InWindow(c, cursor, watermark, e))
    && (forall e | e in f.visible && InWindow(c, cursor, CompleteTo(rows, more, watermark), e) :: e in rows)
  }

  function Present(rows: seq<Event>, deleted: set<BillId>): (r: seq<Event>)
    ensures forall e :: e in r <==> e in rows && e.bill !in deleted
    ensures Ascending(rows) ==> Ascending(r)
  {
    if rows == [] then []
    else
      var rest := Present(rows[1..], deleted);
      if rows[0].bill in deleted then rest else [rows[0]] + rest
  }

  /** Steps of a drain.  `PostAccepted(d, k)` posts the first `k` events of the batch, which is
      what the halving loop leaves of it, and receives a 2xx; `GiveUp` stands for a failed POST,
      an expired deadline, a disable or a crash, at any point. */
  datatype Step =
    | Feeding(step: FeedStep)
    | Snapshot(d: DrainId, readAt: nat)
    | Load(d: DrainId)
    | FetchRows(d: DrainId, rows: seq<Event>, more: bool)
    | JoinBills(d: DrainId)
    | AdvanceEmpty(d: DrainId)
    | SkipOversized(d: DrainId)
    | PostAccepted(d: DrainId, k: nat)
    | RecordAccepted(d: DrainId)
    | GiveUp(d: DrainId)

  ghost predicate Enabled(c: Config, s: State, step: Step) {
    match step
    case Feeding(fs) => FeedEnabled(c.maxTxn, s.feed, fs)
    case Snapshot(d, readAt) => d !in s.drains && readAt <= s.feed.clock
    case Load(d) => d in s.drains && s.drains[d].Snapped?
    case FetchRows(d, rows, more) =>
      && d in s.drains && s.drains[d].Draining?
      && IsPage(c, s.feed, s.drains[d].cursor, s.drains[d].watermark, rows, more)
    case JoinBills(d) => d in s.drains && s.drains[d].Fetched?
    case AdvanceEmpty(d) => d in s.drains && s.drains[d].Ready? && s.drains[d].events == []
    case SkipOversized(d) => d in s.drains && s.drains[d].Ready? && s.drains[d].events != []
    case PostAccepted(d, k) => d in s.drains && s.drains[d].Ready? && 0 < k <= |s.drains[d].events|
    case RecordAccepted(d) => d in s.drains && s.drains[d].Answered? && s.drains[d].sent != []
    case GiveUp(d) => d in s.drains
  }

  /** `_advance_last_seq`: the cursor becomes the greater of its committed value and `to`, and the
      drain re-reads it before it fetches again. */
  function Advance(s: State, d: DrainId, to: nat, more: bool): State
    requires d in s.drains && (s.drains[d].Ready? || s.drains[d].Answered?)
  {
    var last := if s.lastSeq < to then to else s.lastSeq;
    var drain := s.drains[d];
    s.(lastSeq := last,
       drains := if more then s.drains[d := Draining(drain.watermark, last)] else s.drains - {d},
       bypassed := s.bypassed + set e | e in drain.absent && e.seqNo <= to)
  }

  ghost function Apply(c: Config, s: State, step: Step): State
    requires Enabled(c, s, step)
  {
    match step
    case Feeding(fs) => s.(feed := FeedApply(c.maxTxn, s.feed, fs))
    case Snapshot(d, readAt) => s.(drains := s.drains[d := Snapped(Watermark(c.lag, s.feed, readAt))])
    case Load(d) => s.(drains := s.drains[d := Draining(s.drains[d].watermark, s.lastSeq)])
    case FetchRows(d, rows, more) =>
      s.(drains := s.drains[d := Fetched(s.drains[d].watermark, s.drains[d].cursor, rows, more)])
    case JoinBills(d) =>
      var drain := s.drains[d];
      var events := Present(drain.rows, s.feed.deleted);
      var upTo := CompleteTo(drain.rows, drain.more, drain.watermark);
      var absent := set e | e in s.feed.committed && InWindow(c, drain.cursor, upTo, e) && e.bill in s.feed.deleted;
      s.(drains := s.drains[d := Ready(drain.watermark, drain.cursor, drain.rows, drain.more, events, absent)])
    case AdvanceEmpty(d) =>
      // No raw row at all: straight to the watermark.  Rows without bills: to the last of them.
      var drain := s.drains[d];
      if drain.rows == [] then Advance(s, d, drain.watermark, false)
      else Advance(s, d, drain.rows[|drain.rows| - 1].seqNo, drain.more)
    case SkipOversized(d) =>
      var drain := s.drains[d];
      Advance(s.(skipped := s.skipped + {drain.events[0]}), d, drain.events[0].seqNo,
              drain.more || 1 < |drain.events|)
    case PostAccepted(d, k) =>
      var drain := s.drains[d];
      s.(drains := s.drains[d := Answered(drain.watermark, drain.cursor, drain.events[..k],
                                          drain.more || k < |drain.events|, drain.absent)],
         accepted := s.accepted + Elements(drain.events[..k]))
    case RecordAccepted(d) =>
      var drain := s.drains[d];
      Advance(s, d, drain.sent[|drain.sent| - 1].seqNo, drain.more)
    case GiveUp(d) => s.(drains := s.drains - {d})
  }

  ghost function Next(c: Config): (State, Step, State) -> bool {
    (s: State, step: Step, s': State) => Enabled(c, s, step) && s' == Apply(c, s, step)
  }

  ghost predicate Reachable(c: Config, s: State) {
    Reaches(Next(c), Initial(c), s)
  }

  /** What the subscriber is promised: every in-scope row that ever committed between the starting
      cursor and the current one was accepted, audited as skipped, or had lost its bill. */
  ghost predicate NothingLost(c: Config, s: State) {
    forall e | e in s.feed.committed && InWindow(c, c.start, s.lastSeq, e) ::
      e in s.accepted || e in s.skipped || (e in s.bypassed && e.bill in s.feed.deleted)
  }

  // ----- the invariant -----

  ghost predicate DrainOk(c: Config, s: State, drain: Drain) {
    && Settled(s.feed, drain.watermark)
    && (!drain.Snapped? ==> c.start <= drain.cursor <= s.lastSeq)
    && (drain.Fetched? || drain.Ready? ==>
          && Ascending(drain.rows)
          && (forall e | e in drain.rows :: e in s.feed.committed && InWindow(c, drain.cursor, drain.watermark, e)))
    && (drain.Fetched? ==>
          forall e | e in s.feed.committed && InWindow(c, drain.cursor, CompleteTo(drain.rows, drain.more, drain.watermark), e) ::
            e in drain.rows || e.bill in s.feed.deleted)
    && (drain.Ready? ==>
          && Ascending(drain.events)
          && (forall e | e in drain.events :: e in drain.rows)
          && (forall e | e in drain.absent :: e.bill in s.feed.deleted && e in s.feed.committed)
          && (forall e | e in s.feed.committed && InWindow(c, drain.cursor, CompleteTo(drain.rows, drain.more, drain.watermark), e) ::
                e in drain.events || e in drain.absent))
    && (drain.Answered? ==>
          && (forall e | e in drain.sent :: e in s.accepted && e.seqNo <= drain.watermark)
          && (forall e | e in drain.absent :: e.bill in s.feed.deleted && e in s.feed.committed)
          && (drain.sent != [] ==>
                forall e | e in s.feed.committed && InWindow(c, drain.cursor, drain.sent[|drain.sent| - 1].seqNo, e) ::
                  e in s.accepted || e in drain.absent))
  }

  ghost predicate Inv(c: Config, s: State) {
    && FeedInv(c.maxTxn, s.feed)
    && c.start <= s.lastSeq
    && (s.lastSeq == c.start || Settled(s.feed, s.lastSeq))
    && NothingLost(c, s)
    && (forall e | e in s.accepted || e in s.skipped :: e in s.feed.committed && InScope(c.filter, e) && c.start < e.seqNo)
    && (forall e | e in s.bypassed :: e.bill in s.feed.deleted)
    && (forall d | d in s.drains :: DrainOk(c, s, s.drains[d]))
  }

  lemma FeedingKeepsInv(c: Config, s: State, fs: FeedStep)
    requires Inv(c, s) && FeedEnabled(c.maxTxn, s.feed, fs)
    ensures Inv(c, s.(feed := FeedApply(c.maxTxn, s.feed, fs)))
  {
    var s' := s.(feed := FeedApply(c.maxTxn, s.feed, fs));
    FeedStepKeepsInv(c.maxTxn, s.feed, fs);
    if s.lastSeq != c.start {
      SettledStaysSettled(c.maxTxn, s.feed, fs, s.lastSeq);
    }
    forall d | d in s.drains ensures DrainOk(c, s', s.drains[d]) {
      SettledStaysSettled(c.maxTxn, s.feed, fs, s.drains[d].watermark);
      NewRowsAreBeyond(c, s, fs, s.drains[d].watermark);
    }
  }

  /** A row that a step commits lies beyond every settled watermark. */
  lemma NewRowsAreBeyond(c: Config, s: State, fs: FeedStep, w: nat)
    requires Inv(c, s) && FeedEnabled(c.maxTxn, s.feed, fs) && Settled(s.feed, w)
    ensures forall e | e in FeedApply(c.maxTxn, s.feed, fs).committed && e !in s.feed.committed :: w < e.seqNo
  {
  }

  /** Moving the cursor to `to` loses nothing when the rows between the drain's own cursor and
      `to` are accounted for; it does not matter where other drains moved the cursor meanwhile. */
  lemma AdvanceKeepsInv(c: Config, s: State, d: DrainId, to: nat, more: bool)
    requires Inv(c, s) && d in s.drains && (s.drains[d].Ready? || s.drains[d].Answered?)
    requires to <= s.drains[d].watermark
    requires forall e | e in s.feed.committed && InWindow(c, s.drains[d].cursor, to, e) ::
               e in s.accepted || e in s.skipped || e in s.drains[d].absent
    ensures Inv(c, Advance(s, d, to, more))
  {
    var s' := Advance(s, d, to, more);
    forall e | e in s'.feed.committed && InWindow(c, c.start, s'.lastSeq, e)
      ensures e in s'.accepted || e in s'.skipped || e in s'.bypassed
    {
      if e.seqNo > s.lastSeq {
        assert InWindow(c, s.drains[d].cursor, to, e);
      } else {
        assert InWindow(c, c.start, s.lastSeq, e);
      }
    }
  }

  /** The prefix of an ascending batch up to a position holds every member up to its `seq`. */
  lemma PrefixHolds(events: seq<Event>, k: nat, e: Event)
    requires Ascending(events) && 0 < k <= |events|
    requires e in events && e.seqNo <= events[k - 1].seqNo
    ensures e in events[..k]
  {
    var i :| 0 <= i < |events| && events[i] == e;
    assert i <= k - 1;
    assert events[..k][i] == e;
  }

  lemma StepKeepsInv(c: Config, s: State, step: Step)
    requires 2 * c.maxTxn < c.lag
    requires Inv(c, s) && Enabled(c, s, step)
    ensures Inv(c, Apply(c, s, step))
    ensures s.lastSeq <= Apply(c, s, step).lastSeq
  {
    match step {
      case Feeding(fs) => FeedingKeepsInv(c, s, fs);
      case Snapshot(d, readAt) =>
        WatermarkIsSettled(c.maxTxn, c.lag, s.feed, readAt);
        MovingADrainKeepsInv(c, s, d, Snapped(Watermark(c.lag, s.feed, readAt)));
      case Load(d) => MovingADrainKeepsInv(c, s, d, Draining(s.drains[d].watermark, s.lastSeq));
      case FetchRows(d, rows, more) =>
        MovingADrainKeepsInv(c, s, d, Fetched(s.drains[d].watermark, s.drains[d].cursor, rows, more));
      case JoinBills(d) => JoinKeepsInv(c, s, d);
      case AdvanceEmpty(d) => EmptyKeepsInv(c, s, d);
      case SkipOversized(d) => SkipKeepsInv(c, s, d);
      case PostAccepted(d, k) => PostKeepsInv(c, s, d, k);
      case RecordAccepted(d) => RecordKeepsInv(c, s, d);
      case GiveUp(d) => GivingUpKeepsInv(c, s, d);
    }
  }

  lemma EmptyKeepsInv(c: Config, s: State, d: DrainId)
    requires Inv(c, s) && Enabled(c, s, AdvanceEmpty(d))
    ensures Inv(c, Apply(c, s, AdvanceEmpty(d)))
  {
    var drain := s.drains[d];
    assert DrainOk(c, s, drain);
    if drain.rows == [] {
      AdvanceKeepsInv(c, s, d, drain.watermark, false);
    } else {
      AdvanceKeepsInv(c, s, d, drain.rows[|drain.rows| - 1].seqNo, drain.more);
    }
  }

  lemma RecordKeepsInv(c: Config, s: State, d: DrainId)
    requires Inv(c, s) && Enabled(c, s, RecordAccepted(d))
    ensures Inv(c, Apply(c, s, RecordAccepted(d)))
  {
    var drain := s.drains[d];
    assert DrainOk(c, s, drain);
    AdvanceKeepsInv(c, s, d, drain.sent[|drain.sent| - 1].seqNo, drain.more);
  }

  lemma GivingUpKeepsInv(c: Config, s: State, d: DrainId)
    requires Inv(c, s)
    ensures Inv(c, s.(drains := s.drains - {d}))
  {
    var s' := s.(drains := s.drains - {d});
    forall d' | d' in s'.drains ensures DrainOk(c, s', s'.drains[d']) {
      assert DrainOk(c, s, s.drains[d']);
    }
  }

  lemma MovingADrainKeepsInv(c: Config, s: State, d: DrainId, drain: Drain)
    requires Inv(c, s) && DrainOk(c, s, drain)
    ensures Inv(c, s.(drains := s.drains[d := drain]))
  {
    var s' := s.(drains := s.drains[d := drain]);
    forall d' | d' in s'.drains ensures DrainOk(c, s', s'.drains[d']) {
      if d' != d { assert DrainOk(c, s, s.drains[d']); }
    }
  }

  /** Rows of the window may be noted as accepted or as skipped at any time. */
  lemma NotingKeepsInv(c: Config, s: State, accepted: set<Event>, skipped: set<Event>)
    requires Inv(c, s)
    requires forall e | e in accepted + skipped :: e in s.feed.committed && InScope(c.filter, e) && c.start < e.seqNo
    ensures Inv(c, s.(accepted := s.accepted + accepted, skipped := s.skipped + skipped))
  {
    var s' := s.(accepted := s.accepted + accepted, skipped := s.skipped + skipped);
    forall d | d in s'.drains ensures DrainOk(c, s', s'.drains[d]) {
      assert DrainOk(c, s, s.drains[d]);
    }
  }

  lemma BatchIsDeliverable(c: Config, s: State, d: DrainId)
    requires Inv(c, s) && d in s.drains && s.drains[d].Ready?
    ensures forall e | e in s.drains[d].events :: e in s.feed.committed && InScope(c.filter, e) && c.start < e.seqNo
  {
    assert DrainOk(c, s, s.drains[d]);
  }

  lemma SkipKeepsInv(c: Config, s: State, d: DrainId)
    requires Inv(c, s) && Enabled(c, s, SkipOversized(d))
    ensures Inv(c, Apply(c, s, SkipOversized(d)))
  {
    var drain := s.drains[d];
    BatchIsDeliverable(c, s, d);
    var first := drain.events[0];
    var s1 := s.(accepted := s.accepted + {}, skipped := s.skipped + {first});
    assert first in drain.events;
    NotingKeepsInv(c, s, {}, {first});
    PassingTheFirstKeepsInv(c, s1, d);
    assert s1 == s.(skipped := s.skipped + {first});
  }

  lemma PassingTheFirstKeepsInv(c: Config, s: State, d: DrainId)
    requires Inv(c, s) && d in s.drains && s.drains[d].Ready? && s.drains[d].events != []
    requires s.drains[d].events[0] in s.skipped
    ensures var drain := s.drains[d];
            Inv(c, Advance(s, d, drain.events[0].seqNo, drain.more || 1 < |drain.events|))
  {
    var drain := s.drains[d];
    assert DrainOk(c, s, drain);
    var first := drain.events[0];
    assert first in drain.events;
    forall e | e in s.feed.committed && InWindow(c, drain.cursor, first.seqNo, e) ensures e in s.skipped || e in drain.absent {
      if e in drain.events {
        PrefixHolds(drain.events, 1, e);
      }
    }
    AdvanceKeepsInv(c, s, d, first.seqNo, drain.more || 1 < |drain.events|);
  }

  lemma JoinKeepsInv(c: Config, s: State, d: DrainId)
    requires Inv(c, s) && Enabled(c, s, JoinBills(d))
    ensures Inv(c, Apply(c, s, JoinBills(d)))
  {
    var drain := s.drains[d];
    var s' := Apply(c, s, JoinBills(d));
    assert DrainOk(c, s, drain);
    assert DrainOk(c, s', s'.drains[d]);
  }

  /** What the halving loop leaves of a batch is complete up to its own last event. */
  lemma PrefixIsAnswered(c: Config, s: State, drain: Drain, k: nat, more: bool)
    requires DrainOk(c, s, drain) && drain.Ready? && 0 < k <= |drain.events|
    requires forall e | e in drain.events[..k] :: e in s.accepted
    ensures DrainOk(c, s, Answered(drain.watermark, drain.cursor, drain.events[..k], more, drain.absent))
  {
    var last := drain.events[k - 1].seqNo;
    assert drain.events[..k][k - 1] == drain.events[k - 1] && drain.events[k - 1] in drain.rows;
    forall e | e in s.feed.committed && InWindow(c, drain.cursor, last, e) ensures e in s.accepted || e in drain.absent {
      if e in drain.events {
        PrefixHolds(drain.events, k, e);
      }
    }
  }

  lemma PostKeepsInv(c: Config, s: State, d: DrainId, k: nat)
    requires Inv(c, s) && Enabled(c, s, PostAccepted(d, k))
    ensures Inv(c, Apply(c, s, PostAccepted(d, k)))
  {
    var drain := s.drains[d];
    var sent := drain.events[..k];
    var s1 := s.(accepted := s.accepted + Elements(sent), skipped := s.skipped + {});
    BatchIsDeliverable(c, s, d);
    assert forall e | e in Elements(sent) :: e in drain.events;
    NotingKeepsInv(c, s, Elements(sent), {});
    AnsweringKeepsInv(c, s1, d, k);
    assert s1 == s.(accepted := s.accepted + Elements(sent));
  }

  lemma AnsweringKeepsInv(c: Config, s: State, d: DrainId, k: nat)
    requires Inv(c, s) && d in s.drains && s.drains[d].Ready? && 0 < k <= |s.drains[d].events|
    requires forall e | e in s.drains[d].events[..k] :: e in s.accepted
    ensures var drain := s.drains[d];
            var more := drain.more || k < |drain.events|;
            Inv(c, s.(drains := s.drains[d := Answered(drain.watermark, drain.cursor, drain.events[..k], more, drain.absent)]))
  {
    var drain := s.drains[d];
    var more := drain.more || k < |drain.events|;
    PrefixIsAnswered(c, s, drain, k, more);
    MovingADrainKeepsInv(c, s, d, Answered(drain.watermark, drain.cursor, drain.events[..k], more, drain.absent));
  }

  lemma RunKeepsInv(c: Config, s: State, s': State)
    requires 2 * c.maxTxn < c.lag
    requires Inv(c, s) && Reaches(Next(c), s, s')
    ensures Inv(c, s') && s.lastSeq <= s'.lastSeq
  {
    var keeps := (x: State) => Inv(c, x) && s.lastSeq <= x.lastSeq;
    forall x, step, y | keeps(x) && Next(c)(x, step, y) ensures keeps(y) {
      StepKeepsInv(c, x, step);
    }
    ReachableKeeps(Next(c), keeps, s, s');
  }

  // ----- results -----

  /** Safety over every run: whatever the writers, the other drains and the crashes do. */
  lemma NoEventIsLost(c: Config, s: State)
    requires 2 * c.maxTxn < c.lag && Reachable(c, s)
    ensures NothingLost(c, s)
    ensures forall e | e in s.feed.committed && e.bill in c.filter.bills && (c.filter.kinds == {} || e.kind in c.filter.kinds)
                       && c.start < e.seqNo <= s.lastSeq ::
              e in s.accepted || e in s.skipped || e in s.bypassed
    ensures forall e | e in s.bypassed :: e.bill in s.feed.deleted
    ensures forall e | e in s.accepted || e in s.skipped ::
              && e in s.feed.committed && c.start < e.seqNo
              && e.bill in c.filter.bills && (c.filter.kinds == {} || e.kind in c.filter.kinds)
    ensures s.lastSeq == c.start || Settled(s.feed, s.lastSeq)
  {
    RunKeepsInv(c, Initial(c), s);
  }

  lemma StepReaches(c: Config, s: State, step: Step) returns (s': State)
    requires Reachable(c, s) && Enabled(c, s, step)
    ensures Reachable(c, s') && s' == Apply(c, s, step)
  {
    s' := Apply(c, s, step);
    StepOn(Next(c), Initial(c), s, step, s');
  }

  function Early(wait: nat): Event { Event(1, 0, "status", wait) }
  const LATE := Event(2, 0, "status", 0)

  /** Transaction 0 takes its `seq` late in its life, just after transaction 1 took a smaller one. */
  lemma BothInsertsAreReachable(c: Config, wait: nat)
    requires c.start == 0 && wait <= c.maxTxn
    ensures Reachable(c, State(Feed(wait, 3, map[0 := Txn(0, {LATE}), 1 := Txn(wait, {Early(wait)})], {}, {}, {}),
                               0, map[], {}, {}, {}))
  {
    TwoTransactionsAreReachable(c, wait);
    var f0 := Feed(wait, 1, map[0 := Txn(0, {}), 1 := Txn(wait, {})], {}, {}, {});
    var f1 := FeedReaches(c, f0, Insert(1, 0, "status"));
    assert {} + {Early(wait)} == {Early(wait)};
    assert f1 == Feed(wait, 2, map[0 := Txn(0, {}), 1 := Txn(wait, {Early(wait)})], {}, {}, {});
    var f2 := FeedReaches(c, f1, Insert(0, 0, "status"));
    assert {} + {LATE} == {LATE};
    assert f2 == Feed(wait, 3, map[0 := Txn(0, {LATE}), 1 := Txn(wait, {Early(wait)})], {}, {}, {});
  }

  /** When the lag behind the start of transaction 0 has passed, transaction 1 is still open. */
  lemma OvertakenTransactionIsReachable(c: Config, wait: nat)
    requires c.lag <= 2 * c.maxTxn && c.start == 0
    requires wait == if c.lag < c.maxTxn then 0 else c.lag - c.maxTxn
    ensures Reachable(c, State(Feed(c.lag, 3, map[1 := Txn(wait, {Early(wait)})], {LATE}, {LATE}, {}),
                               0, map[], {}, {}, {}))
  {
    BothInsertsAreReachable(c, wait);
    var f0 := Feed(wait, 3, map[0 := Txn(0, {LATE}), 1 := Txn(wait, {Early(wait)})], {}, {}, {});
    var f1 := FeedReaches(c, f0, Commit(0));
    assert f1 == Feed(wait, 3, map[1 := Txn(wait, {Early(wait)})], {LATE}, {LATE}, {});
    var f2 := FeedReaches(c, f1, Tick(c.lag - wait));
  }

  lemma TwoTransactionsAreReachable(c: Config, wait: nat)
    requires c.start == 0 && wait <= c.maxTxn
    ensures Reachable(c, State(Feed(wait, 1, map[0 := Txn(0, {}), 1 := Txn(wait, {})], {}, {}, {}),
                               0, map[], {}, {}, {}))
  {
    StandsStill(Next(c), Initial(c));
    var f := FeedReaches(c, EMPTY_FEED, Begin(0));
    f := FeedReaches(c, f, Tick(wait));
    f := FeedReaches(c, f, Begin(1));
    assert f == Feed(wait, 1, map[0 := Txn(0, {}), 1 := Txn(wait, {})], {}, {}, {});
  }

  lemma FeedReaches(c: Config, f: Feed, fs: FeedStep) returns (f': Feed)
    requires c.start == 0 && Reachable(c, State(f, 0, map[], {}, {}, {})) && FeedEnabled(c.maxTxn, f, fs)
    ensures f' == FeedApply(c.maxTxn, f, fs) && Reachable(c, State(f', 0, map[], {}, {}, {}))
  {
    var s := StepReaches(c, State(f, 0, map[], {}, {}, {}), Feeding(fs));
    f' := s.feed;
  }

  /** One undisturbed drain of a table that holds a single row. */
  lemma SingleRowIsFetched(c: Config, f: Feed, e: Event)
    requires f.visible == f.committed == {e} && f.deleted == {} && InScope(c.filter, e) && 0 < e.seqNo
    requires Reachable(c, State(f, 0, map[], {}, {}, {}))
    requires e.changedAt + c.lag <= f.clock
    ensures Reachable(c, State(f, 0, map[0 := Fetched(e.seqNo, 0, [e], false)], {}, {}, {}))
  {
    var s := State(f, 0, map[], {}, {}, {});
    assert (set x | x in f.visible && x.changedAt + c.lag <= f.clock) == {e};
    s := StepReaches(c, s, Snapshot(0, f.clock));
    assert s == State(f, 0, map[0 := Snapped(e.seqNo)], {}, {}, {});
    s := StepReaches(c, s, Load(0));
    assert s == State(f, 0, map[0 := Draining(e.seqNo, 0)], {}, {}, {});
    s := StepReaches(c, s, FetchRows(0, [e], false));
    assert s == State(f, 0, map[0 := Fetched(e.seqNo, 0, [e], false)], {}, {}, {});
  }

  lemma SingleRowIsDelivered(c: Config, f: Feed, e: Event)
    requires f.visible == f.committed == {e} && f.deleted == {} && 0 < e.seqNo
    requires Reachable(c, State(f, 0, map[0 := Fetched(e.seqNo, 0, [e], false)], {}, {}, {}))
    ensures Reachable(c, State(f, e.seqNo, map[], {e}, {}, {}))
  {
    var s := State(f, 0, map[0 := Fetched(e.seqNo, 0, [e], false)], {}, {}, {});
    assert [e][1..] == [] && Present([e], {}) == [e];
    s := StepReaches(c, s, JoinBills(0));
    assert s.drains[0].absent == {};
    assert s == State(f, 0, map[0 := Ready(e.seqNo, 0, [e], false, [e], {})], {}, {}, {});
    assert [e][..1] == [e];
    s := StepReaches(c, s, PostAccepted(0, 1));
    assert s == State(f, 0, map[0 := Answered(e.seqNo, 0, [e], false, {})], {e}, {}, {});
    s := StepReaches(c, s, RecordAccepted(0));
    assert s == State(f, e.seqNo, map[], {e}, {}, {});
  }

  /** A run that loses an event when a transaction may last half the lag or longer: transaction 1
      commits after the cursor moved past its row. */
  lemma LongTransactionsLoseAnEvent(maxTxn: nat, lag: nat) returns (c: Config, s: State)
    requires lag <= 2 * maxTxn
    ensures c.maxTxn == maxTxn && c.lag == lag && Reachable(c, s) && !NothingLost(c, s)
  {
    c := Config(maxTxn, lag, Filter({0}, {}), 0);
    var wait := if lag < maxTxn then 0 else lag - maxTxn;
    OvertakenTransactionIsReachable(c, wait);
    var f := Feed(lag, 3, map[1 := Txn(wait, {Early(wait)})], {LATE}, {LATE}, {});
    SingleRowIsFetched(c, f, LATE);
    SingleRowIsDelivered(c, f, LATE);
    s := StepReaches(c, State(f, 2, map[], {LATE}, {}, {}), Feeding(Commit(1)));
    assert Early(wait) in s.feed.committed && InWindow(c, c.start, s.lastSeq, Early(wait));
  }

  /** The promise holds over every run exactly when the lag exceeds twice the longest writing
      transaction.  (The requirement written beside the lag, transactions shorter than the lag
      itself, is not enough.) */
  lemma NoEventIsLostIff(maxTxn: nat, lag: nat)
    ensures (forall c: Config, s | c.maxTxn == maxTxn && c.lag == lag && Reachable(c, s) :: NothingLost(c, s))
            <==> 2 * maxTxn < lag
  {
    if 2 * maxTxn < lag {
      forall c: Config, s | c.maxTxn == maxTxn && c.lag == lag && Reachable(c, s) ensures NothingLost(c, s) {
        NoEventIsLost(c, s);
      }
    } else {
      var c, s := LongTransactionsLoseAnEvent(maxTxn, lag);
    }
  }
}
