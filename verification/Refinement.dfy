/** The code of a drain takes only steps of the protocol: with writers acting between its rounds and
    inside them, a drain of `Dispatcher.Subscription` is a run of `DeliveryProtocol` with the same
    cursor and the same events accepted and skipped. */
module Refinement {
  import opened Basics
  import opened Runs
  import opened ChangeFeed
  import opened DeliveryProtocol
  import opened Dispatcher

  ghost predicate Leads(c: Config, s: State, s': State) { Reaches(DeliveryProtocol.Next(c), s, s') }

  lemma OneStepOn(c: Config, s: State, mid: State, step: Step)
    requires Leads(c, s, mid) && Enabled(c, mid, step)
    ensures Leads(c, s, Apply(c, mid, step))
  {
    StepOn(DeliveryProtocol.Next(c), s, mid, step, Apply(c, mid, step));
  }

  // ----- writers -----

  ghost function FeedNext(maxTxn: nat): (Feed, FeedStep, Feed) -> bool {
    (f: Feed, step: FeedStep, f': Feed) => FeedEnabled(maxTxn, f, step) && f' == FeedApply(maxTxn, f, step)
  }

  /** Writers, deletes and the clock lead from one state of the feed to another. */
  ghost predicate WritersAct(c: Config, f: Feed, f': Feed) { Reaches(FeedNext(c.maxTxn), f, f') }

  lemma {:induction false} FeedRunIsARun(c: Config, s: State, steps: seq<FeedStep>, f': Feed)
    requires Run(FeedNext(c.maxTxn), s.feed, steps, f')
    ensures Leads(c, s, s.(feed := f'))
    decreases |steps|
  {
    StandsStill(DeliveryProtocol.Next(c), s);
    if steps == [] {
      assert s.(feed := f') == s;
    } else {
      var f :| FeedNext(c.maxTxn)(s.feed, steps[0], f) && Run(FeedNext(c.maxTxn), f, steps[1..], f');
      OneStepOn(c, s, s, Feeding(steps[0]));
      FeedRunIsARun(c, s.(feed := f), steps[1..], f');
      ReachesFurther(DeliveryProtocol.Next(c), s, s.(feed := f), s.(feed := f'));
    }
  }

  lemma WritersLead(c: Config, s: State, mid: State, f': Feed)
    requires Leads(c, s, mid) && WritersAct(c, mid.feed, f')
    ensures Leads(c, s, mid.(feed := f'))
  {
    var steps :| Run(FeedNext(c.maxTxn), mid.feed, steps, f');
    FeedRunIsARun(c, mid, steps, f');
    ReachesFurther(DeliveryProtocol.Next(c), s, mid, mid.(feed := f'));
  }

  /** The feed at the four moments of a round: when its rows are read, when their bills are read,
      when the POST is made, and when the outcome is recorded. */
  datatype Moments = Moments(read: Feed, join: Feed, post: Feed, record: Feed)

  /** What the code sees of the feed: the visible table at the first query, the bills that exist at
      the second.  Writers may act before each of the four moments. */
  ghost predicate Sees(c: Config, f: Feed, env: Environment, n: nat, m: Moments) {
    && WritersAct(c, f, m.read) && WritersAct(c, m.read, m.join)
    && WritersAct(c, m.join, m.post) && WritersAct(c, m.post, m.record)
    && Ascending(env.table(n)) && Elements(env.table(n)) == m.read.visible
    && env.missingBills(n) == m.join.deleted
  }

  // ----- one round -----

  /** The rows that the batch passes over, as the protocol has them. */
  ghost function AbsentRows(c: Config, s: State, rows: seq<Event>, more: bool, watermark: nat, join: Feed): set<Event> {
    set e | e in join.committed && InWindow(c, s.lastSeq, CompleteTo(rows, more, watermark), e) && e.bill in join.deleted
  }

  ghost function ReadyState(
    c: Config, s: State, d: DrainId, rows: seq<Event>, more: bool, events: seq<Event>, watermark: nat, join: Feed): State
  {
    s.(feed := join,
       drains := s.drains[d := Ready(watermark, s.lastSeq, rows, more, events, AbsentRows(c, s, rows, more, watermark, join))])
  }

  lemma ReadLeads(c: Config, s: State, d: DrainId, env: Environment, watermark: nat, n: nat, m: Moments)
    requires d in s.drains && s.drains[d] == Draining(watermark, s.lastSeq) && Sees(c, s.feed, env, n, m)
    ensures var (rows, more) := FetchPage(c.filter, env.table(n), s.lastSeq, watermark);
            Leads(c, s, s.(feed := m.read, drains := s.drains[d := Fetched(watermark, s.lastSeq, rows, more)]))
  {
    var (rows, more) := FetchPage(c.filter, env.table(n), s.lastSeq, watermark);
    FetchPageIsPage(c, m.read, env.table(n), s.lastSeq, watermark);
    StandsStill(DeliveryProtocol.Next(c), s);
    WritersLead(c, s, s, m.read);
    OneStepOn(c, s, s.(feed := m.read), FetchRows(d, rows, more));
  }

  lemma JoinLeads(c: Config, s: State, d: DrainId, rows: seq<Event>, more: bool, watermark: nat, read: Feed, join: Feed)
    requires Leads(c, s, s.(feed := read, drains := s.drains[d := Fetched(watermark, s.lastSeq, rows, more)]))
    requires WritersAct(c, read, join)
    ensures Leads(c, s, ReadyState(c, s, d, rows, more, Present(rows, join.deleted), watermark, join))
  {
    var s1 := s.(feed := read, drains := s.drains[d := Fetched(watermark, s.lastSeq, rows, more)]);
    WritersLead(c, s, s1, join);
    var s2 := s1.(feed := join);
    OneStepOn(c, s, s2, JoinBills(d));
    var ready := ReadyState(c, s, d, rows, more, Present(rows, join.deleted), watermark, join);
    assert Apply(c, s2, JoinBills(d)).drains == ready.drains;
  }

  /** What a round leaves behind: the cursor it wrote, the events it handled, and the drain at the
      new cursor if it goes on. */
  ghost predicate Ends(s: State, s': State, d: DrainId, watermark: nat, feed: Feed, t: Trip, goesOn: bool) {
    && s'.feed == feed && s'.lastSeq == t.next
    && s'.accepted == s.accepted + HandledAs(t.added, Accepted)
    && s'.skipped == s.skipped + HandledAs(t.added, Oversized)
    && s'.drains == if goesOn then s.drains[d := Draining(watermark, t.next)] else s.drains - {d}
  }

  lemma UnknownScopeRound(c: Config, s: State, d: DrainId, watermark: nat, record: Feed) returns (s': State)
    requires d in s.drains && WritersAct(c, s.feed, record)
    ensures Leads(c, s, s') && Ends(s, s', d, watermark, record, Trip(s.lastSeq, s.lastSeq, []), false)
  {
    StandsStill(DeliveryProtocol.Next(c), s);
    WritersLead(c, s, s, record);
    OneStepOn(c, s, s.(feed := record), GiveUp(d));
    s' := Apply(c, s.(feed := record), GiveUp(d));
    HandledInOne(Batch([], false, Refused), Accepted);
    HandledInOne(Batch([], false, Refused), Oversized);
  }

  lemma EmptyRound(c: Config, s: State, d: DrainId, watermark: nat, rows: seq<Event>, more: bool, join: Feed, record: Feed)
    returns (s': State)
    requires d in s.drains && WritersAct(c, join, record) && (more ==> rows != [])
    requires Leads(c, s, ReadyState(c, s, d, rows, more, [], watermark, join))
    ensures Leads(c, s, s')
    ensures var to := if rows == [] then watermark else rows[|rows| - 1].seqNo;
            Ends(s, s', d, watermark, record, Trip(s.lastSeq, Greatest(s.lastSeq, to), []), more)
  {
    var ready := ReadyState(c, s, d, rows, more, [], watermark, join);
    WritersLead(c, s, ready, record);
    OneStepOn(c, s, ready.(feed := record), AdvanceEmpty(d));
    s' := Apply(c, ready.(feed := record), AdvanceEmpty(d));
    assert ready.drains - {d} == s.drains - {d};
    HandledInOne(Batch([], false, Refused), Accepted);
    HandledInOne(Batch([], false, Refused), Oversized);
  }

  lemma SkippingRound(c: Config, s: State, d: DrainId, watermark: nat, rows: seq<Event>, more: bool, events: seq<Event>,
                      join: Feed, record: Feed, b: Batch)
    returns (s': State)
    requires d in s.drains && WritersAct(c, join, record) && CutFrom(events, more, b) && b.fate == Oversized && |b.events| == 1
    requires Leads(c, s, ReadyState(c, s, d, rows, more, events, watermark, join))
    ensures Leads(c, s, s')
    ensures Ends(s, s', d, watermark, record, Trip(s.lastSeq, AfterBatch(s.lastSeq, b), [b]), b.more)
  {
    var ready := ReadyState(c, s, d, rows, more, events, watermark, join);
    WritersLead(c, s, ready, record);
    OneStepOn(c, s, ready.(feed := record), SkipOversized(d));
    s' := Apply(c, ready.(feed := record), SkipOversized(d));
    assert ready.drains - {d} == s.drains - {d};
    HandledInOne(b, Accepted);
    HandledInOne(b, Oversized);
    assert b.events == [events[0]];
  }

  lemma RefusedRound(c: Config, s: State, d: DrainId, watermark: nat, rows: seq<Event>, more: bool, events: seq<Event>,
                     join: Feed, record: Feed, b: Batch)
    returns (s': State)
    requires d in s.drains && WritersAct(c, join, record) && CutFrom(events, more, b) && b.fate == Refused
    requires Leads(c, s, ReadyState(c, s, d, rows, more, events, watermark, join))
    ensures Leads(c, s, s') && Ends(s, s', d, watermark, record, Trip(s.lastSeq, s.lastSeq, [b]), false)
  {
    var ready := ReadyState(c, s, d, rows, more, events, watermark, join);
    WritersLead(c, s, ready, record);
    OneStepOn(c, s, ready.(feed := record), GiveUp(d));
    s' := Apply(c, ready.(feed := record), GiveUp(d));
    assert ready.drains - {d} == s.drains - {d};
    HandledInOne(b, Accepted);
    HandledInOne(b, Oversized);
  }

  /** After a 2xx: the events are accepted, the cursor is still to be written. */
  ghost function AnsweredState(
    c: Config, s: State, d: DrainId, rows: seq<Event>, more: bool, watermark: nat, join: Feed, post: Feed, b: Batch): State
  {
    s.(feed := post,
       drains := s.drains[d := Answered(watermark, s.lastSeq, b.events, b.more, AbsentRows(c, s, rows, more, watermark, join))],
       accepted := s.accepted + Elements(b.events))
  }

  lemma PostLeads(c: Config, s: State, d: DrainId, watermark: nat, rows: seq<Event>, more: bool, events: seq<Event>,
                  join: Feed, post: Feed, b: Batch)
    requires d in s.drains && WritersAct(c, join, post) && CutFrom(events, more, b)
    requires Leads(c, s, ReadyState(c, s, d, rows, more, events, watermark, join))
    ensures Leads(c, s, AnsweredState(c, s, d, rows, more, watermark, join, post, b))
  {
    var ready := ReadyState(c, s, d, rows, more, events, watermark, join);
    WritersLead(c, s, ready, post);
    var s1 := ready.(feed := post);
    OneStepOn(c, s, s1, PostAccepted(d, |b.events|));
    assert Apply(c, s1, PostAccepted(d, |b.events|)).drains == AnsweredState(c, s, d, rows, more, watermark, join, post, b).drains;
  }

  lemma AcceptedRound(c: Config, s: State, d: DrainId, watermark: nat, rows: seq<Event>, more: bool,
                      join: Feed, post: Feed, record: Feed, b: Batch)
    returns (s': State)
    requires d in s.drains && WritersAct(c, post, record) && b.events != [] && b.fate == Accepted
    requires Leads(c, s, AnsweredState(c, s, d, rows, more, watermark, join, post, b))
    ensures Leads(c, s, s')
    ensures Ends(s, s', d, watermark, record, Trip(s.lastSeq, AfterBatch(s.lastSeq, b), [b]), b.more)
  {
    var answered := AnsweredState(c, s, d, rows, more, watermark, join, post, b);
    WritersLead(c, s, answered, record);
    OneStepOn(c, s, answered.(feed := record), RecordAccepted(d));
    s' := Apply(c, answered.(feed := record), RecordAccepted(d));
    assert answered.drains - {d} == s.drains - {d};
    HandledInOne(b, Accepted);
    HandledInOne(b, Oversized);
  }

  lemma TwoActs(c: Config, f: Feed, mid: Feed, f': Feed)
    requires WritersAct(c, f, mid) && WritersAct(c, mid, f')
    ensures WritersAct(c, f, f')
  {
    ReachesFurther(FeedNext(c.maxTxn), f, mid, f');
  }

  lemma BatchIsARun(c: Config, s: State, d: DrainId, watermark: nat, rows: seq<Event>, more: bool, events: seq<Event>,
                    join: Feed, post: Feed, record: Feed, b: Batch)
    returns (s': State)
    requires d in s.drains && WritersAct(c, join, post) && WritersAct(c, post, record)
    requires CutFrom(events, more, b) && (b.fate == Oversized ==> |b.events| == 1)
    requires Leads(c, s, ReadyState(c, s, d, rows, more, events, watermark, join))
    ensures Leads(c, s, s')
    ensures Ends(s, s', d, watermark, record, Trip(s.lastSeq, AfterBatch(s.lastSeq, b), [b]), b.fate != Refused && b.more)
  {
    TwoActs(c, join, post, record);
    match b.fate
    case Refused => s' := RefusedRound(c, s, d, watermark, rows, more, events, join, record, b);
    case Oversized => s' := SkippingRound(c, s, d, watermark, rows, more, events, join, record, b);
    case Accepted =>
      PostLeads(c, s, d, watermark, rows, more, events, join, post, b);
      s' := AcceptedRound(c, s, d, watermark, rows, more, join, post, record, b);
  }

  /** Refinement of a round: whatever the code does to the cursor and with a batch, some run of the
      protocol does, whatever the writers do before, between and after its two queries. */
  lemma RoundIsARun(c: Config, s: State, d: DrainId, env: Environment, watermark: nat, n: nat, m: Moments, t: Trip)
    returns (s': State)
    requires d in s.drains && s.drains[d] == Draining(watermark, s.lastSeq) && Sees(c, s.feed, env, n, m)
    requires t.cursor == s.lastSeq && RoundResult(env, c.filter, watermark, n, t)
    ensures Leads(c, s, s')
    ensures Ends(s, s', d, watermark, m.record, t, GoesOn(env, c.filter, watermark, n, t))
  {
    TwoActs(c, m.join, m.post, m.record);
    if !env.scopeKnown(n) {
      TwoActs(c, s.feed, m.read, m.join);
      TwoActs(c, s.feed, m.join, m.record);
      s' := UnknownScopeRound(c, s, d, watermark, m.record);
      assert t == Trip(s.lastSeq, s.lastSeq, []);
    } else {
      var (rows, more) := FetchPage(c.filter, env.table(n), s.lastSeq, watermark);
      assert more ==> rows != [];
      ReadLeads(c, s, d, env, watermark, n, m);
      JoinLeads(c, s, d, rows, more, watermark, m.read, m.join);
      s' := FetchedIsARun(c, s, d, watermark, rows, more, Present(rows, env.missingBills(n)), m, t);
    }
  }

  lemma FetchedIsARun(c: Config, s: State, d: DrainId, watermark: nat, rows: seq<Event>, more: bool, events: seq<Event>,
                      m: Moments, t: Trip)
    returns (s': State)
    requires d in s.drains && WritersAct(c, m.join, m.post) && WritersAct(c, m.post, m.record) && (more ==> rows != [])
    requires Leads(c, s, ReadyState(c, s, d, rows, more, events, watermark, m.join)) && t.cursor == s.lastSeq
    requires if events == [] then
               t.added == [] && t.next == Greatest(t.cursor, if rows == [] then watermark else rows[|rows| - 1].seqNo)
             else
               && |t.added| == 1 && CutFrom(events, more, t.added[0])
               && (t.added[0].fate == Oversized ==> |t.added[0].events| == 1)
               && t.next == AfterBatch(t.cursor, t.added[0])
    ensures Leads(c, s, s')
    ensures Ends(s, s', d, watermark, m.record, t,
                 if t.added == [] then more else t.added[0].fate != Refused && t.added[0].more)
  {
    if events == [] {
      TwoActs(c, m.join, m.post, m.record);
      s' := EmptyRound(c, s, d, watermark, rows, more, m.join, m.record);
      assert t == Trip(s.lastSeq, t.next, []);
    } else {
      s' := BatchIsARun(c, s, d, watermark, rows, more, events, m.join, m.post, m.record, t.added[0]);
      assert t == Trip(s.lastSeq, t.next, [t.added[0]]);
    }
  }

  /** The case the join filter is for: a bill is deleted after its row was read and before it was
      looked up, so the page has a row and the batch has none. */
  lemma FilteredBatchHappens(c: Config, f: Feed, env: Environment, cursor: nat, watermark: nat, n: nat, e: Event) returns (m: Moments)
    requires f.visible == {e} && f.open == map[] && InWindow(c, cursor, watermark, e)
    requires env.table(n) == [e] && env.missingBills(n) == f.deleted + {e.bill}
    ensures Sees(c, f, env, n, m)
    ensures FetchPage(c.filter, env.table(n), cursor, watermark) == ([e], false) && Present([e], env.missingBills(n)) == []
  {
    var join := FeedApply(c.maxTxn, f, DeleteBill(e.bill));
    m := Moments(f, join, join, join);
    StandsStill(FeedNext(c.maxTxn), f);
    StandsStill(FeedNext(c.maxTxn), join);
    StepOn(FeedNext(c.maxTxn), f, f, DeleteBill(e.bill), join);
    assert env.table(n)[1..] == [] && Matching(c.filter, [], cursor, watermark) == [];
    assert Matching(c.filter, [e], cursor, watermark) == [e];
    assert Present([e], env.missingBills(n)) == Present([e][1..], env.missingBills(n));
  }

  // ----- a whole drain -----

  ghost function FeedAfter(f: Feed, moments: seq<Moments>): Feed {
    if moments == [] then f else moments[|moments| - 1].record
  }

  /** What the rounds of a drain see, one after the other. */
  ghost predicate SeesAll(c: Config, f: Feed, env: Environment, moments: seq<Moments>)
    decreases |moments|
  {
    moments != [] ==>
      var n := |moments| - 1;
      SeesAll(c, f, env, moments[..n]) && Sees(c, FeedAfter(f, moments[..n]), env, n, moments[n])
  }

  /** What a drain leaves behind. */
  ghost predicate DrainEnds(s: State, s': State, d: DrainId, watermark: nat, feed: Feed, cursor: nat, trips: seq<Trip>, goesOn: bool) {
    && s'.feed == feed && s'.lastSeq == cursor
    && s'.accepted == s.accepted + HandledAs(Batches(trips), Accepted)
    && s'.skipped == s.skipped + HandledAs(Batches(trips), Oversized)
    && s'.drains == if goesOn then s.drains[d := Draining(watermark, cursor)] else s.drains - {d}
  }

  /** Refinement of a drain: all its rounds together are a run of the protocol. */
  lemma {:induction false} DrainIsARun(
    c: Config, s: State, d: DrainId, env: Environment, watermark: nat, cursor: nat, trips: seq<Trip>, moments: seq<Moments>)
    returns (s': State)
    requires d in s.drains && s.drains[d] == Draining(watermark, s.lastSeq)
    requires IsDrain(env, c.filter, watermark, s.lastSeq, cursor, trips)
    requires |moments| == |trips| && SeesAll(c, s.feed, env, moments)
    ensures Leads(c, s, s')
    ensures DrainEnds(s, s', d, watermark, FeedAfter(s.feed, moments), cursor, trips,
                      CallsForMore(env, c.filter, watermark, trips))
    decreases |trips|
  {
    if trips == [] {
      StandsStill(DeliveryProtocol.Next(c), s);
      s' := s;
    } else {
      var n := |trips| - 1;
      LastOfDrain(env, c.filter, watermark, s.lastSeq, cursor, trips);
      var mid := DrainIsARun(c, s, d, env, watermark, trips[n].cursor, trips[..n], moments[..n]);
      s' := LastRoundIsARun(c, s, mid, d, env, watermark, n, moments[n], trips[..n], trips[n], trips);
    }
  }

  lemma OneRoundMore(s: State, mid: State, s': State, d: DrainId, watermark: nat, feed: Feed, trips: seq<Trip>, t: Trip,
                     all: seq<Trip>, goesOn: bool)
    requires DrainEnds(s, mid, d, watermark, mid.feed, t.cursor, trips, true)
    requires Ends(mid, s', d, watermark, feed, t, goesOn) && Batches(all) == Batches(trips) + t.added
    ensures DrainEnds(s, s', d, watermark, feed, t.next, all, goesOn)
  {
    assert mid.drains - {d} == s.drains - {d};
    assert mid.drains[d := Draining(watermark, t.next)] == s.drains[d := Draining(watermark, t.next)];
    HandledInMore(Batches(trips), t.added, Accepted);
    HandledInMore(Batches(trips), t.added, Oversized);
  }

  lemma LastRoundIsARun(c: Config, s: State, mid: State, d: DrainId, env: Environment, watermark: nat, n: nat, m: Moments,
                        trips: seq<Trip>, t: Trip, all: seq<Trip>)
    returns (s': State)
    requires d in s.drains && Leads(c, s, mid) && DrainEnds(s, mid, d, watermark, mid.feed, t.cursor, trips, true)
    requires Sees(c, mid.feed, env, n, m) && RoundResult(env, c.filter, watermark, n, t)
    requires Batches(all) == Batches(trips) + t.added
    ensures Leads(c, s, s')
    ensures DrainEnds(s, s', d, watermark, m.record, t.next, all, GoesOn(env, c.filter, watermark, n, t))
  {
    s' := RoundIsARun(c, mid, d, env, watermark, n, m, t);
    ReachesFurther(DeliveryProtocol.Next(c), s, mid, s');
    OneRoundMore(s, mid, s', d, watermark, m.record, trips, t, all, GoesOn(env, c.filter, watermark, n, t));
  }

  /** The start of a drain: the watermark of the tick, writers, and the row as the drain loads it. */
  lemma DrainBegins(c: Config, s: State, d: DrainId, readAt: nat, loaded: Feed) returns (s': State)
    requires d !in s.drains && readAt <= s.feed.clock && WritersAct(c, s.feed, loaded)
    ensures Leads(c, s, s')
    ensures s' == s.(feed := loaded, drains := s.drains[d := Draining(Watermark(c.lag, s.feed, readAt), s.lastSeq)])
  {
    var w := Watermark(c.lag, s.feed, readAt);
    StandsStill(DeliveryProtocol.Next(c), s);
    OneStepOn(c, s, s, Snapshot(d, readAt));
    var s1 := s.(drains := s.drains[d := Snapped(w)]);
    WritersLead(c, s, s1, loaded);
    OneStepOn(c, s, s1.(feed := loaded), Load(d));
    s' := Apply(c, s1.(feed := loaded), Load(d));
    assert s'.drains == s.drains[d := Draining(w, s.lastSeq)];
  }

  /** The promise carries over to the code: from any reachable state, a drain of the code behind the
      watermark of its tick, with writers acting all the while, leaves a cursor behind which nothing
      is lost, if the lag exceeds twice the longest transaction; what it adds to the accepted events
      was in the POST of a round that was answered with a 2xx. */
  lemma DrainLosesNothing(
    c: Config, s: State, d: DrainId, readAt: nat, loaded: Feed, env: Environment, cursor: nat, trips: seq<Trip>,
    moments: seq<Moments>)
    returns (s': State)
    requires 2 * c.maxTxn < c.lag && Reachable(c, s)
    requires d !in s.drains && readAt <= s.feed.clock && WritersAct(c, s.feed, loaded)
    requires IsDrain(env, c.filter, Watermark(c.lag, s.feed, readAt), s.lastSeq, cursor, trips)
    requires |moments| == |trips| && SeesAll(c, loaded, env, moments)
    ensures Reachable(c, s') && s'.lastSeq == cursor && s'.feed == FeedAfter(loaded, moments)
    ensures s'.accepted == s.accepted + HandledAs(Batches(trips), Accepted)
    ensures forall e | e in s'.accepted - s.accepted :: WasPosted(env, trips, e)
    ensures forall e | e in s'.skipped - s.skipped :: NeverFits(env, trips, e)
    ensures NothingLost(c, s')
  {
    var s1 := DrainBegins(c, s, d, readAt, loaded);
    s' := DrainIsARun(c, s1, d, env, Watermark(c.lag, s.feed, readAt), cursor, trips, moments);
    HandledRightly(env, c.filter, Watermark(c.lag, s.feed, readAt), s.lastSeq, cursor, trips);
    ReachesFurther(DeliveryProtocol.Next(c), Initial(c), s, s1);
    ReachesFurther(DeliveryProtocol.Next(c), Initial(c), s1, s');
    NoEventIsLost(c, s');
  }
}
