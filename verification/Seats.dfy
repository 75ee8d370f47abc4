/** Seats: at most 10 active and verified subscriptions on a host and 500 in all, although every
    process counts first and decides later.  Promotions (a challenge that was answered correctly)
    and reactivations take one advisory lock; disables and deletes do not. */
module Seats {
  import opened Basics
  import opened Runs

  const MAX_ACTIVE_PER_HOST := 10
  const MAX_ACTIVE_GLOBAL := 500

  type SubscriptionId = nat
  type Host = string

  datatype Row = Row(host: Host, active: bool, verified: bool)
  type Table = map<SubscriptionId, Row>

  datatype Kind = Promotion | Reactivation

  /** The transaction that holds the lock: which row it is about and what it has counted so far. */
  datatype Holder = Holder(kind: Kind, id: SubscriptionId, host: Host, onHost: Option<nat>, globally: Option<nat>)

  /** `used` are the identifiers ever handed out: a deleted one never comes back. */
  datatype State = State(table: Table, used: set<SubscriptionId>, holder: Option<Holder>)

  datatype Step =
    | Create(id: SubscriptionId, host: Host)
    | Acquire(kind: Kind, id: SubscriptionId)
    | CountHost
    | CountGlobal
    | Decide
    | Release
    | DisableRow(id: SubscriptionId)
    | DeleteRow(id: SubscriptionId)

  predicate HasSeat(t: Table, id: SubscriptionId) {
    id in t && t[id].active && t[id].verified
  }

  function SeatsOn(t: Table, host: Host): set<SubscriptionId> {
    set id | id in t && HasSeat(t, id) && t[id].host == host
  }

  function AllSeats(t: Table): set<SubscriptionId> {
    set id | id in t && HasSeat(t, id)
  }

  predicate Enabled(s: State, step: Step) {
    match step
    case Create(id, _) => id !in s.table && id !in s.used
    case Acquire(kind, id) =>
      && s.holder == None && id in s.table
      && (kind == Reactivation ==> s.table[id].verified && !s.table[id].active)
    case CountHost => s.holder != None && s.holder.value.onHost == None
    case CountGlobal => s.holder != None && s.holder.value.onHost != None && s.holder.value.globally == None
    case Decide => s.holder != None && s.holder.value.onHost != None && s.holder.value.globally != None
    case Release => s.holder != None
    case DisableRow(id) => id in s.table
    case DeleteRow(id) => id in s.table
  }

  /** The end of the lock-holding transaction.  Over a quota a promotion disables its row and a
      reactivation changes nothing; a row deleted meanwhile is not written at all. */
  function Decided(t: Table, h: Holder): Table
    requires h.onHost != None && h.globally != None
  {
    var full := h.onHost.value >= MAX_ACTIVE_PER_HOST || h.globally.value >= MAX_ACTIVE_GLOBAL;
    if h.id !in t then t
    else if h.kind == Promotion then
      if full then t[h.id := t[h.id].(active := false)] else t[h.id := t[h.id].(verified := true)]
    else if full then t
    else t[h.id := t[h.id].(active := true)]
  }

  function Apply(s: State, step: Step): State
    requires Enabled(s, step)
  {
    match step
    case Create(id, host) => s.(table := s.table[id := Row(host, true, false)], used := s.used + {id})
    case Acquire(kind, id) => s.(holder := Some(Holder(kind, id, s.table[id].host, None, None)))
    case CountHost => s.(holder := Some(s.holder.value.(onHost := Some(|SeatsOn(s.table, s.holder.value.host)|))))
    case CountGlobal => s.(holder := Some(s.holder.value.(globally := Some(|AllSeats(s.table)|))))
    case Decide => s.(table := Decided(s.table, s.holder.value), holder := None)
    case Release => s.(holder := None)
    case DisableRow(id) => s.(table := s.table[id := s.table[id].(active := false)])
    case DeleteRow(id) => s.(table := s.table - {id})
  }

  ghost predicate CapsHold(t: Table) {
    && (forall host :: |SeatsOn(t, host)| <= MAX_ACTIVE_PER_HOST)
    && |AllSeats(t)| <= MAX_ACTIVE_GLOBAL
  }

  /** While the lock is held the counts can only be too high. */
  ghost predicate Inv(s: State) {
    && CapsHold(s.table)
    && s.table.Keys <= s.used
    && (s.holder != None ==>
          var h := s.holder.value;
          && h.id in s.used
          && (h.id in s.table ==> s.table[h.id].host == h.host)
          && (h.onHost != None ==> |SeatsOn(s.table, h.host)| <= h.onHost.value)
          && (h.globally != None ==> |AllSeats(s.table)| <= h.globally.value))
  }

  /** `after` has no seat beyond those of `before`. */
  lemma FewerSeats(before: Table, after: Table)
    requires forall id | HasSeat(after, id) :: HasSeat(before, id) && after[id].host == before[id].host
    ensures forall host :: |SeatsOn(after, host)| <= |SeatsOn(before, host)|
    ensures |AllSeats(after)| <= |AllSeats(before)|
  {
    forall host ensures |SeatsOn(after, host)| <= |SeatsOn(before, host)| {
      SubsetIsNoLarger(SeatsOn(after, host), SeatsOn(before, host));
    }
    SubsetIsNoLarger(AllSeats(after), AllSeats(before));
  }

  lemma OneMoreSeat(before: Table, after: Table, x: SubscriptionId)
    requires forall id | HasSeat(after, id) && id != x :: HasSeat(before, id) && after[id].host == before[id].host
    requires x in after
    ensures forall host | host != after[x].host :: |SeatsOn(after, host)| <= |SeatsOn(before, host)|
    ensures |SeatsOn(after, after[x].host)| <= |SeatsOn(before, after[x].host)| + 1
    ensures |AllSeats(after)| <= |AllSeats(before)| + 1
  {
    forall host | host != after[x].host ensures |SeatsOn(after, host)| <= |SeatsOn(before, host)| {
      SubsetIsNoLarger(SeatsOn(after, host), SeatsOn(before, host));
    }
    SubsetIsNoLarger(SeatsOn(after, after[x].host) - {x}, SeatsOn(before, after[x].host));
    SubsetIsNoLarger(AllSeats(after) - {x}, AllSeats(before));
  }

  lemma DecideKeepsInv(s: State)
    requires Inv(s) && Enabled(s, Decide)
    ensures Inv(Apply(s, Decide))
  {
    var h := s.holder.value;
    var t' := Decided(s.table, h);
    if h.id in s.table && h.onHost.value < MAX_ACTIVE_PER_HOST && h.globally.value < MAX_ACTIVE_GLOBAL {
      OneMoreSeat(s.table, t', h.id);
    } else {
      FewerSeats(s.table, t');
    }
  }

  lemma StepKeepsInv(s: State, step: Step)
    requires Inv(s) && Enabled(s, step)
    ensures Inv(Apply(s, step))
  {
    if step.Decide? {
      DecideKeepsInv(s);
    } else {
      FewerSeats(s.table, Apply(s, step).table);
    }
  }

  ghost function Next(): (State, Step, State) -> bool {
    (s: State, step: Step, s': State) => Enabled(s, step) && s' == Apply(s, step)
  }

  /** The caps hold after every interleaving. */
  lemma SeatCapsHold(s: State, s': State)
    requires Inv(s) && Reaches(Next(), s, s')
    ensures Inv(s') && CapsHold(s'.table)
  {
    var keeps := (x: State) => Inv(x);
    forall x, step, y | keeps(x) && Next()(x, step, y) ensures keeps(y) {
      StepKeepsInv(x, step);
    }
    ReachableKeeps(Next(), keeps, s, s');
  }

  const NO_SUBSCRIPTIONS := State(map[], {}, None)

  predicate AreSeated(t: Table, ids: set<SubscriptionId>) {
    forall id | id in ids :: id in t && t[id].active && t[id].verified
  }

  predicate AreOn(t: Table, ids: set<SubscriptionId>, host: Host) {
    forall id | id in ids :: id in t && t[id].host == host
  }

  /** At most 10 seats on a host and 500 in all after any run of an installation. */
  lemma SeatCapsAlwaysHold(s: State, ids: set<SubscriptionId>, host: Host)
    requires Reaches(Next(), NO_SUBSCRIPTIONS, s) && AreSeated(s.table, ids)
    ensures |ids| <= 500 && (AreOn(s.table, ids, host) ==> |ids| <= 10)
  {
    assert AllSeats(map[]) == {};
    assert forall h :: SeatsOn(map[], h) == {};
    SeatCapsHold(NO_SUBSCRIPTIONS, s);
    SubsetIsNoLarger(ids, AllSeats(s.table));
    if AreOn(s.table, ids, host) {
      SubsetIsNoLarger(ids, SeatsOn(s.table, host));
    }
  }

  /** Nobody takes the lock from its holder, what the holder has counted stands until it decides, and
      only what was verified and is inactive is reactivated. */
  lemma LockIsExclusive(s: State, step: Step, s': State)
    requires Next()(s, step, s')
    ensures step.Acquire? ==> s.holder == None
    ensures step.Acquire? && step.kind == Reactivation ==> s.table[step.id].verified && !s.table[step.id].active
    ensures s.holder != None && s'.holder == None ==> step == Decide || step == Release
    ensures s.holder != None && s'.holder != None ==>
              var h, h' := s.holder.value, s'.holder.value;
              && h'.kind == h.kind && h'.id == h.id && h'.host == h.host
              && (h.onHost != None ==> h'.onHost == h.onHost) && (h.globally != None ==> h'.globally == h.globally)
  {
  }

  // ----- the caps are no lower than promised -----

  /** Is there a seat for one more on this host? */
  predicate HasRoom(t: Table, host: Host) { |SeatsOn(t, host)| < 10 && |AllSeats(t)| < 500 }

  function Attempt(kind: Kind, id: SubscriptionId): seq<Step> { [Acquire(kind, id), CountHost, CountGlobal, Decide] }

  lemma AttemptRuns(s: State, kind: Kind, id: SubscriptionId) returns (s': State)
    requires s.holder == None && id in s.table
    requires kind == Reactivation ==> s.table[id].verified && !s.table[id].active
    ensures Run(Next(), s, Attempt(kind, id), s')
    ensures var host := s.table[id].host;
            s' == s.(table := Decided(s.table, Holder(kind, id, host, Some(|SeatsOn(s.table, host)|), Some(|AllSeats(s.table)|))))
  {
    var s1 := Apply(s, Acquire(kind, id));
    var s2 := Apply(s1, CountHost);
    var s3 := Apply(s2, CountGlobal);
    s' := Apply(s3, Decide);
    assert Run(Next(), s', [], s');
    assert Run(Next(), s3, [Decide], s') by { assert [Decide][1..] == []; }
    assert Run(Next(), s2, [CountGlobal, Decide], s') by { assert [CountGlobal, Decide][1..] == [Decide]; }
    assert Run(Next(), s1, [CountHost, CountGlobal, Decide], s') by {
      assert [CountHost, CountGlobal, Decide][1..] == [CountGlobal, Decide];
    }
    assert Attempt(kind, id)[1..] == [CountHost, CountGlobal, Decide];
  }

  /** An undisturbed promotion verifies the subscription if and only if there is room on its host
      and in all, and otherwise disables it; nothing else changes. */
  lemma PromotionIsExact(s: State, id: SubscriptionId) returns (s': State)
    requires s.holder == None && id in s.table
    ensures Run(Next(), s, Attempt(Promotion, id), s')
    ensures s' == s.(table := s.table[id := if HasRoom(s.table, s.table[id].host) then s.table[id].(verified := true)
                                            else s.table[id].(active := false)])
  {
    s' := AttemptRuns(s, Promotion, id);
  }

  /** A reactivation activates under the same condition and otherwise changes nothing at all. */
  lemma ReactivationIsExact(s: State, id: SubscriptionId) returns (s': State)
    requires s.holder == None && id in s.table && s.table[id].verified && !s.table[id].active
    ensures Run(Next(), s, Attempt(Reactivation, id), s')
    ensures s' == if HasRoom(s.table, s.table[id].host) then s.(table := s.table[id := s.table[id].(active := true)]) else s
  {
    s' := AttemptRuns(s, Reactivation, id);
  }

  /** Ten subscriptions for every host. */
  function HostOf(id: SubscriptionId): Host { seq(id / 10, _ => 'h') }

  function Crowd(n: nat): Table { map id: nat | id < n :: Row(HostOf(id), true, true) }

  function FirstIds(n: nat): set<SubscriptionId> { Crowd(n).Keys }

  lemma {:induction false} IdsAreMany(n: nat)
    ensures |FirstIds(n)| == n
  {
    if n > 0 {
      IdsAreMany(n - 1);
      assert FirstIds(n) == FirstIds(n - 1) + {n - 1};
    }
  }

  /** The seats on the host of the next subscription are those since the last multiple of ten. */
  lemma CrowdHasSeats(n: nat)
    ensures |AllSeats(Crowd(n))| == n && |SeatsOn(Crowd(n), HostOf(n))| == n % 10
  {
    IdsAreMany(n);
    assert AllSeats(Crowd(n)) == FirstIds(n);
    var floor := n / 10 * 10;
    IdsAreMany(floor);
    forall id: nat | id < n
      ensures HostOf(id) == HostOf(n) <==> id !in FirstIds(floor)
    {
      assert |HostOf(id)| == id / 10 && |HostOf(n)| == n / 10;
    }
    assert SeatsOn(Crowd(n), HostOf(n)) == FirstIds(n) - FirstIds(floor);
    assert FirstIds(floor) <= FirstIds(n);
  }

  lemma OneMoreInCrowd(n: nat)
    ensures n !in Crowd(n) && Crowd(n + 1) == Crowd(n)[n := Row(HostOf(n), true, true)]
    ensures Crowd(n + 1).Keys == Crowd(n).Keys + {n}
    ensures n < 500 ==> HasRoom(Crowd(n)[n := Row(HostOf(n), true, false)], HostOf(n))
  {
    CrowdHasSeats(n);
    var t := Crowd(n)[n := Row(HostOf(n), true, false)];
    assert SeatsOn(t, HostOf(n)) == SeatsOn(Crowd(n), HostOf(n)) && AllSeats(t) == AllSeats(Crowd(n));
  }

  lemma CreatedReaches(s: State, id: SubscriptionId, host: Host) returns (s': State)
    requires Reaches(Next(), NO_SUBSCRIPTIONS, s) && id !in s.table && id !in s.used
    ensures Reaches(Next(), NO_SUBSCRIPTIONS, s')
    ensures s' == s.(table := s.table[id := Row(host, true, false)], used := s.used + {id})
  {
    s' := Apply(s, Create(id, host));
    StepOn(Next(), NO_SUBSCRIPTIONS, s, Create(id, host), s');
  }

  lemma PromotedReaches(s: State, id: SubscriptionId) returns (s': State)
    requires Reaches(Next(), NO_SUBSCRIPTIONS, s) && s.holder == None && id in s.table && HasRoom(s.table, s.table[id].host)
    ensures Reaches(Next(), NO_SUBSCRIPTIONS, s') && s' == s.(table := s.table[id := s.table[id].(verified := true)])
  {
    s' := PromotionIsExact(s, id);
    ReachesFurther(Next(), NO_SUBSCRIPTIONS, s, s');
  }

  lemma NextGetsItsSeat(s: State, n: nat) returns (s': State)
    requires n < 500 && s.table == Crowd(n) && s.used == s.table.Keys && s.holder == None
    requires Reaches(Next(), NO_SUBSCRIPTIONS, s)
    ensures Reaches(Next(), NO_SUBSCRIPTIONS, s')
    ensures s'.table == Crowd(n + 1) && s'.used == s'.table.Keys && s'.holder == None
  {
    OneMoreInCrowd(n);
    s' := CreatedReaches(s, n, HostOf(n));
    assert s'.table[n] == Row(HostOf(n), true, false);
    s' := PromotedReaches(s', n);
  }

  /** The caps are attained: up to 500 subscriptions, ten on each of their hosts, can all be seated. */
  lemma {:induction false} SeatsFillUp(n: nat) returns (s: State)
    requires n <= 500
    ensures Reaches(Next(), NO_SUBSCRIPTIONS, s) && s.table == Crowd(n) && s.used == s.table.Keys && s.holder == None
    ensures |AllSeats(s.table)| == n && forall id | id in s.table :: s.table[id].host == HostOf(id)
  {
    CrowdHasSeats(n);
    if n == 0 {
      StandsStill(Next(), NO_SUBSCRIPTIONS);
      s := NO_SUBSCRIPTIONS;
      assert Crowd(0) == map[];
    } else {
      s := SeatsFillUp(n - 1);
      s := NextGetsItsSeat(s, n - 1);
    }
  }
}
