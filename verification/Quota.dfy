/** The daily quota of a customer: checked before a request is served and metered after it, as two
    separate transactions, with nothing but the concurrency ceiling between them. */
module Quota {
  import opened Basics
  import opened Runs

  type Day = nat
  type RequestId = nat

  /** The limit that is enforced: a tenth above the contractual one, rounded down. */
  function EffectiveLimit(contractual: nat): nat { contractual * 11 / 10 }

  /** The in-flight counter of the concurrency middleware. */
  class ConcurrencyLimit {
    const maxConcurrent: nat
    var inFlight: nat
    var shedTotal: nat

    constructor (maxConcurrent: nat)
      ensures this.maxConcurrent == maxConcurrent && inFlight == 0 && shedTotal == 0
    {
      this.maxConcurrent, inFlight, shedTotal := maxConcurrent, 0, 0;
    }

    method Acquire() returns (admitted: bool)
      modifies this
      ensures admitted == (old(inFlight) < maxConcurrent)
      ensures inFlight == old(inFlight) + (if admitted then 1 else 0)
      ensures shedTotal == old(shedTotal) + (if admitted then 0 else 1)
    {
      if inFlight >= maxConcurrent {
        shedTotal := shedTotal + 1;
        return false;
      }
      inFlight := inFlight + 1;
      admitted := true;
    }

    method Release()
      requires 0 < inFlight
      modifies `inFlight
      ensures inFlight == old(inFlight) - 1
    {
      inFlight := inFlight - 1;
    }
  }

  /** Where a request that holds a slot has got to. */
  datatype Stage = Arrived | Passed | Metered

  /** `heavy` requests count against a second limit as well. */
  datatype Request = Request(heavy: bool, stage: Stage)

  datatype Config = Config(slots: nat, limit: nat, heavyLimit: nat)

  /** The usage rows of one customer by day, and its requests that hold a slot. */
  datatype State = State(today: Day, requests: map<Day, nat>, heavy: map<Day, nat>, inFlight: map<RequestId, Request>)

  const START := State(0, map[], map[], map[])

  function CountOn(usage: map<Day, nat>, day: Day): nat { if day in usage then usage[day] else 0 }

  datatype Step =
    | Arrive(r: RequestId, isHeavy: bool)
    | Check(r: RequestId)
    | Meter(r: RequestId)
    | Leave(r: RequestId)
    | Midnight

  /** `Check` succeeds only below the limits; a refused request just leaves, and so does one that
      failed or whose metering failed. */
  predicate Enabled(c: Config, s: State, step: Step) {
    match step
    case Arrive(r, _) => r !in s.inFlight && |s.inFlight| < c.slots
    case Check(r) =>
      && r in s.inFlight && s.inFlight[r].stage == Arrived
      && CountOn(s.requests, s.today) < c.limit
      && (s.inFlight[r].heavy ==> CountOn(s.heavy, s.today) < c.heavyLimit)
    case Meter(r) => r in s.inFlight && s.inFlight[r].stage == Passed
    case Leave(r) => r in s.inFlight
    case Midnight => true
  }

  function Apply(c: Config, s: State, step: Step): State
    requires Enabled(c, s, step)
  {
    match step
    case Arrive(r, isHeavy) => s.(inFlight := s.inFlight[r := Request(isHeavy, Arrived)])
    case Check(r) => s.(inFlight := s.inFlight[r := s.inFlight[r].(stage := Passed)])
    case Meter(r) =>
      // One upsert adds to today's row, whatever day the check read.
      s.(requests := s.requests[s.today := CountOn(s.requests, s.today) + 1],
         heavy := s.heavy[s.today := CountOn(s.heavy, s.today) + if s.inFlight[r].heavy then 1 else 0],
         inFlight := s.inFlight[r := s.inFlight[r].(stage := Metered)])
    case Leave(r) => s.(inFlight := s.inFlight - {r})
    case Midnight => s.(today := s.today + 1)
  }

  ghost function Next(c: Config): (State, Step, State) -> bool {
    (s: State, step: Step, s': State) => Enabled(c, s, step) && s' == Apply(c, s, step)
  }

  ghost predicate Reachable(c: Config, s: State) {
    Reaches(Next(c), START, s)
  }

  /** Requests that passed the check and are not metered yet. */
  function Pending(inFlight: map<RequestId, Request>): set<RequestId> {
    set r | r in inFlight && inFlight[r].stage == Passed
  }

  function PendingHeavy(inFlight: map<RequestId, Request>): set<RequestId> {
    set r | r in inFlight && inFlight[r].stage == Passed && inFlight[r].heavy
  }

  /** The most a day's count can come to. */
  function Bound(limit: nat, slots: nat): nat {
    if limit == 0 || slots == 0 then 0 else limit + slots - 1
  }

  /** A day's count never passes the bound, not even with what is still to be added to it today. */
  ghost predicate Within(usage: map<Day, nat>, today: Day, pending: nat, bound: nat) {
    && (forall day <- usage :: day <= today && usage[day] <= bound)
    && CountOn(usage, today) + pending <= bound
  }

  ghost predicate Inv(c: Config, s: State) {
    && |s.inFlight| <= c.slots
    && Within(s.requests, s.today, |Pending(s.inFlight)|, Bound(c.limit, c.slots))
    && Within(s.heavy, s.today, |PendingHeavy(s.inFlight)|, Bound(c.heavyLimit, c.slots))
  }

  lemma PendingFits(inFlight: map<RequestId, Request>)
    ensures |Pending(inFlight)| <= |inFlight| && |PendingHeavy(inFlight)| <= |inFlight|
  {
    SubsetIsNoLarger(Pending(inFlight), inFlight.Keys);
    SubsetIsNoLarger(PendingHeavy(inFlight), inFlight.Keys);
  }

  lemma UpdatedSize<K, V>(m: map<K, V>, k: K, v: V)
    ensures |m[k := v]| == |m| + if k in m then 0 else 1
  {
    assert m[k := v].Keys == m.Keys + {k};
    assert |m| == |m.Keys| && |m[k := v]| == |m[k := v].Keys|;
  }

  /** A request that has just arrived is not pending. */
  lemma ArrivingIsNotPending(inFlight: map<RequestId, Request>, r: RequestId, isHeavy: bool)
    requires r !in inFlight
    ensures var after := inFlight[r := Request(isHeavy, Arrived)];
            Pending(after) == Pending(inFlight) && PendingHeavy(after) == PendingHeavy(inFlight)
  {
  }

  lemma LeavingShrinks(inFlight: map<RequestId, Request>, r: RequestId)
    requires r in inFlight
    ensures var after := inFlight - {r};
            && |after| <= |inFlight| && |Pending(after)| <= |Pending(inFlight)|
            && |PendingHeavy(after)| <= |PendingHeavy(inFlight)|
  {
    var after := inFlight - {r};
    SubsetIsNoLarger(after.Keys, inFlight.Keys);
    SubsetIsNoLarger(Pending(after), Pending(inFlight));
    SubsetIsNoLarger(PendingHeavy(after), PendingHeavy(inFlight));
  }

  lemma MeteringRemovesOne(inFlight: map<RequestId, Request>, r: RequestId)
    requires r in inFlight && inFlight[r].stage == Passed
    ensures var after := inFlight[r := inFlight[r].(stage := Metered)];
            && |Pending(after)| == |Pending(inFlight)| - 1
            && |PendingHeavy(after)| == |PendingHeavy(inFlight)| - if inFlight[r].heavy then 1 else 0
  {
    var after := inFlight[r := inFlight[r].(stage := Metered)];
    assert Pending(after) == Pending(inFlight) - {r};
    assert PendingHeavy(after) == PendingHeavy(inFlight) - {r};
  }

  lemma PassingALightRequest(inFlight: map<RequestId, Request>, r: RequestId)
    requires r in inFlight && inFlight[r].stage == Arrived && !inFlight[r].heavy
    ensures PendingHeavy(inFlight[r := inFlight[r].(stage := Passed)]) == PendingHeavy(inFlight)
  {
  }

  /** The count a request was checked against leaves room for every slot. */
  lemma CheckKeepsInv(c: Config, s: State, r: RequestId)
    requires Inv(c, s) && Enabled(c, s, Check(r))
    ensures Inv(c, Apply(c, s, Check(r)))
  {
    var s' := Apply(c, s, Check(r));
    UpdatedSize(s.inFlight, r, s.inFlight[r].(stage := Passed));
    PendingFits(s'.inFlight);
    assert |s'.inFlight| >= 1 by { assert r in s'.inFlight; }
    if !s.inFlight[r].heavy {
      PassingALightRequest(s.inFlight, r);
    }
  }

  lemma MeterKeepsInv(c: Config, s: State, r: RequestId)
    requires Inv(c, s) && Enabled(c, s, Meter(r))
    ensures Inv(c, Apply(c, s, Meter(r)))
  {
    UpdatedSize(s.inFlight, r, s.inFlight[r].(stage := Metered));
    MeteringRemovesOne(s.inFlight, r);
  }

  /** What is pending at midnight is counted on the new day, which starts from nothing. */
  lemma MidnightKeepsInv(c: Config, s: State)
    requires Inv(c, s)
    ensures Inv(c, Apply(c, s, Midnight))
  {
    PendingFits(s.inFlight);
  }

  lemma StepKeepsInv(c: Config, s: State, step: Step)
    requires Inv(c, s) && Enabled(c, s, step)
    ensures Inv(c, Apply(c, s, step))
  {
    match step {
      case Arrive(r, isHeavy) =>
        UpdatedSize(s.inFlight, r, Request(isHeavy, Arrived));
        ArrivingIsNotPending(s.inFlight, r, isHeavy);
      case Check(r) => CheckKeepsInv(c, s, r);
      case Meter(r) => MeterKeepsInv(c, s, r);
      case Leave(r) => LeavingShrinks(s.inFlight, r);
      case Midnight => MidnightKeepsInv(c, s);
    }
  }

  // ----- the rows and what was served -----

  /** The day after these steps. */
  function DayAfter(steps: seq<Step>): Day {
    if steps == [] then 0 else DayAfter(steps[..|steps| - 1]) + if steps[|steps| - 1] == Midnight then 1 else 0
  }

  /** Was the last request of this name a heavy one? */
  function LastIsHeavy(steps: seq<Step>, r: RequestId): bool {
    if steps == [] then false
    else
      match steps[|steps| - 1]
      case Arrive(q, isHeavy) => if q == r then isHeavy else LastIsHeavy(steps[..|steps| - 1], r)
      case _ => LastIsHeavy(steps[..|steps| - 1], r)
  }

  /** The requests that were metered on a day, and the heavy ones among them. */
  function MeteredOn(steps: seq<Step>, day: Day, onlyHeavy: bool): nat {
    if steps == [] then 0
    else
      var init := steps[..|steps| - 1];
      match steps[|steps| - 1]
      case Meter(r) =>
        MeteredOn(init, day, onlyHeavy) + if DayAfter(init) == day && (onlyHeavy ==> LastIsHeavy(init, r)) then 1 else 0
      case _ => MeteredOn(init, day, onlyHeavy)
  }

  lemma OneStepOn(init: seq<Step>, step: Step, day: Day, r: RequestId, onlyHeavy: bool)
    ensures var steps := init + [step];
            && DayAfter(steps) == DayAfter(init) + (if step == Midnight then 1 else 0)
            && LastIsHeavy(steps, r) == (if step.Arrive? && step.r == r then step.isHeavy else LastIsHeavy(init, r))
            && MeteredOn(steps, day, onlyHeavy) == MeteredOn(init, day, onlyHeavy)
                 + (if step.Meter? && DayAfter(init) == day && (onlyHeavy ==> LastIsHeavy(init, step.r)) then 1 else 0)
  {
    var steps := init + [step];
    assert steps[|steps| - 1] == step;
    assert steps[..|steps| - 1] == init;
  }

  lemma OneStepMore(c: Config, init: seq<Step>, mid: State, step: Step, s: State, day: Day)
    requires Next(c)(mid, step, s) && mid.today == DayAfter(init)
    requires CountOn(mid.requests, day) == MeteredOn(init, day, false) && CountOn(mid.heavy, day) == MeteredOn(init, day, true)
    requires forall r | r in mid.inFlight :: mid.inFlight[r].heavy == LastIsHeavy(init, r)
    ensures var steps := init + [step];
            && s.today == DayAfter(steps)
            && CountOn(s.requests, day) == MeteredOn(steps, day, false) && CountOn(s.heavy, day) == MeteredOn(steps, day, true)
            && forall r | r in s.inFlight :: s.inFlight[r].heavy == LastIsHeavy(steps, r)
  {
    OneStepOn(init, step, day, 0, false);
    OneStepOn(init, step, day, 0, true);
    forall r | r in s.inFlight
      ensures s.inFlight[r].heavy == LastIsHeavy(init + [step], r)
    {
      OneStepOn(init, step, day, r, false);
    }
  }

  /** The usage rows are an account of the run: each day's numbers are those of the requests metered
      on that day, in all and heavy. */
  lemma {:induction false} RowsAreMetered(c: Config, steps: seq<Step>, s: State, day: Day)
    requires Run(Next(c), START, steps, s)
    ensures s.today == DayAfter(steps)
    ensures CountOn(s.requests, day) == MeteredOn(steps, day, false)
    ensures CountOn(s.heavy, day) == MeteredOn(steps, day, true)
    ensures forall r | r in s.inFlight :: s.inFlight[r].heavy == LastIsHeavy(steps, r)
    decreases |steps|
  {
    if steps != [] {
      var mid := LastOfRun(Next(c), START, steps, s);
      var init, last := steps[..|steps| - 1], steps[|steps| - 1];
      RowsAreMetered(c, init, mid, day);
      OneStepMore(c, init, mid, last, s, day);
      assert steps == init + [last];
    }
  }

  lemma ReachableKeepsInv(c: Config, s: State)
    requires Reachable(c, s)
    ensures Inv(c, s)
  {
    assert Pending(START.inFlight) == {} && PendingHeavy(START.inFlight) == {};
    var keeps := (x: State) => Inv(c, x);
    forall x, step, y | keeps(x) && Next(c)(x, step, y) ensures keeps(y) {
      StepKeepsInv(c, x, step);
    }
    ReachableKeeps(Next(c), keeps, START, s);
  }

  /** The overshoot is bounded by concurrency: over every run and on every day, what is served to a
      customer and metered exceeds the limit by less than the number of slots, whatever is in flight,
      also over midnight; and so do the rows. */
  lemma OvershootIsBounded(c: Config, steps: seq<Step>, s: State, day: Day)
    requires Run(Next(c), START, steps, s)
    ensures MeteredOn(steps, day, false) == CountOn(s.requests, day) <= Bound(c.limit, c.slots)
    ensures MeteredOn(steps, day, true) == CountOn(s.heavy, day) <= Bound(LimitFor(c, true), c.slots)
  {
    RowsAreMetered(c, steps, s, day);
    HeavyAreFewer(steps, day);
    ReachableKeepsInv(c, s);
  }

  /** Heavy requests count against both limits. */
  function LimitFor(c: Config, isHeavy: bool): nat {
    if isHeavy && c.heavyLimit < c.limit then c.heavyLimit else c.limit
  }

  lemma {:induction false} HeavyAreFewer(steps: seq<Step>, day: Day)
    ensures MeteredOn(steps, day, true) <= MeteredOn(steps, day, false)
    decreases |steps|
  {
    if steps != [] {
      HeavyAreFewer(steps[..|steps| - 1], day);
    }
  }

  /** In terms of the contract: a customer gets at most a tenth more than agreed, and less than one
      request for each slot on top of that; the same for heavy requests. */
  lemma ContractIsBarelyExceeded(contractual: nat, contractualHeavy: nat, slots: nat, steps: seq<Step>, s: State, day: Day)
    requires Run(Next(Config(slots, EffectiveLimit(contractual), EffectiveLimit(contractualHeavy))), START, steps, s)
    ensures var all, heavy := MeteredOn(steps, day, false), MeteredOn(steps, day, true);
            && (contractual > 0 && slots > 0 ==> 10 * all <= 11 * contractual + 10 * (slots - 1))
            && (contractualHeavy > 0 && slots > 0 ==> 10 * heavy <= 11 * contractualHeavy + 10 * (slots - 1))
            && (contractual == 0 || slots == 0 ==> all == 0)
            && (contractualHeavy == 0 || slots == 0 ==> heavy == 0)
  {
    OvershootIsBounded(Config(slots, EffectiveLimit(contractual), EffectiveLimit(contractualHeavy)), steps, s, day);
  }

  /** The grace is a tenth of the contract, no more and at most a request less. */
  lemma GraceIsATenth(contractual: nat)
    ensures 10 * EffectiveLimit(contractual) <= 11 * contractual < 10 * (EffectiveLimit(contractual) + 1)
  {
  }

  // ----- the bound is attained -----

  lemma StepReaches(c: Config, s: State, step: Step) returns (s': State)
    requires Reachable(c, s) && Enabled(c, s, step)
    ensures Reachable(c, s') && s' == Apply(c, s, step)
  {
    s' := Apply(c, s, step);
    StepOn(Next(c), START, s, step, s');
  }

  /** `n` requests of one kind served one after the other. */
  lemma {:induction false} ServedOneByOne(c: Config, isHeavy: bool, n: nat) returns (s: State)
    requires 0 < c.slots && n <= LimitFor(c, isHeavy)
    ensures Reachable(c, s) && s.today == 0 && s.inFlight == map[]
    ensures CountOn(s.requests, 0) == n && CountOn(s.heavy, 0) == if isHeavy then n else 0
  {
    if n == 0 {
      StandsStill(Next(c), START);
      s := START;
    } else {
      var s0 := ServedOneByOne(c, isHeavy, n - 1);
      var s1 := StepReaches(c, s0, Arrive(0, isHeavy));
      assert s1 == s0.(inFlight := map[0 := Request(isHeavy, Arrived)]);
      var s2 := StepReaches(c, s1, Check(0));
      assert s2 == s0.(inFlight := map[0 := Request(isHeavy, Passed)]);
      var s3 := StepReaches(c, s2, Meter(0));
      s := StepReaches(c, s3, Leave(0));
      assert s.inFlight == map[];
    }
  }

  /** Requests `0..k` of one kind in flight that have all passed their checks, the first `done` of
      them metered. */
  ghost predicate IsCrowd(inFlight: map<RequestId, Request>, isHeavy: bool, k: nat, done: nat) {
    && |inFlight| == k
    && (forall r: RequestId :: r in inFlight <==> r < k)
    && (forall r <- inFlight :: inFlight[r] == Request(isHeavy, if r < done then Metered else Passed))
  }

  lemma OnePassesMore(inFlight: map<RequestId, Request>, isHeavy: bool, k: nat)
    requires IsCrowd(inFlight, isHeavy, k, 0)
    ensures IsCrowd(inFlight[k := Request(isHeavy, Passed)], isHeavy, k + 1, 0)
  {
    UpdatedSize(inFlight, k, Request(isHeavy, Passed));
  }

  lemma OneIsMeteredMore(inFlight: map<RequestId, Request>, isHeavy: bool, k: nat, done: nat)
    requires done < k && IsCrowd(inFlight, isHeavy, k, done)
    ensures done in inFlight && inFlight[done] == Request(isHeavy, Passed)
    ensures IsCrowd(inFlight[done := Request(isHeavy, Metered)], isHeavy, k, done + 1)
  {
    UpdatedSize(inFlight, done, Request(isHeavy, Metered));
  }

  lemma PassReaches(c: Config, s: State, r: RequestId, isHeavy: bool) returns (s': State)
    requires Reachable(c, s) && r !in s.inFlight && |s.inFlight| < c.slots && CountOn(s.requests, s.today) < c.limit
    requires isHeavy ==> CountOn(s.heavy, s.today) < c.heavyLimit
    ensures Reachable(c, s') && s' == s.(inFlight := s.inFlight[r := Request(isHeavy, Passed)])
  {
    var s1 := StepReaches(c, s, Arrive(r, isHeavy));
    s' := StepReaches(c, s1, Check(r));
    assert s'.inFlight == s.inFlight[r := Request(isHeavy, Passed)];
  }

  /** `k` requests that all read a count below the limit before any of them is metered. */
  lemma {:induction false} AllPass(c: Config, s0: State, isHeavy: bool, k: nat) returns (s: State)
    requires Reachable(c, s0) && s0.today == 0 && s0.inFlight == map[] && CountOn(s0.requests, 0) < c.limit
    requires k <= c.slots && (isHeavy ==> CountOn(s0.heavy, 0) < c.heavyLimit)
    ensures Reachable(c, s) && s == s0.(inFlight := s.inFlight) && IsCrowd(s.inFlight, isHeavy, k, 0)
  {
    if k == 0 {
      s := s0;
    } else {
      var s1 := AllPass(c, s0, isHeavy, k - 1);
      OnePassesMore(s1.inFlight, isHeavy, k - 1);
      s := PassReaches(c, s1, k - 1, isHeavy);
    }
  }

  lemma MeterReaches(c: Config, s: State, r: RequestId, isHeavy: bool) returns (s': State)
    requires Reachable(c, s) && s.today == 0 && r in s.inFlight && s.inFlight[r] == Request(isHeavy, Passed)
    ensures Reachable(c, s') && s'.today == 0 && s'.inFlight == s.inFlight[r := Request(isHeavy, Metered)]
    ensures CountOn(s'.requests, 0) == CountOn(s.requests, 0) + 1
    ensures CountOn(s'.heavy, 0) == CountOn(s.heavy, 0) + if isHeavy then 1 else 0
  {
    s' := StepReaches(c, s, Meter(r));
  }

  /** On day 0 the first `done` of a crowd are metered, which the rows had not counted before. */
  ghost predicate DoneWith(s: State, requests: nat, heavies: nat, isHeavy: bool, k: nat, done: nat) {
    && s.today == 0 && done <= k && IsCrowd(s.inFlight, isHeavy, k, done)
    && CountOn(s.requests, 0) == requests + done
    && CountOn(s.heavy, 0) == heavies + if isHeavy then done else 0
  }

  lemma NextIsMetered(c: Config, s: State, requests: nat, heavies: nat, isHeavy: bool, k: nat, done: nat) returns (s': State)
    requires 0 < done <= k && Reachable(c, s) && DoneWith(s, requests, heavies, isHeavy, k, done - 1)
    ensures Reachable(c, s') && DoneWith(s', requests, heavies, isHeavy, k, done)
  {
    OneIsMeteredMore(s.inFlight, isHeavy, k, done - 1);
    s' := MeterReaches(c, s, done - 1, isHeavy);
  }

  lemma {:induction false} AllMetered(c: Config, s0: State, requests: nat, heavies: nat, isHeavy: bool, k: nat, done: nat)
    returns (s: State)
    requires done <= k && Reachable(c, s0) && DoneWith(s0, requests, heavies, isHeavy, k, 0)
    ensures Reachable(c, s) && DoneWith(s, requests, heavies, isHeavy, k, done)
    decreases done
  {
    if done == 0 {
      s := s0;
    } else {
      s := AllMetered(c, s0, requests, heavies, isHeavy, k, done - 1);
      s := NextIsMetered(c, s, requests, heavies, isHeavy, k, done);
    }
  }

  lemma BoundIsReached(c: Config, isHeavy: bool) returns (s: State)
    ensures Reachable(c, s)
    ensures CountOn(if isHeavy then s.heavy else s.requests, 0) == Bound(LimitFor(c, isHeavy), c.slots)
  {
    var limit := LimitFor(c, isHeavy);
    if c.slots == 0 || limit == 0 {
      StandsStill(Next(c), START);
      s := START;
    } else {
      var s0 := ServedOneByOne(c, isHeavy, limit - 1);
      var s1 := AllPass(c, s0, isHeavy, c.slots);
      s := AllMetered(c, s1, CountOn(s1.requests, 0), CountOn(s1.heavy, 0), isHeavy, c.slots, c.slots);
    }
  }

  /** The bounds are exact, for requests and for heavy requests: some run reaches them, whatever the
      limits and the number of slots. */
  lemma OvershootIsReached(c: Config, isHeavy: bool)
    ensures exists steps, s :: Run(Next(c), START, steps, s) && MeteredOn(steps, 0, isHeavy) == Bound(LimitFor(c, isHeavy), c.slots)
  {
    var s := BoundIsReached(c, isHeavy);
    var steps :| Run(Next(c), START, steps, s);
    RowsAreMetered(c, steps, s, 0);
  }
}
