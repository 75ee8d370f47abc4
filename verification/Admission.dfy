/** Check-all-then-increment: a request is admitted only if every bucket it falls into would take
    it, and a refused request is charged to none of them. */
module Admission {
  import opened Basics
  import opened FixedWindow

  /** Would one more hit be within the limit? */
  predicate WouldAllow(limit: int, window: real, buckets: Buckets, k: Key, now: real) {
    Hit(Live(buckets, window, k, now), now).count <= limit
  }

  /** `_retry_after_and_binding`: only the buckets that refused count; the binding one is the
      refusing bucket with the longest wait, the first of several. */
  function RetryAfterAndBinding(answers: seq<Answer>): (r: (int, Option<nat>))
    ensures r.1 == None <==> forall i | 0 <= i < |answers| :: answers[i].allowed
    ensures r.1 != None ==>
              && r.1.value < |answers| && !answers[r.1.value].allowed && r.0 == answers[r.1.value].retryAfter
              && (forall i | 0 <= i < |answers| && !answers[i].allowed :: answers[i].retryAfter <= r.0)
              && (forall i | 0 <= i < r.1.value && !answers[i].allowed :: answers[i].retryAfter < r.0)
  {
    if answers == [] then (0, None)
    else
      var init, last := answers[..|answers| - 1], answers[|answers| - 1];
      var (wait, binding) := RetryAfterAndBinding(init);
      if last.allowed || (binding != None && last.retryAfter <= wait) then (wait, binding)
      else (last.retryAfter, Some(|answers| - 1))
  }

  /** The answer of counter state `buckets` to one hit. */
  function AnswerAt(c: FixedWindowCounter, buckets: Buckets, k: Key, now: real): Answer {
    Decide(c.limit, c.window, Hit(Live(buckets, c.window, k, now), now), now)
  }

  predicate Fits(counters: seq<FixedWindowCounter>, keys: seq<Key>, times: seq<real>) {
    && |counters| == |keys| == |times|
    && (forall i, j | 0 <= i < j < |counters| :: counters[i] != counters[j])
    && (forall i | 0 <= i < |counters| :: 0.0 < counters[i].window)
  }

  /** The peek phase: an answer from every counter, and no live count changes. */
  method PeekAll(counters: seq<FixedWindowCounter>, keys: seq<Key>, peekedAt: seq<real>) returns (peeked: seq<Answer>)
    requires Fits(counters, keys, peekedAt)
    modifies counters
    ensures |peeked| == |counters|
    ensures forall i | 0 <= i < |counters| ::
              && peeked[i] == AnswerAt(counters[i], old(counters[i].buckets), keys[i], peekedAt[i])
              && SameLive(old(counters[i].buckets), counters[i].buckets, counters[i].window, peekedAt[i])
  {
    peeked := [];
    for i := 0 to |counters|
      invariant |peeked| == i
      invariant forall j | 0 <= j < i ::
                  && peeked[j] == AnswerAt(counters[j], old(counters[j].buckets), keys[j], peekedAt[j])
                  && SameLive(old(counters[j].buckets), counters[j].buckets, counters[j].window, peekedAt[j])
      invariant forall j | i <= j < |counters| :: counters[j].buckets == old(counters[j].buckets)
    {
      ghost var last := counters[i].lastSweep;
      var answer := counters[i].Peek(keys[i], peekedAt[i]);
      peeked := peeked + [answer];
      SweepKeepsLive(old(counters[i].buckets), counters[i].window, last, peekedAt[i]);
    }
  }

  /** The commit phase: one hit on every counter. */
  method AllowAll(counters: seq<FixedWindowCounter>, keys: seq<Key>, allowedAt: seq<real>) returns (answers: seq<Answer>)
    requires Fits(counters, keys, allowedAt)
    modifies counters
    ensures |answers| == |counters|
    ensures forall i | 0 <= i < |counters| ::
              && answers[i] == AnswerAt(counters[i], old(counters[i].buckets), keys[i], allowedAt[i])
              && keys[i] in counters[i].buckets
              && OneMore(Live(old(counters[i].buckets), counters[i].window, keys[i], allowedAt[i]),
                         counters[i].buckets[keys[i]], allowedAt[i])
  {
    answers := [];
    for i := 0 to |counters|
      invariant |answers| == i
      invariant forall j | 0 <= j < i ::
                  && answers[j] == AnswerAt(counters[j], old(counters[j].buckets), keys[j], allowedAt[j])
                  && keys[j] in counters[j].buckets
                  && OneMore(Live(old(counters[j].buckets), counters[j].window, keys[j], allowedAt[j]),
                             counters[j].buckets[keys[j]], allowedAt[j])
      invariant forall j | i <= j < |counters| :: counters[j].buckets == old(counters[j].buckets)
    {
      ghost var before, last := counters[i].buckets, counters[i].lastSweep;
      var answer := counters[i].Allow(keys[i], allowedAt[i]);
      AllowOnOneKey(before, counters[i].buckets, counters[i].window, counters[i].maxKeys, last, keys[i], allowedAt[i],
                    keys[i], allowedAt[i]);
      answers := answers + [answer];
    }
  }

  /** The peek and commit phases of `dispatch`, under the middleware's own lock, over the counters
      the request's tiers select.  Each counter reads the clock afresh in each phase. */
  method Dispatch(counters: seq<FixedWindowCounter>, keys: seq<Key>, peekedAt: seq<real>, allowedAt: seq<real>)
    returns (admitted: bool, retryAfter: int, binding: Option<nat>, answers: seq<Answer>)
    requires Fits(counters, keys, peekedAt) && |allowedAt| == |peekedAt|
    requires forall i | 0 <= i < |counters| :: peekedAt[i] <= allowedAt[i]
    modifies counters
    ensures admitted == (binding == None)
    ensures admitted <==> forall i | 0 <= i < |counters| ::
              AnswerAt(counters[i], old(counters[i].buckets), keys[i], peekedAt[i]).allowed
    // A refused request changes no live count.
    ensures !admitted ==> forall i | 0 <= i < |counters| ::
              SameLive(old(counters[i].buckets), counters[i].buckets, counters[i].window, peekedAt[i])
    // An admitted one is allowed by every counter and adds one to each.
    ensures admitted ==> |answers| == |counters| && forall i | 0 <= i < |counters| ::
              && answers[i].allowed
              && keys[i] in counters[i].buckets
              && OneMore(Live(old(counters[i].buckets), counters[i].window, keys[i], allowedAt[i]),
                         counters[i].buckets[keys[i]], allowedAt[i])
    // The advertised wait is that of the slowest refusing bucket, which is the binding one.
    ensures !admitted ==> binding.value < |counters| && forall i | 0 <= i < |counters| ::
              var answer := AnswerAt(counters[i], old(counters[i].buckets), keys[i], peekedAt[i]);
              && (!answer.allowed ==> answer.resetIn <= retryAfter)
              && (i == binding.value ==> !answer.allowed && answer.resetIn == retryAfter)
  {
    var peeked := PeekAll(counters, keys, peekedAt);
    retryAfter, binding := RetryAfterAndBinding(peeked).0, RetryAfterAndBinding(peeked).1;
    admitted, answers := binding == None, [];
    if admitted {
      label peekedAll:
      answers := AllowAll(counters, keys, allowedAt);
      forall i | 0 <= i < |counters|
        ensures answers[i].allowed
        ensures Live(old@peekedAll(counters[i].buckets), counters[i].window, keys[i], allowedAt[i])
                == Live(old(counters[i].buckets), counters[i].window, keys[i], allowedAt[i])
      {
        assert peeked[i].allowed;
        StillAllowed(counters[i].limit, counters[i].window, old(counters[i].buckets), old@peekedAll(counters[i].buckets),
                     keys[i], peekedAt[i], allowedAt[i]);
      }
    }
  }

  /** A tier's counter: the per-minute tiers have plain ones, the daily tiers bounded ones. */
  datatype Tier = Plain(plain: FixedWindowCounter) | Bounded(bounded: BoundedFixedWindowCounter)

  function CounterOf(t: Tier): FixedWindowCounter {
    match t
    case Plain(counter) => counter
    case Bounded(b) => b.counter
  }

  function Objects(t: Tier): set<object> {
    match t
    case Plain(counter) => {counter}
    case Bounded(b) => {b, b.counter}
  }

  function Footprint(tiers: seq<Tier>): set<object> { set t, o | t in tiers && o in Objects(t) :: o }

  ghost predicate TierValid(t: Tier)
    reads Objects(t)
  {
    t.Bounded? ==> t.bounded.Valid()
  }

  /** The tiers share nothing, and each gets a key and a clock reading. */
  ghost predicate TiersFit(tiers: seq<Tier>, keys: seq<Key>, times: seq<real>) {
    && |tiers| == |keys| == |times|
    && (forall i, j | 0 <= i < j < |tiers| :: Objects(tiers[i]) !! Objects(tiers[j]))
    && (forall i | 0 <= i < |tiers| :: 0.0 < CounterOf(tiers[i]).window)
  }

  /** The tier's answer, and its bucket with one hit more. */
  ghost predicate Charged(t: Tier, before: Buckets, k: Key, now: real, answer: Answer)
    reads CounterOf(t)
  {
    && answer == AnswerAt(CounterOf(t), before, k, now)
    && k in CounterOf(t).buckets
    && OneMore(Live(before, CounterOf(t).window, k, now), CounterOf(t).buckets[k], now)
    && Tells(answer, CounterOf(t).limit, CounterOf(t).window, CounterOf(t).buckets[k].start, CounterOf(t).buckets[k].count, now)
  }

  method ChargeTier(t: Tier, k: Key, now: real) returns (answer: Answer)
    requires TierValid(t) && 0.0 < CounterOf(t).window
    modifies Objects(t)
    ensures TierValid(t) && Charged(t, old(CounterOf(t).buckets), k, now, answer)
  {
    var c := CounterOf(t);
    ghost var before, last := c.buckets, c.lastSweep;
    match t
    case Plain(_) =>
      answer := c.Allow(k, now);
      AllowOnOneKey(before, c.buckets, c.window, c.maxKeys, last, k, now, k, now);
    case Bounded(b) =>
      ghost var freed := Freed(before, b.order, c.maxKeys, k);
      answer := b.Allow(k, now);
      AllowOnOneKey(freed, c.buckets, c.window, c.maxKeys, last, k, now, k, now);
      assert Live(freed, c.window, k, now) == Live(before, c.window, k, now);
  }

  ghost predicate AllValid(tiers: seq<Tier>)
    reads Footprint(tiers)
  {
    forall j | 0 <= j < |tiers| :: (InFootprint(tiers, j); TierValid(tiers[j]))
  }

  ghost function AllBuckets(tiers: seq<Tier>): (r: seq<Buckets>)
    reads Footprint(tiers)
    ensures |r| == |tiers| && forall j | 0 <= j < |tiers| :: (InFootprint(tiers, j); r[j] == CounterOf(tiers[j]).buckets)
  {
    if tiers == [] then []
    else
      var n := |tiers| - 1;
      FootprintGrows(tiers);
      AllBuckets(tiers[..n]) + [CounterOf(tiers[n]).buckets]
  }

  lemma FootprintGrows(tiers: seq<Tier>)
    requires tiers != []
    ensures Footprint(tiers[..|tiers| - 1]) <= Footprint(tiers)
    ensures CounterOf(tiers[|tiers| - 1]) in Footprint(tiers)
  {
    assert CounterOf(tiers[|tiers| - 1]) in Objects(tiers[|tiers| - 1]);
  }

  /** The first `i` tiers are charged, the others as they were, and all are in order. */
  ghost predicate ChargedUpTo(tiers: seq<Tier>, befores: seq<Buckets>, keys: seq<Key>, times: seq<real>, answers: seq<Answer>, i: nat)
    requires |tiers| == |befores| == |keys| == |times| && i <= |answers| && i <= |tiers|
    reads Footprint(tiers)
  {
    && AllValid(tiers)
    && (forall j | 0 <= j < i :: (InFootprint(tiers, j); Charged(tiers[j], befores[j], keys[j], times[j], answers[j])))
    && (forall j | i <= j < |tiers| :: (InFootprint(tiers, j); CounterOf(tiers[j]).buckets == befores[j]))
  }

  lemma NothingChargedYet(tiers: seq<Tier>, keys: seq<Key>, times: seq<real>)
    requires |tiers| == |keys| == |times| && AllValid(tiers)
    ensures ChargedUpTo(tiers, AllBuckets(tiers), keys, times, [], 0)
  {
  }

  method ChargeNext(tiers: seq<Tier>, keys: seq<Key>, times: seq<real>, answers: seq<Answer>, ghost befores: seq<Buckets>)
    returns (answers': seq<Answer>)
    requires TiersFit(tiers, keys, times) && |befores| == |tiers| && |answers| < |tiers|
    requires ChargedUpTo(tiers, befores, keys, times, answers, |answers|) && AllowedBefore(answers, |answers|)
    modifies Objects(tiers[|answers|])
    ensures |answers'| == |answers| + 1 && AllowedBefore(answers', |answers|)
    ensures ChargedUpTo(tiers, befores, keys, times, answers', |answers'|)
  {
    ghost var i := |answers|;
    InFootprint(tiers, i);
    label before:
    var answer := ChargeTier(tiers[|answers|], keys[|answers|], times[|answers|]);
    forall j | 0 <= j < |tiers| && j != i
      ensures TierValid(tiers[j]) && CounterOf(tiers[j]).buckets == old@before(CounterOf(tiers[j]).buckets)
    {
      TiersAreApart(tiers, keys, times, i, j);
    }
    answers' := answers + [answer];
  }

  /** Nothing in front of the `n`-th was refused. */
  predicate AllowedBefore(answers: seq<Answer>, n: nat) { forall i | 0 <= i < n && i < |answers| :: answers[i].allowed }

  /** `_anon_tier_check`: the tiers are charged one by one and the first refusal stops; the tiers
      behind it are not touched. */
  method ChargeInOrder(tiers: seq<Tier>, keys: seq<Key>, chargedAt: seq<real>)
    returns (refusedBy: Option<nat>, answers: seq<Answer>)
    requires TiersFit(tiers, keys, chargedAt) && AllValid(tiers)
    modifies Footprint(tiers)
    ensures refusedBy == None ==> |answers| == |tiers| && AllowedBefore(answers, |tiers|)
    ensures refusedBy != None ==>
              && |answers| == refusedBy.value + 1 <= |tiers| && !answers[refusedBy.value].allowed
              && AllowedBefore(answers, refusedBy.value)
    ensures ChargedUpTo(tiers, old(AllBuckets(tiers)), keys, chargedAt, answers, |answers|)
  {
    ghost var befores := AllBuckets(tiers);
    refusedBy, answers := None, [];
    NothingChargedYet(tiers, keys, chargedAt);
    for i := 0 to |tiers|
      invariant |answers| == i && refusedBy == None
      invariant ChargedUpTo(tiers, befores, keys, chargedAt, answers, i)
      invariant AllowedBefore(answers, i)
    {
      InFootprint(tiers, i);
      answers := ChargeNext(tiers, keys, chargedAt, answers, befores);
      if !answers[i].allowed {
        return Some(i), answers;
      }
    }
  }

  lemma InFootprint(tiers: seq<Tier>, i: nat)
    requires i < |tiers|
    ensures Objects(tiers[i]) <= Footprint(tiers)
  {
  }

  lemma TiersAreApart(tiers: seq<Tier>, keys: seq<Key>, times: seq<real>, i: nat, j: nat)
    requires TiersFit(tiers, keys, times) && i < |tiers| && j < |tiers| && i != j
    ensures CounterOf(tiers[j]) !in Objects(tiers[i])
    ensures tiers[j].Bounded? ==> tiers[j].bounded !in Objects(tiers[i])
  {
    assert if i < j then Objects(tiers[i]) !! Objects(tiers[j]) else Objects(tiers[j]) !! Objects(tiers[i]);
    assert CounterOf(tiers[j]) in Objects(tiers[j]);
    assert tiers[j].Bounded? ==> tiers[j].bounded in Objects(tiers[j]);
  }

  lemma SweepKeepsLive(buckets: Buckets, window: real, lastSweep: real, now: real)
    ensures SameLive(buckets, Swept(buckets, window, lastSweep, now), window, now)
  {
    forall k, t: real | now <= t
      ensures Live(buckets, window, k, t) == Live(Swept(buckets, window, lastSweep, now), window, k, t)
    {
      SweepIsInvisible(buckets, window, lastSweep, now, k, t);
    }
  }

  /** A hit that would be allowed stays so while the clock moves on and nobody else hits the key. */
  lemma StillAllowed(limit: int, window: real, peeked: Buckets, current: Buckets, k: Key, now: real, later: real)
    requires 0.0 < window && now <= later && SameLive(peeked, current, window, now)
    requires WouldAllow(limit, window, peeked, k, now)
    ensures WouldAllow(limit, window, current, k, later)
    ensures Live(current, window, k, later) == Live(peeked, window, k, later)
  {
    assert Live(peeked, window, k, later) == Live(current, window, k, later);
  }

  lemma CeilingIsAbove(x: real)
    ensures x <= Ceiling(x) as real
  {
  }

  /** One bucket of the retry: after the advertised wait it takes a hit, unless it never takes one. */
  lemma WaitIsLongEnough(limit: int, window: real, buckets: Buckets, k: Key, now: real, retryAfter: int, later: real)
    requires 0.0 < window && now + retryAfter as real <= later && 0 <= retryAfter
    requires !WouldAllow(limit, window, buckets, k, now) ==>
               Decide(limit, window, Hit(Live(buckets, window, k, now), now), now).resetIn <= retryAfter
    ensures WouldAllow(limit, window, buckets, k, later) <==> 1 <= limit
  {
    var hit := Hit(Live(buckets, window, k, now), now);
    if !WouldAllow(limit, window, buckets, k, now) {
      CeilingIsAbove(window - (now - hit.start));
    }
  }

  /** A request that is refused and repeated after the advertised wait, or later, with no other
      arrivals: it is admitted then exactly when no limit is zero. */
  method RefusedAndRepeated(counters: seq<FixedWindowCounter>, keys: seq<Key>, peekedAt: seq<real>, allowedAt: seq<real>,
                            delays: seq<real>)
    returns (admitted: bool, retryAfter: int, repeated: bool)
    requires Fits(counters, keys, peekedAt) && |allowedAt| == |delays| == |peekedAt|
    requires forall i | 0 <= i < |counters| :: peekedAt[i] <= allowedAt[i] && 0.0 <= delays[i]
    modifies counters
    ensures !admitted ==> (repeated <==> forall i | 0 <= i < |counters| :: 1 <= counters[i].limit)
  {
    ghost var refused := BucketsOf(counters);
    var binding, answers;
    admitted, retryAfter, binding, answers := Dispatch(counters, keys, peekedAt, allowedAt);
    repeated := false;
    if !admitted {
      ghost var current := BucketsOf(counters);
      var again := seq(|counters|, i requires 0 <= i < |counters| => peekedAt[i] + retryAfter as real + delays[i]);
      RetryIsAdmittedIff(counters, refused, current, keys, peekedAt, binding.value, retryAfter, again);
      var wait, slowest, counts;
      repeated, wait, slowest, counts := Dispatch(counters, keys, again, again);
    }
  }

  ghost function BucketsOf(counters: seq<FixedWindowCounter>): (r: seq<Buckets>)
    reads counters
    ensures |r| == |counters| && forall i | 0 <= i < |r| :: r[i] == counters[i].buckets
  {
    seq(|counters|, i requires 0 <= i < |counters| reads counters => counters[i].buckets)
  }

  lemma RetryIsAdmittedIff(counters: seq<FixedWindowCounter>, refused: seq<Buckets>, current: seq<Buckets>, keys: seq<Key>,
                           peekedAt: seq<real>, binding: nat, retryAfter: int, again: seq<real>)
    requires |counters| == |refused| == |current| == |keys| == |peekedAt| == |again|
    requires binding < |counters| && AnswerAt(counters[binding], refused[binding], keys[binding], peekedAt[binding]).resetIn == retryAfter
    requires forall i | 0 <= i < |counters| ::
               && 0.0 < counters[i].window && peekedAt[i] + retryAfter as real <= again[i]
               && SameLive(refused[i], current[i], counters[i].window, peekedAt[i])
               && (!AnswerAt(counters[i], refused[i], keys[i], peekedAt[i]).allowed ==>
                     AnswerAt(counters[i], refused[i], keys[i], peekedAt[i]).resetIn <= retryAfter)
    ensures (forall i | 0 <= i < |counters| :: AnswerAt(counters[i], current[i], keys[i], again[i]).allowed)
            <==> (forall i | 0 <= i < |counters| :: 1 <= counters[i].limit)
  {
    forall i | 0 <= i < |counters|
      ensures AnswerAt(counters[i], current[i], keys[i], again[i]).allowed <==> 1 <= counters[i].limit
    {
      var c := counters[i];
      WaitIsLongEnough(c.limit, c.window, refused[i], keys[i], peekedAt[i], retryAfter, again[i]);
      assert Live(refused[i], c.window, keys[i], again[i]) == Live(current[i], c.window, keys[i], again[i]);
    }
  }
}
