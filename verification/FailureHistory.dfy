/** What the failure counters of a subscription mean: closed forms over the attempts of one
    activation, and the exact runs of attempts on which each disable rule fires. */
module FailureHistory {
  import opened Basics

  datatype ErrorClass =
    | Http4xx | Http429 | Http4xxRetryable | Http5xx
    | Timeout | Tls | Dns | SsrfRejected | TooLarge | Connection | Transport
    | Internal | PayloadTooLarge

  datatype Reason = Gone | NonRetryableClientError | TooManyFailures | PayloadTooLargeRun | UnknownScope

  /** One row of `webhook_deliveries`.  `error == None` is an accepted delivery; a skip carries
      `PayloadTooLarge` and no status, since no request was made; the row of a crash has no events. */
  datatype Delivery = Delivery(
    firstSeq: Option<nat>, lastSeq: Option<nat>, eventCount: nat, status: Option<int>, error: Option<ErrorClass>, at: int)
  {
    predicate Succeeded() { error == None }
    predicate Skipped() { error == Some(PayloadTooLarge) }
    predicate Failed() { error != None && error != Some(PayloadTooLarge) }
    predicate HardFailure() { Failed() && status != None && status.value in NON_RETRYABLE_4XX }
    predicate GoneFailure() { Failed() && status == Some(410) }
  }

  const NON_RETRYABLE_4XX := {400, 401, 403, 404, 405, 406, 411, 413, 414, 415, 422}
  const AUTO_DISABLE_AFTER := 72 * 3600 * 1_000_000
  const OVERSIZED_SKIP_DISABLE_AFTER := 2160

  /** `classify_http_status`: the error class of a completed response. */
  function ClassifyHttpStatus(status: int): Option<ErrorClass> {
    if 200 <= status < 300 then None
    else if status == 410 then Some(Http4xx)
    else if status == 429 then Some(Http429)
    else if status in NON_RETRYABLE_4XX then Some(Http4xx)
    else if 400 <= status < 500 then Some(Http4xxRetryable)
    else Some(Http5xx)
  }

  /** Every row carries the class its status determines, or a class of its own without status. */
  predicate WellClassified(d: Delivery) {
    && (d.status != None ==> d.error == ClassifyHttpStatus(d.status.value))
    && (d.status == None ==> d.error != None && d.error.value !in {Http4xx, Http429, Http4xxRetryable, Http5xx})
  }

  // ----- the counters, as `_record_failure`, `_record_skip` and `_record_success` step them -----

  datatype Health = Health(consecutiveFailures: nat, failingSince: Option<int>, lastError: Option<ErrorClass>)

  const HEALTHY := Health(0, None, None)

  function Streak(h: Health, error: ErrorClass): nat {
    (if h.lastError != None && Some(error) != h.lastError then 0 else h.consecutiveFailures) + 1
  }

  function AfterFailure(h: Health, error: ErrorClass, now: int): Health {
    Health(Streak(h, error), if h.failingSince == None then Some(now) else h.failingSince, Some(error))
  }

  function AfterSkip(h: Health, error: ErrorClass): Health {
    Health(Streak(h, error), None, Some(error))
  }

  function AfterSuccess(h: Health): Health {
    Health(0, None, None)
  }

  function After(h: Health, d: Delivery): Health {
    if d.Succeeded() then AfterSuccess(h)
    else if d.Skipped() then AfterSkip(h, d.error.value)
    else AfterFailure(h, d.error.value, d.at)
  }

  /** The counters after all attempts of an activation. */
  function Replay(ds: seq<Delivery>): Health {
    if ds == [] then HEALTHY else After(Replay(ds[..|ds| - 1]), ds[|ds| - 1])
  }

  /** `_delivery_attempt`: the ordinal sent to the receiver. */
  function DeliveryAttempt(h: Health): nat {
    if h.lastError == Some(PayloadTooLarge) then 1 else h.consecutiveFailures + 1
  }

  /** The decision after a failed POST, once the counters include it. */
  function FailureVerdict(h: Health, status: Option<int>, now: int): Option<Reason> {
    if status == Some(410) then Some(Gone)
    else if status != None && status.value in NON_RETRYABLE_4XX && h.consecutiveFailures >= 3 then Some(NonRetryableClientError)
    else if h.failingSince != None && now - h.failingSince.value > AUTO_DISABLE_AFTER then Some(TooManyFailures)
    else None
  }

  /** The decision `_drain_one` takes once the counters include the attempt `d`. */
  function Verdict(h: Health, d: Delivery): Option<Reason> {
    if d.Succeeded() then None
    else if d.Skipped() then
      if h.consecutiveFailures >= OVERSIZED_SKIP_DISABLE_AFTER then Some(PayloadTooLargeRun) else None
    else FailureVerdict(h, d.status, d.at)
  }

  function VerdictOn(ds: seq<Delivery>): Option<Reason>
    requires ds != []
  {
    Verdict(Replay(ds), ds[|ds| - 1])
  }

  /** An activation goes on only while no attempt disabled the subscription. */
  predicate Activation(ds: seq<Delivery>) {
    ds != [] ==>
      var n := |ds| - 1;
      WellClassified(ds[n]) && Activation(ds[..n]) && (n > 0 ==> VerdictOn(ds[..n]) == None)
  }

  lemma {:induction false} AttemptsOfActivation(ds: seq<Delivery>, i: nat)
    requires Activation(ds) && i < |ds|
    ensures WellClassified(ds[i])
    ensures i + 1 < |ds| ==> VerdictOn(ds[..i + 1]) == None
    decreases |ds|
  {
    var n := |ds| - 1;
    if i < n {
      var init := ds[..n];
      AttemptsOfActivation(init, i);
      assert init[i] == ds[i];
      if i + 1 < n { assert init[..i + 1] == ds[..i + 1]; } else { assert ds[..i + 1] == init; }
    }
  }

  // ----- closed forms -----

  /** The last `n` attempts are exactly the trailing run of one error class. */
  ghost predicate TrailingRun(ds: seq<Delivery>, n: nat) {
    && n <= |ds|
    && (forall i | |ds| - n <= i < |ds| :: ds[i].error == ds[|ds| - 1].error && ds[i].error != None)
    && (n < |ds| ==> ds[|ds| - n - 1].error == None || ds[|ds| - n - 1].error != ds[|ds| - 1].error)
  }

  /** Attempt `i` is the first real failure since the last success or skip. */
  ghost predicate FirstOfFailures(ds: seq<Delivery>, i: nat) {
    && i < |ds|
    && (forall j | i <= j < |ds| :: ds[j].Failed())
    && (i > 0 ==> !ds[i - 1].Failed())
  }

  /** The counters are exact functions of the attempt history. */
  lemma {:induction false} CountersAreExact(ds: seq<Delivery>)
    ensures TrailingRun(ds, Replay(ds).consecutiveFailures)
    ensures Replay(ds).lastError == if ds == [] then None else ds[|ds| - 1].error
    ensures Replay(ds).failingSince == None <==> (ds == [] || !ds[|ds| - 1].Failed())
    ensures Replay(ds).failingSince != None ==>
              exists i: nat :: FirstOfFailures(ds, i) && Replay(ds).failingSince == Some(ds[i].at)
    decreases |ds|
  {
    if ds != [] {
      var before, last := ds[..|ds| - 1], ds[|ds| - 1];
      CountersAreExact(before);
      var h := Replay(before);
      if last.Failed() {
        if h.failingSince == None {
          assert FirstOfFailures(ds, |ds| - 1);
        } else {
          var i: nat :| FirstOfFailures(before, i) && h.failingSince == Some(before[i].at);
          assert FirstOfFailures(ds, i) && ds[i].at == before[i].at;
        }
      }
    }
  }

  lemma TrailingRunIsUnique(ds: seq<Delivery>, m: nat, n: nat)
    requires TrailingRun(ds, m) && TrailingRun(ds, n)
    ensures m == n
  {
  }

  lemma FirstOfFailuresIsUnique(ds: seq<Delivery>, i: nat, j: nat)
    requires FirstOfFailures(ds, i) && FirstOfFailures(ds, j)
    ensures i == j
  {
  }

  // ----- when each rule fires -----

  ghost predicate LastAre(ds: seq<Delivery>, n: nat, p: Delivery -> bool) {
    n <= |ds| && forall i | |ds| - n <= i < |ds| :: p(ds[i])
  }

  ghost predicate FailingLongerThan(ds: seq<Delivery>, limit: int) {
    exists i: nat :: FirstOfFailures(ds, i) && ds[|ds| - 1].at - ds[i].at > limit
  }

  /** Within an activation no earlier attempt was a 410. */
  lemma EarlierWereNotGone(ds: seq<Delivery>, i: nat)
    requires Activation(ds) && i + 1 < |ds|
    ensures !ds[i].GoneFailure()
  {
    AttemptsOfActivation(ds, i);
    assert ds[..i + 1][i] == ds[i];
  }

  /** The third consecutive hard 4xx disables, and nothing else counts towards it. */
  lemma ThreeStrikesExactly(ds: seq<Delivery>)
    requires ds != [] && Activation(ds)
    ensures VerdictOn(ds) == Some(NonRetryableClientError) <==> LastAre(ds, 3, IsHard)
  {
    CountersAreExact(ds);
    var n := Replay(ds).consecutiveFailures;
    var last := |ds| - 1;
    forall i | 0 <= i < |ds| ensures WellClassified(ds[i]) { AttemptsOfActivation(ds, i); }
    if VerdictOn(ds) == Some(NonRetryableClientError) {
      forall i | |ds| - 3 <= i < |ds| ensures IsHard(ds[i]) {
        assert ds[i].error == ds[last].error == Some(Http4xx);
        assert WellClassified(ds[i]);
        if i < last { EarlierWereNotGone(ds, i); }
      }
    }
    if LastAre(ds, 3, IsHard) {
      forall i | |ds| - 3 <= i < |ds| ensures ds[i].error == Some(Http4xx) {
        assert WellClassified(ds[i]);
      }
      assert n >= 3;
    }
  }

  /** A client error that a retry cannot mend. */
  predicate IsHard(d: Delivery) {
    d.status != None && d.status.value in {400, 401, 403, 404, 405, 406, 411, 413, 414, 415, 422}
  }

  /** A run of 2160 skips disables, and only a run of nothing but skips. */
  lemma SkipRunExactly(ds: seq<Delivery>)
    requires ds != []
    ensures VerdictOn(ds) == Some(PayloadTooLargeRun) <==> LastAre(ds, 2160, IsSkip)
  {
    CountersAreExact(ds);
    var n := Replay(ds).consecutiveFailures;
    if LastAre(ds, 2160, IsSkip) {
      assert forall i | |ds| - 2160 <= i < |ds| :: ds[i].error == Some(PayloadTooLarge);
    }
  }

  predicate IsSkip(d: Delivery) { d.error == Some(PayloadTooLarge) }

  /** 410 disables at once. */
  lemma GoneExactly(ds: seq<Delivery>)
    requires ds != [] && Activation(ds)
    ensures VerdictOn(ds) == Some(Gone) <==> ds[|ds| - 1].status == Some(410)
  {
  }

  /** The 72-hour rule fires exactly on a run of nothing but real failures that is older than 72
      hours, unless one of the two immediate rules fires on the same attempt. */
  lemma SeventyTwoHoursExactly(ds: seq<Delivery>)
    requires ds != [] && Activation(ds)
    ensures VerdictOn(ds) == Some(TooManyFailures)
            <==> && FailingLongerThan(ds, 72 * 3600 * 1_000_000)
                 && ds[|ds| - 1].status != Some(410)
                 && !LastAre(ds, 3, IsHard)
  {
    CountersAreExact(ds);
    ThreeStrikesExactly(ds);
    if FailingLongerThan(ds, AUTO_DISABLE_AFTER) {
      var i: nat :| FirstOfFailures(ds, i) && ds[|ds| - 1].at - ds[i].at > AUTO_DISABLE_AFTER;
      assert ds[|ds| - 1].Failed();
      var j: nat :| FirstOfFailures(ds, j) && Replay(ds).failingSince == Some(ds[j].at);
      FirstOfFailuresIsUnique(ds, i, j);
    }
  }

  /** The last attempt meets one of the four rules, in terms of the attempts alone. */
  ghost predicate MeetsARule(ds: seq<Delivery>)
    requires ds != []
  {
    || ds[|ds| - 1].status == Some(410)
    || LastAre(ds, 3, IsHard)
    || LastAre(ds, 2160, IsSkip)
    || FailingLongerThan(ds, 72 * 3600 * 1_000_000)
  }

  lemma NoFifthRule(ds: seq<Delivery>)
    requires ds != []
    ensures VerdictOn(ds) in {None, Some(Gone), Some(NonRetryableClientError), Some(PayloadTooLargeRun), Some(TooManyFailures)}
  {
  }

  /** The decision on an attempt, in terms of the attempts alone: a subscription goes on exactly when
      its last attempt meets none of the four rules. */
  lemma VerdictIsExactly(ds: seq<Delivery>)
    requires ds != [] && Activation(ds)
    ensures VerdictOn(ds) ==
            if ds[|ds| - 1].status == Some(410) then Some(Gone)
            else if LastAre(ds, 3, IsHard) then Some(NonRetryableClientError)
            else if LastAre(ds, 2160, IsSkip) then Some(PayloadTooLargeRun)
            else if FailingLongerThan(ds, 72 * 3600 * 1_000_000) then Some(TooManyFailures)
            else None
    ensures VerdictOn(ds) == None <==> !MeetsARule(ds)
  {
    GoneExactly(ds);
    ThreeStrikesExactly(ds);
    SkipRunExactly(ds);
    SeventyTwoHoursExactly(ds);
    NoFifthRule(ds);
  }

  /** Two statuses count towards one run exactly when both are 2xx, both 429, both hard or 410, both
      another 4xx, or both none of these. */
  lemma ClassesAreApart(s: int, t: int)
    ensures ClassifyHttpStatus(s) == ClassifyHttpStatus(t) <==> Family(s) == Family(t)
    ensures ClassifyHttpStatus(s) == None <==> 200 <= s <= 299
  {
  }

  /** The families of statuses, as their documentation lists them. */
  function Family(s: int): nat {
    if s in {400, 401, 403, 404, 405, 406, 410, 411, 413, 414, 415, 422} then 1
    else if s == 429 then 2
    else if s / 100 == 2 then 3
    else if s / 100 == 4 then 4
    else 5
  }

  /** The ordinal a receiver sees is one more than the length of the trailing run of its own
      failures: a run of skips, which it never saw, counts for nothing. */
  lemma AttemptOrdinalIsExact(ds: seq<Delivery>, n: nat)
    requires TrailingRun(ds, n)
    ensures DeliveryAttempt(Replay(ds)) == if ds != [] && ds[|ds| - 1].Skipped() then 1 else n + 1
  {
    CountersAreExact(ds);
    var m := Replay(ds).consecutiveFailures;
    TrailingRunIsUnique(ds, m, n);
  }
}
