/** Lifecycle notices: one single-slot column `notify_pending` through which the dispatcher tells
    the nightly mailer that a subscription was verified or disabled. */
module Notices {
  import opened Basics
  import opened Runs

  datatype Notice = Created | Disabled | CreatedDisabled
  datatype Fact = WasVerified | WasDisabled

  function Facts(pending: Option<Notice>): set<Fact> {
    match pending
    case None => {}
    case Some(Created) => {WasVerified}
    case Some(Disabled) => {WasDisabled}
    case Some(CreatedDisabled) => {WasVerified, WasDisabled}
  }

  /** `_notify_disabled` where migration 0013 admits the combined value. */
  function WithDisabled(pending: Option<Notice>): Notice {
    if pending == Some(Created) || pending == Some(CreatedDisabled) then CreatedDisabled else Disabled
  }

  /** Nothing that was pending is forgotten, and only the disable is added. */
  lemma WithDisabledAdds(pending: Option<Notice>)
    ensures Facts(Some(WithDisabled(pending))) == Facts(pending) + {WasDisabled}
  {
  }

  /** `_notify_disabled` as it is: without the migration the combined value is not available. */
  function NotifyDisabled(pending: Option<Notice>, supportsCombined: bool): Notice {
    if supportsCombined then WithDisabled(pending) else Disabled
  }

  type MailerId = nat
  datatype Mailer = Read(value: Notice) | Sent(value: Notice)

  /** `session` is the value the dispatcher's session loaded with the row; it is not refreshed
      before a disable is written.  `occurred` and `mailed` are history. */
  datatype State = State(
    pending: Option<Notice>,
    session: Option<Option<Notice>>,
    mailers: map<MailerId, Mailer>,
    occurred: set<Fact>,
    mailed: set<Fact>)

  const START := State(None, None, map[], {}, {})

  datatype Step =
    | LoadRow
    | DropSession
    | Promote
    | DisableVerified
    | DisableUnverified
    | ReadPending(m: MailerId)
    | Send(m: MailerId)
    | ClearIfSame(m: MailerId)
    | StopMailer(m: MailerId)

  /** A subscription is verified at most once and disabled at most once (no reactivation). */
  predicate Enabled(s: State, step: Step) {
    match step
    case LoadRow => s.session == None
    case DropSession => s.session != None
    case Promote => s.session != None && s.occurred == {}
    case DisableVerified => s.session != None && s.occurred == {WasVerified}
    case DisableUnverified => s.session != None && s.occurred == {}
    case ReadPending(m) => m !in s.mailers && s.pending != None
    case Send(m) => m in s.mailers && s.mailers[m].Read?
    case ClearIfSame(m) => m in s.mailers && s.mailers[m].Sent?
    case StopMailer(m) => m in s.mailers
  }

  function Apply(supportsCombined: bool, s: State, step: Step): State
    requires Enabled(s, step)
  {
    match step
    case LoadRow => s.(session := Some(s.pending))
    case DropSession => s.(session := None)
    case Promote => s.(pending := Some(Created), session := None, occurred := s.occurred + {WasVerified})
    case DisableVerified =>
      s.(pending := Some(NotifyDisabled(s.session.value, supportsCombined)), session := None,
         occurred := s.occurred + {WasDisabled})
    case DisableUnverified => s.(pending := Some(Disabled), session := None, occurred := s.occurred + {WasDisabled})
    case ReadPending(m) => s.(mailers := s.mailers[m := Read(s.pending.value)])
    case Send(m) =>
      s.(mailers := s.mailers[m := Sent(s.mailers[m].value)], mailed := s.mailed + Facts(Some(s.mailers[m].value)))
    case ClearIfSame(m) =>
      s.(pending := if s.pending == Some(s.mailers[m].value) then None else s.pending, mailers := s.mailers - {m})
    case StopMailer(m) => s.(mailers := s.mailers - {m})
  }

  ghost function Next(supportsCombined: bool): (State, Step, State) -> bool {
    (s: State, step: Step, s': State) => Enabled(s, step) && s' == Apply(supportsCombined, s, step)
  }

  ghost predicate Reachable(supportsCombined: bool, s: State) {
    Reaches(Next(supportsCombined), START, s)
  }

  /** Every fact that occurred is mailed or still pending, and nothing else is. */
  predicate Exact(s: State) {
    s.mailed + Facts(s.pending) == s.occurred
  }

  ghost predicate Inv(s: State) {
    && Exact(s)
    && (s.session != None ==> s.mailed + Facts(s.session.value) == s.occurred)
    && (forall m | m in s.mailers :: Facts(Some(s.mailers[m].value)) <= s.occurred)
    && (forall m | m in s.mailers && s.mailers[m].Sent? :: Facts(Some(s.mailers[m].value)) <= s.mailed)
  }

  lemma StepKeepsInv(s: State, step: Step)
    requires Inv(s) && Enabled(s, step)
    ensures Inv(Apply(true, s, step))
  {
  }

  lemma ReachableIsExact(s: State)
    requires Reachable(true, s)
    ensures Exact(s)
  {
    var keeps := (x: State) => Inv(x);
    forall x, step, y | keeps(x) && Next(true)(x, step, y) ensures keeps(y) {
      StepKeepsInv(x, step);
    }
    ReachableKeeps(Next(true), keeps, START, s);
  }

  lemma StepReaches(supportsCombined: bool, s: State, step: Step) returns (s': State)
    requires Reachable(supportsCombined, s) && Enabled(s, step)
    ensures Reachable(supportsCombined, s') && s' == Apply(supportsCombined, s, step)
  {
    s' := Apply(supportsCombined, s, step);
    StepOn(Next(supportsCombined), START, s, step, s');
  }

  /** Without the combined value, a disable before the next mailing forgets the verification. */
  lemma FallbackLosesTheVerification() returns (s: State)
    ensures Reachable(false, s) && WasVerified in s.occurred && WasVerified !in s.mailed + Facts(s.pending)
  {
    StandsStill(Next(false), START);
    var s1 := StepReaches(false, START, LoadRow);
    var s2 := StepReaches(false, s1, Promote);
    var s3 := StepReaches(false, s2, LoadRow);
    s := StepReaches(false, s3, DisableVerified);
  }

  /** No notice is lost and none is invented, in any interleaving of the dispatcher with any
      number of mailers and their crashes, exactly when the combined value is available. */
  lemma NoticesAreExactIff(supportsCombined: bool)
    ensures (forall s | Reachable(supportsCombined, s) :: Exact(s)) <==> supportsCombined
  {
    if supportsCombined {
      forall s | Reachable(true, s) ensures Exact(s) {
        ReachableIsExact(s);
      }
    } else {
      var s := FallbackLosesTheVerification();
      assert !Exact(s);
    }
  }

  /** Exactness is not bought by silence: from every reachable state a mailer that nobody disturbs
      mails all that has occurred and leaves nothing pending. */
  lemma EverythingIsMailed(s: State, m: MailerId) returns (s': State)
    requires Reachable(true, s) && m !in s.mailers && s.pending != None
    ensures Run(Next(true), s, [ReadPending(m), Send(m), ClearIfSame(m)], s')
    ensures s'.pending == None && s'.mailed == s'.occurred == s.occurred && s'.mailers == s.mailers
  {
    ReachableIsExact(s);
    var s1 := Apply(true, s, ReadPending(m));
    var s2 := Apply(true, s1, Send(m));
    s' := Apply(true, s2, ClearIfSame(m));
    assert Run(Next(true), s', [], s');
    assert Run(Next(true), s2, [ClearIfSame(m)], s') by { assert [ClearIfSame(m)][1..] == []; }
    assert Run(Next(true), s1, [Send(m), ClearIfSame(m)], s') by { assert [Send(m), ClearIfSame(m)][1..] == [ClearIfSame(m)]; }
    assert [ReadPending(m), Send(m), ClearIfSame(m)][1..] == [Send(m), ClearIfSame(m)];
    assert s'.mailers == s.mailers;
  }

  /** A subscription that is verified and later disabled: a mailer that reads after both tells both. */
  lemma BothAreTold(m: MailerId) returns (s: State)
    ensures Reachable(true, s) && s.pending == None && s.mailed == {WasVerified, WasDisabled}
  {
    StandsStill(Next(true), START);
    s := StepReaches(true, START, LoadRow);
    s := StepReaches(true, s, Promote);
    s := StepReaches(true, s, LoadRow);
    s := StepReaches(true, s, DisableVerified);
    var before := s;
    s := EverythingIsMailed(before, m);
    ReachesFurther(Next(true), START, before, s);
  }

  // ----- the mailer's loop -----

  type SubscriptionId = nat
  type Flags = map<SubscriptionId, Notice>
  datatype Row = Row(id: SubscriptionId, notice: Notice)

  function FlagOf(flags: Flags, id: SubscriptionId): Option<Notice> { if id in flags then Some(flags[id]) else None }

  /** The rows whose mail went out. */
  function MailedRows(rows: seq<Row>, delivers: SubscriptionId -> bool): set<Row> { set r | r in rows && delivers(r.id) }

  /** The flags if only the dispatcher wrote them: `writes(i)` while the i-th row was on its way. */
  function AfterWrites(flags: Flags, writes: nat -> Flags, n: nat): Flags {
    if n == 0 then flags else AfterWrites(flags, writes, n - 1) + writes(n - 1)
  }

  /** The i-th row went out, and its subscription had just the value that was sent. */
  predicate ClearsAt(flags: Flags, writes: nat -> Flags, rows: seq<Row>, delivers: SubscriptionId -> bool, i: nat) {
    i < |rows| && delivers(rows[i].id) && FlagOf(AfterWrites(flags, writes, i + 1), rows[i].id) == Some(rows[i].notice)
  }

  predicate WrittenBetween(writes: nat -> Flags, start: nat, end: nat, id: SubscriptionId) {
    exists j :: start <= j < end && id in writes(j)
  }

  /** After `n` rows: the flag was cleared and nothing was written since. */
  ghost predicate IsCleared(flags: Flags, writes: nat -> Flags, rows: seq<Row>, delivers: SubscriptionId -> bool, n: nat, id: SubscriptionId) {
    exists i :: 0 <= i < n && i < |rows| && rows[i].id == id && ClearsAt(flags, writes, rows, delivers, i) && !WrittenBetween(writes, i + 1, n, id)
  }

  /** What is pending after `n` rows. */
  ghost predicate LeftAfter(flags: Flags, left: Flags, writes: nat -> Flags, rows: seq<Row>, delivers: SubscriptionId -> bool, n: nat) {
    forall id :: FlagOf(left, id) == if IsCleared(flags, writes, rows, delivers, n, id) then None
                                     else FlagOf(AfterWrites(flags, writes, n), id)
  }

  /** A flag is cleared only if its last value is the one that was sent: a notice that has not gone
      out is never lost, whenever it was written. */
  lemma OnlySentValuesAreCleared(flags: Flags, writes: nat -> Flags, rows: seq<Row>, delivers: SubscriptionId -> bool, n: nat, id: SubscriptionId)
    requires IsCleared(flags, writes, rows, delivers, n, id)
    ensures exists row :: row in MailedRows(rows, delivers) && row.id == id
                          && FlagOf(AfterWrites(flags, writes, n), id) == Some(row.notice)
  {
    var i :| 0 <= i < n && i < |rows| && rows[i].id == id && ClearsAt(flags, writes, rows, delivers, i)
             && !WrittenBetween(writes, i + 1, n, id);
    UnwrittenStays(flags, writes, i + 1, n, id);
    assert rows[i] in MailedRows(rows, delivers);
  }

  /** And a value that was sent and that nobody wrote to meanwhile is cleared, so that it is sent once. */
  lemma SentValuesAreCleared(flags: Flags, left: Flags, writes: nat -> Flags, rows: seq<Row>, delivers: SubscriptionId -> bool, i: nat)
    requires i < |rows| && delivers(rows[i].id) && FlagOf(flags, rows[i].id) == Some(rows[i].notice)
    requires !WrittenBetween(writes, 0, |rows|, rows[i].id)
    requires LeftAfter(flags, left, writes, rows, delivers, |rows|)
    ensures rows[i].id !in left
  {
    var id := rows[i].id;
    assert !WrittenBetween(writes, 0, i + 1, id) && !WrittenBetween(writes, i + 1, |rows|, id);
    UnwrittenStays(flags, writes, 0, i + 1, id);
    assert ClearsAt(flags, writes, rows, delivers, i);
    assert IsCleared(flags, writes, rows, delivers, |rows|, id);
  }

  lemma {:induction false} UnwrittenStays(flags: Flags, writes: nat -> Flags, start: nat, end: nat, id: SubscriptionId)
    requires start <= end && !WrittenBetween(writes, start, end, id)
    ensures FlagOf(AfterWrites(flags, writes, end), id) == FlagOf(AfterWrites(flags, writes, start), id)
    decreases end
  {
    if start < end {
      UnwrittenStays(flags, writes, start, end - 1, id);
    }
  }

  lemma OneMoreMailed(rows: seq<Row>, row: Row, delivers: SubscriptionId -> bool)
    requires row !in rows
    ensures |MailedRows(rows + [row], delivers)| == |MailedRows(rows, delivers)| + if delivers(row.id) then 1 else 0
  {
    assert MailedRows(rows + [row], delivers) == MailedRows(rows, delivers) + if delivers(row.id) then {row} else {};
  }

  ghost predicate OneRowEach(rows: seq<Row>) { forall i, j | 0 <= i < j < |rows| :: rows[i].id < rows[j].id }

  lemma ClearedStaysCleared(flags: Flags, writes: nat -> Flags, rows: seq<Row>, delivers: SubscriptionId -> bool, n: nat, id: SubscriptionId)
    requires n < |rows|
    requires || (rows[n].id == id && ClearsAt(flags, writes, rows, delivers, n))
             || (IsCleared(flags, writes, rows, delivers, n, id) && id !in writes(n))
    ensures IsCleared(flags, writes, rows, delivers, n + 1, id)
  {
    if rows[n].id == id && ClearsAt(flags, writes, rows, delivers, n) {
      assert !WrittenBetween(writes, n + 1, n + 1, id);
    } else {
      var i :| 0 <= i < n && i < |rows| && rows[i].id == id && ClearsAt(flags, writes, rows, delivers, i)
               && !WrittenBetween(writes, i + 1, n, id);
      UnwrittenFurther(writes, i + 1, n, id);
      assert ClearsAt(flags, writes, rows, delivers, i);
    }
  }

  lemma UnwrittenFurther(writes: nat -> Flags, start: nat, end: nat, id: SubscriptionId)
    requires !WrittenBetween(writes, start, end, id) && id !in writes(end)
    ensures !WrittenBetween(writes, start, end + 1, id)
  {
  }

  lemma ClearedOnce(flags: Flags, writes: nat -> Flags, rows: seq<Row>, delivers: SubscriptionId -> bool, n: nat, id: SubscriptionId)
    requires n < |rows| && IsCleared(flags, writes, rows, delivers, n + 1, id)
    ensures || (rows[n].id == id && ClearsAt(flags, writes, rows, delivers, n))
            || (IsCleared(flags, writes, rows, delivers, n, id) && id !in writes(n))
  {
    var i :| 0 <= i < n + 1 && i < |rows| && rows[i].id == id && ClearsAt(flags, writes, rows, delivers, i)
             && !WrittenBetween(writes, i + 1, n + 1, id);
    if i < n {
      assert id !in writes(n) && !WrittenBetween(writes, i + 1, n, id);
    }
  }

  /** The flag of one subscription over one more row. */
  lemma OneMoreCleared(flags: Flags, writes: nat -> Flags, rows: seq<Row>, delivers: SubscriptionId -> bool, n: nat, id: SubscriptionId)
    requires n < |rows| && OneRowEach(rows)
    ensures IsCleared(flags, writes, rows, delivers, n + 1, id)
            <==> || (rows[n].id == id && ClearsAt(flags, writes, rows, delivers, n))
                 || (IsCleared(flags, writes, rows, delivers, n, id) && id !in writes(n))
    ensures rows[n].id == id ==> !IsCleared(flags, writes, rows, delivers, n, id)
  {
    if (rows[n].id == id && ClearsAt(flags, writes, rows, delivers, n))
       || (IsCleared(flags, writes, rows, delivers, n, id) && id !in writes(n)) {
      ClearedStaysCleared(flags, writes, rows, delivers, n, id);
    }
    if IsCleared(flags, writes, rows, delivers, n + 1, id) {
      ClearedOnce(flags, writes, rows, delivers, n, id);
    }
  }

  /** One more row: the dispatcher writes while it is on its way, then the flag is compared. */
  lemma OneMoreRow(flags: Flags, left: Flags, writes: nat -> Flags, rows: seq<Row>, delivers: SubscriptionId -> bool, n: nat)
    requires n < |rows| && OneRowEach(rows) && LeftAfter(flags, left, writes, rows, delivers, n)
    ensures var row, written := rows[n], left + writes(n);
            LeftAfter(flags, if delivers(row.id) && FlagOf(written, row.id) == Some(row.notice) then written - {row.id} else written,
                      writes, rows, delivers, n + 1)
  {
    var row, written := rows[n], left + writes(n);
    var left' := if delivers(row.id) && FlagOf(written, row.id) == Some(row.notice) then written - {row.id} else written;
    forall id ensures FlagOf(left', id) == if IsCleared(flags, writes, rows, delivers, n + 1, id) then None
                                           else FlagOf(AfterWrites(flags, writes, n + 1), id)
    {
      OneMoreCleared(flags, writes, rows, delivers, n, id);
    }
  }

  lemma FlagsThatAreLeft(flags: Flags, left: Flags, writes: nat -> Flags, rows: seq<Row>, delivers: SubscriptionId -> bool, n: nat)
    requires LeftAfter(flags, left, writes, rows, delivers, n)
    ensures forall id :: id in left <==> id in AfterWrites(flags, writes, n) && !IsCleared(flags, writes, rows, delivers, n, id)
    ensures forall id <- left :: left[id] == AfterWrites(flags, writes, n)[id]
  {
    var written := AfterWrites(flags, writes, n);
    forall id
      ensures id in left <==> id in written && !IsCleared(flags, writes, rows, delivers, n, id)
      ensures id in left ==> left[id] == written[id]
    {
      assert FlagOf(left, id) == if IsCleared(flags, writes, rows, delivers, n, id) then None else FlagOf(written, id);
    }
  }

  class Outbox {
    var pending: Flags

    /** `drain_webhook_notifications` over the rows it read: send, then clear the flag if it still
        has the value that was sent; a failed send leaves the flag for the next night.  The
        dispatcher may write flags while any row is on its way. */
    method DrainNotifications(rows: seq<Row>, delivers: SubscriptionId -> bool, writes: nat -> Flags)
      returns (sent: nat, failed: nat)
      requires OneRowEach(rows)
      modifies this
      ensures sent == |MailedRows(rows, delivers)|
      ensures sent + failed == |rows|
      ensures LeftAfter(old(pending), pending, writes, rows, delivers, |rows|)
      ensures forall id :: id in pending <==> && id in AfterWrites(old(pending), writes, |rows|)
                                              && !IsCleared(old(pending), writes, rows, delivers, |rows|, id)
      ensures forall id <- pending :: pending[id] == AfterWrites(old(pending), writes, |rows|)[id]
    {
      sent, failed := 0, 0;
      for i := 0 to |rows|
        invariant sent + failed == i && sent == |MailedRows(rows[..i], delivers)|
        invariant LeftAfter(old(pending), pending, writes, rows, delivers, i)
      {
        var row := rows[i];
        assert rows[..i + 1] == rows[..i] + [row];
        OneMoreMailed(rows[..i], row, delivers);
        OneMoreRow(old(pending), pending, writes, rows, delivers, i);
        var delivered := delivers(row.id);
        pending := pending + writes(i);
        if !delivered {
          failed := failed + 1;
        } else {
          if row.id in pending && pending[row.id] == row.notice {
            pending := pending - {row.id};
          }
          sent := sent + 1;
        }
      }
      assert rows[..|rows|] == rows;
      FlagsThatAreLeft(old(pending), pending, writes, rows, delivers, |rows|);
    }
  }
}
