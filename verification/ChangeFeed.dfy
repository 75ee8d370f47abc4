/** The append-only change log `bill_events`: writers allocate `seq` at INSERT, stamp every row
    with the start of their transaction, and become visible at COMMIT.  Readers serve from behind
    a watermark that trails the clock by a safety lag.

    Time is an integer number of microseconds, the resolution of a Postgres timestamp. */
module ChangeFeed {

  type BillId = nat
  type Kind = string
  type TxnId = nat

  datatype Event = Event(seqNo: nat, bill: BillId, kind: Kind, changedAt: nat)

  /** A subscription's scope: the bills its target selects and its `event_kinds`, where no kinds
      at all means no restriction. */
  datatype Filter = Filter(bills: set<BillId>, kinds: set<Kind>)

  predicate InScope(f: Filter, e: Event) {
    e.bill in f.bills && (f.kinds == {} || e.kind in f.kinds)
  }

  /** An open writing transaction: when it started and the rows only it can see. */
  datatype Txn = Txn(start: nat, inserted: set<Event>)

  /** `visible` is the table as a new snapshot reads it; `committed` remembers every row that ever
      committed, also after the delete of its bill cascaded over it. */
  datatype Feed = Feed(
    clock: nat,
    nextSeq: nat,
    open: map<TxnId, Txn>,
    visible: set<Event>,
    committed: set<Event>,
    deleted: set<BillId>)

  const EMPTY_FEED := Feed(0, 1, map[], {}, {}, {})

  datatype FeedStep =
    | Begin(t: TxnId)
    | Insert(t: TxnId, bill: BillId, kind: Kind)
    | Commit(t: TxnId)
    | Abort(t: TxnId)
    | DeleteBill(bill: BillId)
    | Tick(elapsed: nat)

  /** When a step can happen.  `Tick` carries the one assumption about writers: no transaction is
      still open more than `maxTxn` after it started.  The foreign key blocks an insert for a
      deleted bill, and the delete of a bill that an open transaction refers to. */
  predicate FeedEnabled(maxTxn: nat, f: Feed, step: FeedStep) {
    match step
    case Begin(t) => t !in f.open
    case Insert(t, bill, _) => t in f.open && bill !in f.deleted
    case Commit(t) => t in f.open
    case Abort(t) => t in f.open
    case DeleteBill(bill) => forall t, e | t in f.open && e in f.open[t].inserted :: e.bill != bill
    case Tick(elapsed) => forall t | t in f.open :: f.clock + elapsed <= f.open[t].start + maxTxn
  }

  function FeedApply(maxTxn: nat, f: Feed, step: FeedStep): Feed
    requires FeedEnabled(maxTxn, f, step)
  {
    match step
    case Begin(t) => f.(open := f.open[t := Txn(f.clock, {})])
    case Insert(t, bill, kind) =>
      var row := Event(f.nextSeq, bill, kind, f.open[t].start);
      f.(nextSeq := f.nextSeq + 1, open := f.open[t := f.open[t].(inserted := f.open[t].inserted + {row})])
    case Commit(t) =>
      f.(open := f.open - {t},
         visible := f.visible + f.open[t].inserted,
         committed := f.committed + f.open[t].inserted)
    case Abort(t) => f.(open := f.open - {t})
    case DeleteBill(bill) =>
      f.(visible := (set e | e in f.visible && e.bill != bill), deleted := f.deleted + {bill})
    case Tick(elapsed) => f.(clock := f.clock + elapsed)
  }

  /** The largest `seq` in a set of rows, 0 for none: `coalesce(max(seq), 0)`. */
  ghost function MaxSeq(rows: set<Event>): (m: nat)
    ensures forall e | e in rows :: e.seqNo <= m
    ensures m == 0 || exists e :: e in rows && e.seqNo == m
  {
    if rows == {} then 0
    else
      var e :| e in rows;
      var rest := MaxSeq(rows - {e});
      assert rows == rows - {e} + {e};
      if e.seqNo > rest then e.seqNo else rest
  }

  /** `compute_watermark` by a transaction that began at `readAt`. */
  ghost function Watermark(lag: nat, f: Feed, readAt: nat): nat {
    MaxSeq(set e | e in f.visible && e.changedAt + lag <= readAt)
  }

  /** No row with a `seq` at or below `w` can still become visible. */
  ghost predicate Settled(f: Feed, w: nat) {
    && w < f.nextSeq
    && forall t, e | t in f.open && e in f.open[t].inserted :: w < e.seqNo
  }

  /** Row `w` got its `seq` while its own transaction was open, so every transaction that already
      held a smaller one had started by `w.changedAt + maxTxn`. */
  ghost predicate StartedBefore(maxTxn: nat, start: nat, e: Event, w: Event) {
    e.seqNo <= w.seqNo ==> start <= w.changedAt + maxTxn
  }

  ghost predicate FeedInv(maxTxn: nat, f: Feed) {
    && f.visible == (set e | e in f.committed && e.bill !in f.deleted)
    && 0 < f.nextSeq
    && (forall e | e in f.committed :: e.seqNo < f.nextSeq)
    && (forall t | t in f.open :: f.open[t].start <= f.clock <= f.open[t].start + maxTxn)
    && (forall t, e | t in f.open && e in f.open[t].inserted ::
          0 < e.seqNo < f.nextSeq && e.bill !in f.deleted && e.changedAt == f.open[t].start)
    && (forall t, e, w | t in f.open && e in f.open[t].inserted && w in f.committed ::
          StartedBefore(maxTxn, f.open[t].start, e, w))
    && (forall t, e, t', w | t in f.open && e in f.open[t].inserted && t' in f.open && w in f.open[t'].inserted ::
          StartedBefore(maxTxn, f.open[t].start, e, w))
  }

  lemma CommitKeepsInv(maxTxn: nat, f: Feed, t: TxnId)
    requires FeedInv(maxTxn, f) && FeedEnabled(maxTxn, f, Commit(t))
    ensures FeedInv(maxTxn, FeedApply(maxTxn, f, Commit(t)))
  {
    var f' := FeedApply(maxTxn, f, Commit(t));
    forall t', e, w | t' in f'.open && e in f'.open[t'].inserted && w in f'.committed
      ensures StartedBefore(maxTxn, f'.open[t'].start, e, w)
    {
      if w !in f.committed {
        assert t in f.open && w in f.open[t].inserted;
      }
    }
  }

  lemma InsertKeepsInv(maxTxn: nat, f: Feed, t: TxnId, bill: BillId, kind: string)
    requires FeedInv(maxTxn, f) && FeedEnabled(maxTxn, f, Insert(t, bill, kind))
    ensures FeedInv(maxTxn, FeedApply(maxTxn, f, Insert(t, bill, kind)))
  {
  }

  lemma FeedStepKeepsInv(maxTxn: nat, f: Feed, step: FeedStep)
    requires FeedInv(maxTxn, f) && FeedEnabled(maxTxn, f, step)
    ensures FeedInv(maxTxn, FeedApply(maxTxn, f, step))
  {
    match step {
      case Insert(t, bill, kind) => InsertKeepsInv(maxTxn, f, t, bill, kind);
      case Commit(t) => CommitKeepsInv(maxTxn, f, t);
      case _ =>
    }
  }

  /** Once a watermark is settled it stays settled. */
  lemma SettledStaysSettled(maxTxn: nat, f: Feed, step: FeedStep, w: nat)
    requires FeedEnabled(maxTxn, f, step) && Settled(f, w)
    ensures Settled(FeedApply(maxTxn, f, step), w)
  {
    var f' := FeedApply(maxTxn, f, step);
    forall t, e | t in f'.open && e in f'.open[t].inserted ensures w < e.seqNo {
      if t !in f.open || e !in f.open[t].inserted {
        assert step.Insert? && e.seqNo == f.nextSeq;
      }
    }
  }

  /** Watermark safety: with transactions no longer than half the lag, nothing at or below the
      watermark can still commit. */
  lemma WatermarkIsSettled(maxTxn: nat, lag: nat, f: Feed, readAt: nat)
    requires FeedInv(maxTxn, f) && readAt <= f.clock
    requires 2 * maxTxn < lag
    ensures Settled(f, Watermark(lag, f, readAt))
  {
    var settledRows := set e | e in f.visible && e.changedAt + lag <= readAt;
    var w := MaxSeq(settledRows);
    if w != 0 {
      var top :| top in settledRows && top.seqNo == w;
      forall t, e | t in f.open && e in f.open[t].inserted ensures w < e.seqNo {
        assert StartedBefore(maxTxn, f.open[t].start, e, top);
      }
    }
  }
}
