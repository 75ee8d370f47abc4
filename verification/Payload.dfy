/** The cursor that a delivery carries, and what a receiver can do with it. */
module Payload {
  import opened ChangeFeed
  import opened DeliveryProtocol
  import opened Basics
  import opened FailureHistory
  import opened Dispatcher
  import Cursor

  /** The cursor of a payload. */
  function BatchCursor(events: seq<Event>): string
    requires events != []
  {
    Cursor.Encode(events[|events| - 1].seqNo)
  }

  /** `seq` is a signed 64-bit column. */
  predicate InRange(e: Event) { e.seqNo <= Cursor.MAX_SEQ }

  /** The cursor in an accepted body decodes to the cursor that the round leaves the subscription
      with, and to the `last_seq` of the audit row of that body. */
  lemma PayloadCursorIsTheNewCursor(env: Environment, filter: Filter, watermark: nat, n: nat, t: Trip, d: Delivery)
    requires Ascending(env.table(n)) && RoundResult(env, filter, watermark, n, t)
    requires t.added != [] && t.added[0].fate == Accepted && (forall e | e in t.added[0].events :: InRange(e))
    requires Describes(d, t.added[0])
    ensures Cursor.Decode(BatchCursor(t.added[0].events)) == Cursor.Seq(t.next)
    ensures d.lastSeq == Some(t.next)
  {
    var events := t.added[0].events;
    BatchStaysInPlace(env, filter, watermark, n, t);
    assert InRange(events[|events| - 1]);
    Cursor.CursorRoundTrip(events[|events| - 1].seqNo);
  }

  /** A receiver that goes on from the cursor of a body through the feed sees what comes after the
      events it has, and nothing of them again. */
  lemma ReceiverGoesOn(filter: Filter, table: seq<Event>, cursor: nat, watermark: nat, events: seq<Event>, next: nat)
    requires Ascending(table) && Ascending(events) && events != [] && (forall e | e in events :: InRange(e))
    requires forall e | e in events :: e in table && InScope(filter, e) && cursor < e.seqNo <= watermark
    requires Cursor.Decode(BatchCursor(events)) == Cursor.Seq(next)
    ensures forall e :: e in Matching(filter, table, next, watermark) <==>
              e in Matching(filter, table, cursor, watermark) && e.seqNo > events[|events| - 1].seqNo
    ensures forall e | e in events :: e !in Matching(filter, table, next, watermark)
  {
    Cursor.CursorRoundTrip(events[|events| - 1].seqNo);
    assert events[|events| - 1] in events;
    forall e | e in events ensures e.seqNo <= next {
      NotAfterLast(events, e);
    }
  }
}
