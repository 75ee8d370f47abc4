/** Which due subscriptions a tick serves: least recently attempted first, so that nobody starves
    however many are due. */
module Rotation {
  import opened Basics

  type SubscriptionId = nat
  datatype Candidate = Candidate(id: SubscriptionId, lastAttemptAt: Option<int>)

  /** The sort key `(last_attempt_at is not None, last_attempt_at)`: never attempted comes first. */
  predicate NoLater(a: Candidate, b: Candidate) {
    a.lastAttemptAt == None || (b.lastAttemptAt != None && a.lastAttemptAt.value <= b.lastAttemptAt.value)
  }

  function InsertInOrder(c: Candidate, sorted: seq<Candidate>): (r: seq<Candidate>)
    ensures multiset(r) == multiset{c} + multiset(sorted)
  {
    if sorted == [] || NoLater(c, sorted[0]) then [c] + sorted
    else
      assert sorted == [sorted[0]] + sorted[1..];
      [sorted[0]] + InsertInOrder(c, sorted[1..])
  }

  /** A stable sort by the key. */
  function SortByAttempt(subs: seq<Candidate>): (r: seq<Candidate>)
    ensures multiset(r) == multiset(subs)
  {
    if subs == [] then []
    else
      assert subs == [subs[0]] + subs[1..];
      InsertInOrder(subs[0], SortByAttempt(subs[1..]))
  }

  /** `rotation_order`. */
  function RotationOrder(subs: seq<Candidate>, limit: nat): seq<Candidate> {
    var ordered := SortByAttempt(subs);
    if |ordered| <= limit then ordered else ordered[..limit]
  }

  ghost predicate Ordered(s: seq<Candidate>) {
    forall i, j | 0 <= i < j < |s| :: NoLater(s[i], s[j])
  }

  lemma {:induction false} InsertKeepsOrder(c: Candidate, sorted: seq<Candidate>)
    requires Ordered(sorted)
    ensures Ordered(InsertInOrder(c, sorted))
  {
    var r := InsertInOrder(c, sorted);
    if sorted != [] && !NoLater(c, sorted[0]) {
      var rest := InsertInOrder(c, sorted[1..]);
      InsertKeepsOrder(c, sorted[1..]);
      assert r == [sorted[0]] + rest;
      forall j | 0 < j < |r| ensures NoLater(r[0], r[j]) {
        assert rest[j - 1] in multiset(rest);
        if rest[j - 1] != c {
          assert rest[j - 1] in sorted[1..];
        }
      }
    }
  }

  lemma {:induction false} SortIsOrdered(subs: seq<Candidate>)
    ensures Ordered(SortByAttempt(subs))
  {
    if subs != [] {
      SortIsOrdered(subs[1..]);
      InsertKeepsOrder(subs[0], SortByAttempt(subs[1..]));
    }
  }

  // ----- ticks over a fixed population of always-due subscriptions -----

  type Stamps = map<SubscriptionId, Option<int>>

  /** `subs` lists the population once each, in any order the database returns it. */
  ghost predicate Lists(stamps: Stamps, subs: seq<Candidate>) {
    && |subs| == |stamps|
    && (forall c | c in subs :: c.id in stamps && stamps[c.id] == c.lastAttemptAt)
    && (forall id | id in stamps :: Candidate(id, stamps[id]) in subs)
  }

  /** A tick that began at `now`, after every earlier stamp, and stamps at least the first `k` of
      the rotation; a subscription that the deadline cut off is not stamped. */
  ghost predicate Tick(before: Stamps, after: Stamps, subs: seq<Candidate>, limit: nat, k: nat, now: int,
                       stamped: set<SubscriptionId>)
  {
    && Lists(before, subs) && after.Keys == before.Keys && stamped <= before.Keys
    && (forall id | id in before && before[id] != None :: before[id].value <= now)
    && (forall i | 0 <= i < k && i < |RotationOrder(subs, limit)| :: RotationOrder(subs, limit)[i].id in stamped)
    && (forall id | id in before && id !in stamped :: after[id] == before[id])
    && (forall id | id in stamped :: after[id] != None && now < after[id].value)
  }

  /** Not attempted since `t`. */
  ghost function Waiting(stamps: Stamps, t: int): set<SubscriptionId> {
    set id | id in stamps && (stamps[id] == None || stamps[id].value <= t)
  }

  ghost function Ids(s: seq<Candidate>): set<SubscriptionId> {
    set c | c in s :: c.id
  }

  lemma {:induction false} IdsAreFew(s: seq<Candidate>)
    ensures |Ids(s)| <= |s|
  {
    if s != [] {
      IdsAreFew(s[1..]);
      assert s == [s[0]] + s[1..];
      assert Ids(s) == {s[0].id} + Ids(s[1..]);
    }
  }

  lemma EarlierInOrder(order: seq<Candidate>, i: nat, j: nat)
    requires Ordered(order) && i < |order| && j < |order| && !NoLater(order[i], order[j])
    ensures j < i
  {
  }

  /** The front of the rotation holds only waiting subscriptions, as long as there are any. */
  lemma WaitingComeFirst(stamps: Stamps, subs: seq<Candidate>, t: int, i: nat)
    requires Lists(stamps, subs)
    requires i < |SortByAttempt(subs)| && i < |Waiting(stamps, t)|
    ensures SortByAttempt(subs)[i].id in Waiting(stamps, t)
  {
    var order := SortByAttempt(subs);
    SortIsOrdered(subs);
    SortKeepsMembers(subs);
    if order[i].id !in Waiting(stamps, t) {
      forall id | id in Waiting(stamps, t) ensures id in Ids(order[..i]) {
        var c := Candidate(id, stamps[id]);
        assert c in order;
        var j :| 0 <= j < |order| && order[j] == c;
        assert order[i] in order;
        EarlierInOrder(order, i, j);
        assert order[..i][j] == c;
      }
      IdsAreFew(order[..i]);
      SubsetIsNoLarger(Waiting(stamps, t), Ids(order[..i]));
    }
  }

  lemma SortKeepsMembers(subs: seq<Candidate>)
    ensures forall c :: c in SortByAttempt(subs) <==> c in subs
    ensures |SortByAttempt(subs)| == |subs|
  {
    var order := SortByAttempt(subs);
    assert forall c :: c in order <==> c in multiset(order);
    assert forall c :: c in subs <==> c in multiset(subs);
    assert |multiset(order)| == |order| && |multiset(subs)| == |subs|;
  }

  /** In a list without repetitions every prefix has as many ids as its length. */
  lemma DistinctPrefix(s: seq<Candidate>, q: nat)
    requires |Ids(s)| == |s| && q <= |s|
    ensures |Ids(s[..q])| == q
  {
    assert s == s[..q] + s[q..];
    assert Ids(s) == Ids(s[..q]) + Ids(s[q..]);
    assert |Ids(s[..q]) + Ids(s[q..])| <= |Ids(s[..q])| + |Ids(s[q..])|;
    IdsAreFew(s[..q]);
    IdsAreFew(s[q..]);
  }

  lemma IdsOfOrder(stamps: Stamps, subs: seq<Candidate>)
    requires Lists(stamps, subs)
    ensures Ids(SortByAttempt(subs)) == stamps.Keys
  {
    var order := SortByAttempt(subs);
    SortKeepsMembers(subs);
    forall id | id in stamps ensures id in Ids(order) {
      assert Candidate(id, stamps[id]) in order;
    }
  }

  /** The front of the rotation is as long as it looks, waits, and is stamped. */
  lemma FrontIsStamped(before: Stamps, after: Stamps, subs: seq<Candidate>, limit: nat, k: nat, now: int,
                       stamped: set<SubscriptionId>, t: int, q: nat)
    requires Tick(before, after, subs, limit, k, now, stamped)
    requires q <= k <= limit && q <= |Waiting(before, t)|
    ensures q <= |SortByAttempt(subs)|
    ensures |Ids(SortByAttempt(subs)[..q])| == q
    ensures Ids(SortByAttempt(subs)[..q]) <= Waiting(before, t) * stamped
  {
    var order := SortByAttempt(subs);
    SortKeepsMembers(subs);
    SubsetIsNoLarger(Waiting(before, t), before.Keys);
    IdsOfOrder(before, subs);
    DistinctPrefix(order, q);
    forall id | id in Ids(order[..q]) ensures id in Waiting(before, t) && id in stamped {
      var i := PlaceOf(order, q, id);
      PlaceIsStamped(before, after, subs, limit, k, now, stamped, t, q, i);
    }
  }

  lemma PlaceOf(order: seq<Candidate>, q: nat, id: SubscriptionId) returns (i: nat)
    requires q <= |order| && id in Ids(order[..q])
    ensures i < q && order[i].id == id
  {
    var c :| c in order[..q] && c.id == id;
    i :| 0 <= i < q && order[i] == c;
  }

  lemma PlaceIsStamped(before: Stamps, after: Stamps, subs: seq<Candidate>, limit: nat, k: nat, now: int,
                       stamped: set<SubscriptionId>, t: int, q: nat, i: nat)
    requires Tick(before, after, subs, limit, k, now, stamped)
    requires i < q <= k <= limit && q <= |Waiting(before, t)| && q <= |SortByAttempt(subs)|
    ensures var id := SortByAttempt(subs)[i].id; id in Waiting(before, t) && id in stamped
  {
    WaitingComeFirst(before, subs, t, i);
    assert RotationOrder(subs, limit)[i] == SortByAttempt(subs)[i];
  }

  /** Every tick takes `k` subscriptions off the waiting list, or empties it. */
  lemma TickServes(before: Stamps, after: Stamps, subs: seq<Candidate>, limit: nat, k: nat, now: int,
                   stamped: set<SubscriptionId>, t: int)
    requires Tick(before, after, subs, limit, k, now, stamped) && k <= limit && t <= now
    ensures |Waiting(after, t)| + k <= |Waiting(before, t)| || Waiting(after, t) == {}
  {
    var w := Waiting(before, t);
    var q := if k < |w| then k else |w|;
    FrontIsStamped(before, after, subs, limit, k, now, stamped, t, q);
    var front := Ids(SortByAttempt(subs)[..q]);
    assert Waiting(after, t) <= w - front;
    SubsetIsNoLarger(Waiting(after, t), w - front);
    assert |w - front| == |w| - q;
  }

  /** A run of ticks, the i-th beginning at `nows[i]`. */
  ghost predicate Ticks(states: seq<Stamps>, nows: seq<int>, limit: nat, k: nat) {
    && |states| == |nows| + 1
    && (forall i | 0 <= i < |nows| :: nows[0] <= nows[i])
    && (forall i | 0 <= i < |nows| :: TickHappens(states[i], states[i + 1], limit, k, nows[i]))
  }

  ghost predicate TickHappens(before: Stamps, after: Stamps, limit: nat, k: nat, now: int) {
    exists subs, stamped :: Tick(before, after, subs, limit, k, now, stamped)
  }

  lemma {:induction false} WaitingShrinks(states: seq<Stamps>, nows: seq<int>, limit: nat, k: nat, m: nat)
    requires Ticks(states, nows, limit, k) && k <= limit && 0 < m <= |nows|
    ensures |Waiting(states[m], nows[0])| + m * k <= |states[0]| || Waiting(states[m], nows[0]) == {}
  {
    var t := nows[0];
    assert TickHappens(states[m - 1], states[m], limit, k, nows[m - 1]);
    var subs, stamped :| Tick(states[m - 1], states[m], subs, limit, k, nows[m - 1], stamped);
    TickServes(states[m - 1], states[m], subs, limit, k, nows[m - 1], stamped, t);
    if m == 1 {
      SubsetIsNoLarger(Waiting(states[0], t), states[0].Keys);
    } else {
      WaitingShrinks(states, nows, limit, k, m - 1);
      assert (m - 1) * k + k == m * k;
      if Waiting(states[m - 1], t) == {} {
        assert Waiting(states[m], t) <= Waiting(states[m - 1], t);
      }
    }
  }

  /** Starvation freedom: n always-due subscriptions are all served within ceil(n / k) ticks. */
  lemma EverySubscriptionIsServed(states: seq<Stamps>, nows: seq<int>, limit: nat, k: nat, m: nat, id: SubscriptionId)
    requires Ticks(states, nows, limit, k) && 0 < k <= limit
    requires 0 < m <= |nows| && m == (|states[0]| + k - 1) / k
    requires id in states[m]
    ensures states[m][id] != None && nows[0] < states[m][id].value
  {
    WaitingShrinks(states, nows, limit, k, m);
    CeilingCovers(|states[0]|, k);
    assert id !in Waiting(states[m], nows[0]);
  }

  lemma CeilingCovers(n: nat, k: nat)
    requires 0 < k
    ensures (n + k - 1) / k * k >= n
  {
    assert (n + k - 1) == (n + k - 1) / k * k + (n + k - 1) % k;
  }

  /** A subscription left unstamped keeps its place: it stays behind those it was behind, unless
      they were stamped, and is strictly ahead of everyone stamped. */
  lemma UnstampedKeepTheirPlace(before: Stamps, after: Stamps, subs: seq<Candidate>, limit: nat, k: nat, now: int,
                                stamped: set<SubscriptionId>, a: SubscriptionId, b: SubscriptionId)
    requires Tick(before, after, subs, limit, k, now, stamped)
    requires a in before && a !in stamped && b in before
    ensures b in stamped ==> NoLater(Candidate(a, after[a]), Candidate(b, after[b]))
                             && !NoLater(Candidate(b, after[b]), Candidate(a, after[a]))
    ensures b !in stamped ==> (NoLater(Candidate(a, after[a]), Candidate(b, after[b]))
                               <==> NoLater(Candidate(a, before[a]), Candidate(b, before[b])))
  {
  }
}
