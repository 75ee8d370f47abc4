/** The fixed-window hit counter behind every rate limit: a bounded dictionary of buckets that is
    swept once a window and evicted from when full. */
module FixedWindow {
  import opened Basics
  import opened Runs

  type Key = string
  datatype Bucket = Bucket(start: real, count: nat)
  type Buckets = map<Key, Bucket>

  /** What `allow` and `peek` return. */
  datatype Answer = Answer(allowed: bool, retryAfter: int, remaining: int, resetIn: int)

  function Ceiling(x: real): int { -((-x).Floor) }
  function Max(a: int, b: int): int { if a < b then b else a }

  predicate InWindow(b: Bucket, window: real, now: real) { now - b.start < window }

  /** The bucket that still counts for a key: an expired one is as good as none. */
  function Live(buckets: Buckets, window: real, k: Key, now: real): Option<Bucket> {
    if k in buckets && InWindow(buckets[k], window, now) then Some(buckets[k]) else None
  }

  /** The bucket after one more hit. */
  function Hit(live: Option<Bucket>, now: real): Bucket {
    if live == None then Bucket(now, 1) else Bucket(live.value.start, live.value.count + 1)
  }

  function Decide(limit: int, window: real, hit: Bucket, now: real): Answer {
    var resetIn := Max(1, Ceiling(window - (now - hit.start)));
    if hit.count > limit then Answer(false, resetIn, 0, resetIn)
    else Answer(true, 0, Max(0, limit - hit.count), resetIn)
  }

  /** What an answer tells about a bucket of `count` hits that opened at `start`: allowed exactly up
      to the limit, how many hits are left, and in how many whole seconds, one at least and no more
      than needed, the window is over. */
  ghost predicate Tells(answer: Answer, limit: int, window: real, start: real, count: nat, now: real) {
    && (answer.allowed <==> count <= limit)
    && (answer.allowed ==> answer.retryAfter == 0 && answer.remaining == limit - count)
    && (!answer.allowed ==> answer.retryAfter == answer.resetIn && answer.remaining == 0)
    && 1 <= answer.resetIn && start + window <= now + answer.resetIn as real
    && (1 < answer.resetIn ==> now + (answer.resetIn - 1) as real < start + window)
  }

  lemma DecideTells(limit: int, window: real, hit: Bucket, now: real)
    ensures Tells(Decide(limit, window, hit, now), limit, window, hit.start, hit.count, now)
  {
  }

  /** One hit more: a live bucket keeps its start and counts one more, any other starts now with one. */
  ghost predicate OneMore(before: Option<Bucket>, after: Bucket, now: real) {
    && (before != None ==> after.start == before.value.start && after.count == before.value.count + 1)
    && (before == None ==> after.start == now && after.count == 1)
  }

  function Unexpired(buckets: Buckets, window: real, now: real): Buckets {
    map k | k in buckets && InWindow(buckets[k], window, now) :: buckets[k]
  }

  /** How many buckets one eviction takes: a tenth, at least one. */
  function EvictCount(n: nat): nat { if n / 10 < 1 then 1 else n / 10 }

  /** `after` is `before` without its `n` oldest buckets, ties in any order. */
  ghost predicate WithoutOldest(before: Buckets, after: Buckets, n: nat) {
    && after.Keys <= before.Keys && |after| + n == |before|
    && (forall k | k in after :: after[k] == before[k])
    && (forall k, x | k in after && x in before && x !in after :: before[x].start <= before[k].start)
  }

  /** `_ensure_capacity_for_new_key`. */
  ghost predicate MakesRoom(before: Buckets, after: Buckets, window: real, maxKeys: nat, now: real) {
    if |before| < maxKeys then after == before
    else
      var unexpired := Unexpired(before, window, now);
      if |unexpired| < maxKeys || unexpired == map[] then after == unexpired
      else WithoutOldest(unexpired, after, EvictCount(|unexpired|))
  }

  function Swept(buckets: Buckets, window: real, lastSweep: real, now: real): Buckets {
    if now - lastSweep < window then buckets else Unexpired(buckets, window, now)
  }

  /** The dictionary before and after one `allow`. */
  ghost predicate Allows(before: Buckets, after: Buckets, window: real, maxKeys: nat, lastSweep: real, k: Key, now: real) {
    var swept := Swept(before, window, lastSweep, now);
    var live := Live(swept, window, k, now);
    if live != None then after == swept[k := Hit(live, now)]
    else exists roomy :: MakesRoom(swept, roomy, window, maxKeys, now) && after == roomy[k := Hit(live, now)]
  }

  class FixedWindowCounter {
    const limit: int
    const window: real
    const maxKeys: nat
    var buckets: Buckets
    var lastSweep: real

    constructor (limit: int, window: real, maxKeys: nat)
      ensures this.limit == limit && this.window == window && this.maxKeys == maxKeys
      ensures buckets == map[] && lastSweep == 0.0
    {
      this.limit, this.window, this.maxKeys, buckets, lastSweep := limit, window, maxKeys, map[], 0.0;
    }

    method DropExpired(now: real)
      modifies `buckets
      ensures buckets == Unexpired(old(buckets), window, now)
    {
      var stale := set k | k in buckets && !InWindow(buckets[k], window, now);
      ghost var all := stale;
      while stale != {}
        invariant stale <= all && all == set k | k in old(buckets) && !InWindow(old(buckets)[k], window, now)
        invariant buckets == old(buckets) - (all - stale)
        decreases stale
      {
        var k :| k in stale;
        buckets := buckets - {k};
        stale := stale - {k};
      }
    }

    method Sweep(now: real)
      modifies `buckets, `lastSweep
      ensures buckets == Swept(old(buckets), window, old(lastSweep), now)
      ensures lastSweep == if now - old(lastSweep) < window then old(lastSweep) else now
      ensures now < old(lastSweep) + window ==> buckets == old(buckets)
      ensures old(lastSweep) + window <= now ==>
                forall k :: (k in buckets <==> k in old(buckets) && now < old(buckets)[k].start + window)
                            && (k in buckets ==> buckets[k] == old(buckets)[k])
    {
      if now - lastSweep < window {
        return;
      }
      lastSweep := now;
      DropExpired(now);
    }

    /** An oldest bucket, found by one pass over the keys. */
    method Oldest() returns (k: Key)
      requires buckets != map[]
      ensures k in buckets && forall x | x in buckets :: buckets[k].start <= buckets[x].start
    {
      k :| k in buckets;
      var rest := buckets.Keys - {k};
      while rest != {}
        invariant k in buckets && rest <= buckets.Keys
        invariant forall x | x in buckets && x !in rest :: buckets[k].start <= buckets[x].start
        decreases rest
      {
        var x :| x in rest;
        rest := rest - {x};
        if buckets[x].start < buckets[k].start {
          k := x;
        }
      }
    }

    method EvictOldest(n: nat)
      requires n <= |buckets|
      modifies `buckets
      ensures WithoutOldest(old(buckets), buckets, n)
    {
      for i := 0 to n
        invariant WithoutOldest(old(buckets), buckets, i)
      {
        assert |buckets| > 0;
        var k := Oldest();
        ghost var before := buckets;
        buckets := buckets - {k};
        assert buckets.Keys == before.Keys - {k};
      }
    }

    method EnsureCapacityForNewKey(now: real)
      modifies `buckets
      ensures MakesRoom(old(buckets), buckets, window, maxKeys, now)
    {
      if |buckets| < maxKeys {
        return;
      }
      DropExpired(now);
      if |buckets| >= maxKeys && buckets != map[] {
        assert |buckets| > 0;
        EvictOldest(EvictCount(|buckets|));
      }
    }

    method Allow(k: Key, now: real) returns (answer: Answer)
      modifies `buckets, `lastSweep
      ensures Allows(old(buckets), buckets, window, maxKeys, old(lastSweep), k, now)
      ensures answer == Decide(limit, window, Hit(Live(old(buckets), window, k, now), now), now)
      ensures k in buckets && OneMore(Live(old(buckets), window, k, now), buckets[k], now)
      ensures Tells(answer, limit, window, buckets[k].start, buckets[k].count, now)
    {
      Sweep(now);
      var live := Live(buckets, window, k, now);
      if live == None {
        EnsureCapacityForNewKey(now);
      }
      var hit := Hit(live, now);
      buckets := buckets[k := hit];
      answer := Decide(limit, window, hit, now);
      DecideTells(limit, window, hit, now);
    }

    /** A dry run: the answer of `Allow` at the same clock reading, and no count changes. */
    method Peek(k: Key, now: real) returns (answer: Answer)
      modifies `buckets, `lastSweep
      ensures buckets == Swept(old(buckets), window, old(lastSweep), now)
      ensures answer == Decide(limit, window, Hit(Live(old(buckets), window, k, now), now), now)
    {
      Sweep(now);
      answer := Decide(limit, window, Hit(Live(buckets, window, k, now), now), now);
    }
  }

  // ----- the counter of the daily tiers -----

  function Surviving(order: seq<Key>, buckets: Buckets, moved: Option<Key>): (r: seq<Key>)
    ensures forall x :: x in r <==> x in order && x in buckets && Some(x) != moved
  {
    if order == [] then []
    else
      var rest := Surviving(order[1..], buckets, moved);
      if order[0] in buckets && Some(order[0]) != moved then [order[0]] + rest else rest
  }

  ghost predicate Distinct(order: seq<Key>) { forall i, j | 0 <= i < j < |order| :: order[i] != order[j] }

  lemma {:induction false} SurvivingIsDistinct(order: seq<Key>, buckets: Buckets, moved: Option<Key>)
    requires Distinct(order)
    ensures Distinct(Surviving(order, buckets, moved))
  {
    if order != [] {
      SurvivingIsDistinct(order[1..], buckets, moved);
      assert order[0] !in order[1..];
    }
  }

  /** The insertion order after an `allow` of `k`: deleted keys are gone, and `k` is at the end
      unless its bucket stayed where it was. */
  function Reordered(order: seq<Key>, buckets: Buckets, k: Key, stays: bool): seq<Key> {
    if stays then Surviving(order, buckets, None) else Surviving(order, buckets, Some(k)) + [k]
  }

  lemma ReorderedIsOrder(order: seq<Key>, buckets: Buckets, k: Key, stays: bool)
    requires Distinct(order) && k in buckets && (stays ==> k in order)
    requires forall x | x in buckets :: x in order || x == k
    ensures Distinct(Reordered(order, buckets, k, stays))
    ensures forall x :: x in Reordered(order, buckets, k, stays) <==> x in buckets
  {
    SurvivingIsDistinct(order, buckets, None);
    SurvivingIsDistinct(order, buckets, Some(k));
  }

  /** The keys of `after` were in the same order before, apart from one that may have moved. */
  ghost predicate KeepsOrder(before: seq<Key>, after: seq<Key>, moved: Option<Key>) {
    forall i, j | 0 <= i < j < |after| && Some(after[i]) != moved && Some(after[j]) != moved :: InThatOrder(before, after[i], after[j])
  }

  ghost predicate InThatOrder(order: seq<Key>, x: Key, y: Key) {
    exists a, b :: 0 <= a < b < |order| && order[a] == x && order[b] == y
  }

  lemma {:induction false} SurvivingKeepsOrder(order: seq<Key>, buckets: Buckets, moved: Option<Key>)
    ensures KeepsOrder(order, Surviving(order, buckets, moved), None)
    decreases |order|
  {
    if order != [] {
      SurvivingKeepsOrder(order[1..], buckets, moved);
      FirstMayGo(order, Surviving(order[1..], buckets, moved), Surviving(order, buckets, moved));
    }
  }

  lemma FirstMayGo(order: seq<Key>, rest: seq<Key>, after: seq<Key>)
    requires order != [] && KeepsOrder(order[1..], rest, None) && (forall x | x in rest :: x in order[1..])
    requires after == rest || after == [order[0]] + rest
    ensures KeepsOrder(order, after, None)
  {
    var skipped := |after| - |rest|;
    forall i, j | 0 <= i < j < |after| ensures InThatOrder(order, after[i], after[j]) {
      OneKeyMore(order, after[i], after[j]);
      assert after[j] == rest[j - skipped] && rest[j - skipped] in rest;
      if i >= skipped {
        assert InThatOrder(order[1..], rest[i - skipped], rest[j - skipped]);
      }
    }
  }

  lemma OneKeyMore(order: seq<Key>, x: Key, y: Key)
    requires order != []
    ensures InThatOrder(order[1..], x, y) ==> InThatOrder(order, x, y)
    ensures x == order[0] && y in order[1..] ==> InThatOrder(order, x, y)
  {
    if InThatOrder(order[1..], x, y) {
      var a, b :| 0 <= a < b < |order[1..]| && order[1..][a] == x && order[1..][b] == y;
      assert order[a + 1] == x && order[b + 1] == y;
    }
    if x == order[0] && y in order[1..] {
      var b :| 0 <= b < |order[1..]| && order[1..][b] == y;
      assert order[b + 1] == y;
    }
  }

  lemma FirstIsGone(before: seq<Key>, left: seq<Key>, after: seq<Key>, k: Key)
    requires left == before || (before != [] && left == before[1..])
    requires KeepsOrder(left, after, Some(k))
    ensures KeepsOrder(before, after, Some(k))
  {
    forall i, j | 0 <= i < j < |after| && after[i] != k && after[j] != k ensures InThatOrder(before, after[i], after[j]) {
      assert InThatOrder(left, after[i], after[j]);
      if left != before { OneKeyMore(before, after[i], after[j]); }
    }
  }

  /** Nobody but `k` moves, and `k` moves to the end or not at all. */
  lemma ReorderedMovesOne(order: seq<Key>, buckets: Buckets, k: Key, stays: bool)
    ensures var after := Reordered(order, buckets, k, stays);
            && KeepsOrder(order, after, if stays then None else Some(k))
            && (!stays ==> after != [] && after[|after| - 1] == k)
  {
    SurvivingKeepsOrder(order, buckets, if stays then None else Some(k));
  }

  /** An `allow` inserts at most its own key. */
  lemma AllowsOnlyAdds(before: Buckets, after: Buckets, window: real, maxKeys: nat, lastSweep: real, k: Key, now: real)
    requires Allows(before, after, window, maxKeys, lastSweep, k, now)
    ensures k in after && forall x | x in after :: x in before || x == k
  {
  }

  /** With room left, a new key costs no other key its bucket. */
  lemma NewKeyEvictsNoMore(before: Buckets, after: Buckets, window: real, maxKeys: nat, lastSweep: real, k: Key, now: real)
    requires Allows(before, after, window, maxKeys, lastSweep, k, now) && k !in before && |before| < maxKeys
    ensures after == Swept(before, window, lastSweep, now)[k := Bucket(now, 1)]
  {
    SubmapIsNoLarger(Swept(before, window, lastSweep, now), before);
  }

  /** Room for a new key: the bucket inserted first goes, whatever its window. */
  function Freed(buckets: Buckets, order: seq<Key>, maxKeys: nat, k: Key): Buckets {
    if k !in buckets && |buckets| >= maxKeys && order != [] then buckets - {order[0]} else buckets
  }

  /** `_BoundedFixedWindowCounter`: it evicts by insertion before it does what the plain counter
      does.  `order` are the keys of the dictionary as they were inserted. */
  class BoundedFixedWindowCounter {
    const counter: FixedWindowCounter
    var order: seq<Key>

    ghost predicate Valid()
      reads this, counter
    {
      Distinct(order) && forall x :: x in order <==> x in counter.buckets
    }

    constructor (limit: int, window: real, maxKeys: nat)
      ensures Valid() && fresh(counter) && counter.buckets == map[] && counter.lastSweep == 0.0 && order == []
      ensures counter.limit == limit && counter.window == window && counter.maxKeys == maxKeys
    {
      counter := new FixedWindowCounter(limit, window, maxKeys);
      order := [];
    }

    /** A key keeps its place in the dictionary unless its bucket is deleted and made anew. */
    predicate StaysInPlace(k: Key, now: real)
      reads counter
    {
      var swept := Swept(counter.buckets, counter.window, counter.lastSweep, now);
      k in swept && (Live(swept, counter.window, k, now) != None || |swept| < counter.maxKeys)
    }

    method Evict(k: Key)
      requires Valid()
      modifies `order, counter`buckets
      ensures Valid()
      ensures counter.buckets == Freed(old(counter.buckets), old(order), counter.maxKeys, k)
      ensures order == if counter.buckets == old(counter.buckets) then old(order) else old(order)[1..]
    {
      if k !in counter.buckets && |counter.buckets| >= counter.maxKeys && order != [] {
        assert order[0] in counter.buckets && order[0] !in order[1..];
        counter.buckets := counter.buckets - {order[0]};
        order := order[1..];
      }
    }

    /** The plain counter's `allow`, and what it does to the insertion order. */
    method AllowInOrder(k: Key, now: real) returns (answer: Answer)
      requires Valid()
      modifies `order, counter
      ensures Valid()
      ensures answer == Decide(counter.limit, counter.window,
                               Hit(Live(old(counter.buckets), counter.window, k, now), now), now)
      ensures Allows(old(counter.buckets), counter.buckets, counter.window, counter.maxKeys, old(counter.lastSweep), k, now)
      ensures order == Reordered(old(order), counter.buckets, k, old(StaysInPlace(k, now)))
      ensures var swept := Swept(old(counter.buckets), counter.window, old(counter.lastSweep), now);
              if k in swept && (Live(swept, counter.window, k, now) != None || |swept| < counter.maxKeys)
              then KeepsOrder(old(order), order, None)
              else order != [] && order[|order| - 1] == k
      ensures KeepsOrder(old(order), order, Some(k))
    {
      var stays := StaysInPlace(k, now);
      assert stays ==> k in order;
      ghost var before, lastSweep := counter.buckets, counter.lastSweep;
      answer := counter.Allow(k, now);
      AllowsOnlyAdds(before, counter.buckets, counter.window, counter.maxKeys, lastSweep, k, now);
      ReorderedIsOrder(order, counter.buckets, k, stays);
      ReorderedMovesOne(order, counter.buckets, k, stays);
      order := Reordered(order, counter.buckets, k, stays);
    }

    /** As the plain counter, after the bucket inserted first made room for a new key. */
    method Allow(k: Key, now: real) returns (answer: Answer)
      requires Valid()
      modifies this, counter
      ensures Valid()
      ensures answer == Decide(counter.limit, counter.window,
                               Hit(Live(old(counter.buckets), counter.window, k, now), now), now)
      ensures Allows(Freed(old(counter.buckets), old(order), counter.maxKeys, k), counter.buckets,
                     counter.window, counter.maxKeys, old(counter.lastSweep), k, now)
      ensures KeepsOrder(old(order), order, Some(k))
      ensures k !in old(counter.buckets) ==> order != [] && order[|order| - 1] == k
    {
      Evict(k);
      ghost var left := order;
      answer := AllowInOrder(k, now);
      FirstIsGone(old(order), left, order, k);
    }
  }

  /** At the cap a new key costs the bucket that was inserted first, and no other. */
  lemma BoundedEvictsOne(before: Buckets, order: seq<Key>, after: Buckets, window: real, maxKeys: nat, lastSweep: real, k: Key, now: real)
    requires 0 < maxKeys && |before| <= maxKeys && k !in before && (forall x :: x in order <==> x in before)
    requires Allows(Freed(before, order, maxKeys, k), after, window, maxKeys, lastSweep, k, now)
    ensures after == Swept(Freed(before, order, maxKeys, k), window, lastSweep, now)[k := Bucket(now, 1)]
    ensures |after| <= maxKeys
  {
    var freed := Freed(before, order, maxKeys, k);
    FreedLeavesRoom(before, order, maxKeys, k);
    NewKeyEvictsNoMore(freed, after, window, maxKeys, lastSweep, k, now);
    SubmapIsNoLarger(Swept(freed, window, lastSweep, now), freed);
    InsertedSize(Swept(freed, window, lastSweep, now), k, Bucket(now, 1));
  }

  lemma FreedLeavesRoom(before: Buckets, order: seq<Key>, maxKeys: nat, k: Key)
    requires 0 < maxKeys && |before| <= maxKeys && k !in before && (forall x :: x in order <==> x in before)
    ensures |Freed(before, order, maxKeys, k)| < maxKeys && k !in Freed(before, order, maxKeys, k)
  {
    if |before| >= maxKeys {
      assert before != map[];
      var x :| x in before;
      assert x in order;
      assert (before - {order[0]}).Keys == before.Keys - {order[0]};
    }
  }

  // ----- sweeping and eviction -----

  /** Sweeping changes no later answer: every key has the same live bucket at every later time. */
  lemma SweepIsInvisible(buckets: Buckets, window: real, lastSweep: real, now: real, k: Key, later: real)
    requires now <= later
    ensures Live(Swept(buckets, window, lastSweep, now), window, k, later) == Live(buckets, window, k, later)
  {
  }

  lemma RoomIsMade(before: Buckets, after: Buckets, window: real, maxKeys: nat, now: real)
    requires 0 < maxKeys && |before| <= maxKeys && MakesRoom(before, after, window, maxKeys, now)
    ensures |after| < maxKeys
  {
    SubmapIsNoLarger(Unexpired(before, window, now), before);
  }

  lemma InsertedSize(buckets: Buckets, k: Key, b: Bucket)
    ensures |buckets[k := b]| <= |buckets| + 1 && (k in buckets ==> |buckets[k := b]| == |buckets|)
  {
    var after := buckets[k := b];
    assert after.Keys == buckets.Keys + {k};
    assert |after| == |after.Keys| && |buckets| == |buckets.Keys|;
  }

  /** The dictionary never exceeds its cap. */
  lemma CapHolds(before: Buckets, after: Buckets, window: real, maxKeys: nat, lastSweep: real, k: Key, now: real)
    requires 0 < maxKeys && |before| <= maxKeys && 0.0 < window
    requires Allows(before, after, window, maxKeys, lastSweep, k, now)
    ensures |after| <= maxKeys
  {
    var swept := Swept(before, window, lastSweep, now);
    SubmapIsNoLarger(swept, before);
    var live := Live(swept, window, k, now);
    if live != None {
      InsertedSize(swept, k, Hit(live, now));
    } else {
      var roomy :| MakesRoom(swept, roomy, window, maxKeys, now) && after == roomy[k := Hit(live, now)];
      RoomIsMade(swept, roomy, window, maxKeys, now);
      InsertedSize(roomy, k, Hit(live, now));
    }
  }

  /** What may happen to a counter: hits, peeks, and the eviction of a key by a bounded counter. */
  datatype Use = HitKey(k: Key, now: real) | PeekAt(now: real) | EvictKey(k: Key)
  datatype Counter = Counter(buckets: Buckets, lastSweep: real)

  ghost predicate Uses(window: real, maxKeys: nat, c: Counter, use: Use, c': Counter) {
    match use
    case HitKey(k, now) => Allows(c.buckets, c'.buckets, window, maxKeys, c.lastSweep, k, now)
    case PeekAt(now) => c'.buckets == Swept(c.buckets, window, c.lastSweep, now)
    case EvictKey(k) => c'.buckets == c.buckets - {k}
  }

  ghost function Next(window: real, maxKeys: nat): (Counter, Use, Counter) -> bool {
    (c: Counter, use: Use, c': Counter) => Uses(window, maxKeys, c, use, c')
  }

  lemma UseKeepsCap(window: real, maxKeys: nat, c: Counter, use: Use, c': Counter)
    requires 0 < maxKeys && 0.0 < window && |c.buckets| <= maxKeys && Uses(window, maxKeys, c, use, c')
    ensures |c'.buckets| <= maxKeys
  {
    match use
    case HitKey(k, now) => CapHolds(c.buckets, c'.buckets, window, maxKeys, c.lastSweep, k, now);
    case _ => SubmapIsNoLarger(c'.buckets, c.buckets);
  }

  /** In no state of any run does the dictionary exceed its cap. */
  lemma CapAlwaysHolds(window: real, maxKeys: nat, c: Counter)
    requires 0 < maxKeys && 0.0 < window && Reaches(Next(window, maxKeys), Counter(map[], 0.0), c)
    ensures |c.buckets| <= maxKeys
  {
    var keeps := (x: Counter) => |x.buckets| <= maxKeys;
    forall x, use, y | keeps(x) && Next(window, maxKeys)(x, use, y) ensures keeps(y) {
      UseKeepsCap(window, maxKeys, x, use, y);
    }
    ReachableKeeps(Next(window, maxKeys), keeps, Counter(map[], 0.0), c);
  }

  lemma SubmapIsNoLarger(a: Buckets, b: Buckets)
    requires a.Keys <= b.Keys
    ensures |a| <= |b|
  {
    assert b.Keys == a.Keys + (b.Keys - a.Keys);
    assert |a| == |a.Keys| && |b| == |b.Keys|;
  }

  /** What one `allow` does to the live bucket of a key: a hit on the key itself; another key's hit
      leaves it, or evicts it when the dictionary was full. */
  lemma AllowOnOneKey(before: Buckets, after: Buckets, window: real, maxKeys: nat, lastSweep: real, k: Key, now: real,
                      x: Key, later: real)
    requires Allows(before, after, window, maxKeys, lastSweep, k, now) && now <= later && 0.0 < window
    ensures x == k ==> x in after && after[x] == Hit(Live(before, window, x, now), now)
    ensures x != k ==> Live(after, window, x, later) in {Live(before, window, x, later), None}
  {
  }

  // ----- how many hits are admitted -----

  /** The hits of one key, as a bucket that only its own hits touch answers them: how many of them
      are admitted at times in [from, to). */
  function AdmittedIn(limit: int, window: real, b: Option<Bucket>, hits: seq<real>, from: real, to: real): nat
    decreases |hits|
  {
    if hits == [] then 0
    else
      var hit := Hit(LiveAt(b, window, hits[0]), hits[0]);
      (if hit.count <= limit && from <= hits[0] < to then 1 else 0)
      + AdmittedIn(limit, window, Some(hit), hits[1..], from, to)
  }

  function LiveAt(b: Option<Bucket>, window: real, now: real): Option<Bucket> {
    if b != None && InWindow(b.value, window, now) then b else None
  }

  predicate Sorted(hits: seq<real>) {
    forall i, j | 0 <= i < j < |hits| :: hits[i] <= hits[j]
  }

  lemma {:induction false} NoneBeyond(limit: int, window: real, b: Option<Bucket>, hits: seq<real>, from: real, to: real)
    requires forall t | t in hits :: to <= t
    ensures AdmittedIn(limit, window, b, hits, from, to) == 0
    decreases |hits|
  {
    if hits != [] {
      assert hits[0] in hits;
      forall t | t in hits[1..] ensures to <= t { assert t in hits; }
      NoneBeyond(limit, window, Some(Hit(LiveAt(b, window, hits[0]), hits[0])), hits[1..], from, to);
    }
  }

  /** In the window that opened at `s`, and in every interval of one window length that begins no
      later, only what the bucket has left is admitted. */
  lemma {:induction false} WindowAdmitsWhatIsLeft(limit: nat, window: real, s: real, count: nat, hits: seq<real>, from: real)
    requires 0.0 < window && from <= s && Sorted(hits) && (forall t | t in hits :: s <= t)
    ensures AdmittedIn(limit, window, Some(Bucket(s, count)), hits, from, from + window)
            <= if count < limit then limit - count else 0
    decreases |hits|
  {
    if hits != [] {
      assert hits[0] in hits;
      if hits[0] - s < window {
        WindowAdmitsWhatIsLeft(limit, window, s, count + 1, hits[1..], from);
      } else {
        NoneBeyond(limit, window, Some(Bucket(s, count)), hits, from, from + window);
      }
    }
  }

  /** Inside the interval at most one window ends and at most one begins. */
  lemma {:induction false} IntervalMeetsTwoWindows(limit: nat, window: real, b: Option<Bucket>, hits: seq<real>, from: real)
    requires 0.0 < window && Sorted(hits) && (forall t | t in hits :: from <= t)
    ensures AdmittedIn(limit, window, b, hits, from, from + window)
            <= limit + if b == None then 0 else if b.value.count < limit then limit - b.value.count else 0
    decreases |hits|
  {
    if hits != [] {
      assert hits[0] in hits;
      var live := LiveAt(b, window, hits[0]);
      if live == None {
        WindowAdmitsWhatIsLeft(limit, window, hits[0], 1, hits[1..], from);
      } else {
        IntervalMeetsTwoWindows(limit, window, Some(Hit(live, hits[0])), hits[1..], from);
      }
    }
  }

  /** At most twice the limit in any interval as long as a window. */
  lemma {:induction false} TwiceTheLimit(limit: nat, window: real, b: Option<Bucket>, hits: seq<real>, from: real)
    requires 0.0 < window && Sorted(hits)
    ensures AdmittedIn(limit, window, b, hits, from, from + window) <= 2 * limit
    decreases |hits|
  {
    if hits != [] {
      assert hits[0] in hits;
      if hits[0] < from {
        TwiceTheLimit(limit, window, Some(Hit(LiveAt(b, window, hits[0]), hits[0])), hits[1..], from);
      } else {
        assert forall i | 0 <= i < |hits| :: hits[0] <= hits[i];
        IntervalMeetsTwoWindows(limit, window, b, hits, from);
      }
    }
  }

  // ----- whole runs of a counter shared by many keys -----

  datatype Call = Call(before: Buckets, after: Buckets, lastSweep: real, key: Key, now: real, answer: Answer)

  ghost predicate SameLive(a: Buckets, b: Buckets, window: real, from: real) {
    forall k, t: real | from <= t :: Live(a, window, k, t) == Live(b, window, k, t)
  }

  /** Key `x` has the same live bucket in both from now on. */
  ghost predicate SameLiveOf(a: Buckets, b: Buckets, window: real, x: Key, from: real) {
    forall t: real | from <= t :: Live(a, window, x, t) == Live(b, window, x, t)
  }

  /** Calls of `Allow` in order; between two of them nothing happens to the live bucket of `x`: there
      may be sweeps (by `Peek`), and a bounded counter may evict other keys. */
  ghost predicate IsRun(calls: seq<Call>, limit: int, window: real, maxKeys: nat, x: Key) {
    && (forall i | 0 <= i < |calls| ::
          && Allows(calls[i].before, calls[i].after, window, maxKeys, calls[i].lastSweep, calls[i].key, calls[i].now)
          && calls[i].answer == Decide(limit, window,
               Hit(Live(calls[i].before, window, calls[i].key, calls[i].now), calls[i].now), calls[i].now))
    && (forall i, j | 0 <= i < j < |calls| :: calls[i].now <= calls[j].now)
    && (forall i | 0 < i < |calls| :: SameLiveOf(calls[i - 1].after, calls[i].before, window, x, calls[i].now))
  }

  /** No call for another key evicts the live bucket of `x`. */
  ghost predicate Unevicted(calls: seq<Call>, window: real, x: Key) {
    forall c | c in calls && c.key != x :: Live(c.after, window, x, c.now) == Live(c.before, window, x, c.now)
  }

  function HitsOf(calls: seq<Call>, x: Key): (hits: seq<real>)
    ensures forall t | t in hits :: exists c :: c in calls && c.now == t
  {
    if calls == [] then []
    else (if calls[0].key == x then [calls[0].now] else []) + HitsOf(calls[1..], x)
  }

  function AdmittedOf(calls: seq<Call>, x: Key, from: real, to: real): nat {
    if calls == [] then 0
    else (if calls[0].key == x && calls[0].answer.allowed && from <= calls[0].now < to then 1 else 0)
         + AdmittedOf(calls[1..], x, from, to)
  }

  ghost predicate Agrees(b: Option<Bucket>, buckets: Buckets, window: real, x: Key, from: real) {
    forall t: real | from <= t :: LiveAt(b, window, t) == Live(buckets, window, x, t)
  }

  /** One call keeps the agreement between a key's own bucket and the shared dictionary. */
  lemma AgreementGoesOn(c: Call, next: Call, limit: int, window: real, maxKeys: nat, x: Key, b: Option<Bucket>)
    requires 0.0 < window && c.now <= next.now
    requires Allows(c.before, c.after, window, maxKeys, c.lastSweep, c.key, c.now)
    requires SameLiveOf(c.after, next.before, window, x, next.now)
    requires c.key != x ==> Live(c.after, window, x, c.now) == Live(c.before, window, x, c.now)
    requires Agrees(b, c.before, window, x, c.now)
    ensures var b' := if c.key == x then Some(Hit(LiveAt(b, window, c.now), c.now)) else b;
            Agrees(b', next.before, window, x, next.now)
  {
    var b' := if c.key == x then Some(Hit(LiveAt(b, window, c.now), c.now)) else b;
    assert LiveAt(b, window, c.now) == Live(c.before, window, x, c.now);
    forall t: real | next.now <= t ensures LiveAt(b', window, t) == Live(next.before, window, x, t) {
      AllowOnOneKey(c.before, c.after, window, maxKeys, c.lastSweep, c.key, c.now, x, t);
      assert Live(c.after, window, x, t) == Live(next.before, window, x, t);
      assert LiveAt(b, window, t) == Live(c.before, window, x, t);
    }
  }

  lemma RunGoesOn(calls: seq<Call>, limit: int, window: real, maxKeys: nat, x: Key)
    requires calls != [] && IsRun(calls, limit, window, maxKeys, x)
    ensures IsRun(calls[1..], limit, window, maxKeys, x)
  {
    var rest := calls[1..];
    forall i | 0 < i < |rest| ensures SameLiveOf(rest[i - 1].after, rest[i].before, window, x, rest[i].now) {
      assert SameLiveOf(calls[i + 1 - 1].after, calls[i + 1].before, window, x, calls[i + 1].now);
    }
  }

  lemma {:induction false} HitsAreSorted(calls: seq<Call>, x: Key)
    requires forall i, j | 0 <= i < j < |calls| :: calls[i].now <= calls[j].now
    ensures Sorted(HitsOf(calls, x))
  {
    if calls != [] {
      HitsAreSorted(calls[1..], x);
      var hits := HitsOf(calls[1..], x);
      forall i | 0 <= i < |hits| ensures calls[0].now <= hits[i] {
        assert hits[i] in hits;
        var c :| c in calls[1..] && c.now == hits[i];
      }
    }
  }

  /** A key that is not evicted is answered as if it had the counter for itself. */
  lemma {:induction false} KeysDoNotInterfere(
    calls: seq<Call>, limit: int, window: real, maxKeys: nat, x: Key, b: Option<Bucket>, from: real, to: real)
    requires 0.0 < window && IsRun(calls, limit, window, maxKeys, x) && Unevicted(calls, window, x)
    requires calls != [] ==> Agrees(b, calls[0].before, window, x, calls[0].now)
    ensures AdmittedOf(calls, x, from, to) == AdmittedIn(limit, window, b, HitsOf(calls, x), from, to)
    decreases |calls|
  {
    if calls != [] {
      var c, rest := calls[0], calls[1..];
      var b' := if c.key == x then Some(Hit(LiveAt(b, window, c.now), c.now)) else b;
      assert c in calls && LiveAt(b, window, c.now) == Live(c.before, window, x, c.now);
      if rest != [] {
        assert SameLiveOf(calls[1 - 1].after, calls[1].before, window, x, calls[1].now);
        AgreementGoesOn(c, calls[1], limit, window, maxKeys, x, b);
      }
      RunGoesOn(calls, limit, window, maxKeys, x);
      KeysDoNotInterfere(rest, limit, window, maxKeys, x, b', from, to);
      if c.key == x {
        assert HitsOf(calls, x) == [c.now] + HitsOf(rest, x);
        assert HitsOf(calls, x)[1..] == HitsOf(rest, x);
      } else {
        assert HitsOf(calls, x) == HitsOf(rest, x);
      }
    }
  }

  function Min(a: nat, b: nat): nat { if a < b then a else b }

  /** How many of the hits come before `end`. */
  function HitsBefore(hits: seq<real>, end: real): nat {
    if hits == [] then 0 else (if hits[0] < end then 1 else 0) + HitsBefore(hits[1..], end)
  }

  lemma {:induction false} NoHitsBefore(hits: seq<real>, end: real)
    requires forall t | t in hits :: end <= t
    ensures HitsBefore(hits, end) == 0
    decreases |hits|
  {
    if hits != [] {
      assert hits[0] in hits;
      assert forall t | t in hits[1..] :: t in hits;
      NoHitsBefore(hits[1..], end);
    }
  }

  /** To the end of its window a bucket admits exactly what it has left, or all that come. */
  lemma {:induction false} WindowAdmitsExactly(limit: nat, window: real, s: real, count: nat, hits: seq<real>)
    requires 0.0 < window && Sorted(hits) && (forall t | t in hits :: s <= t)
    ensures AdmittedIn(limit, window, Some(Bucket(s, count)), hits, s, s + window)
            == Min(if count < limit then limit - count else 0, HitsBefore(hits, s + window))
    decreases |hits|
  {
    if hits != [] {
      assert hits[0] in hits;
      if hits[0] < s + window {
        assert forall t | t in hits[1..] :: t in hits;
        WindowAdmitsExactly(limit, window, s, count + 1, hits[1..]);
      } else {
        NoneBeyond(limit, window, Some(Bucket(s, count)), hits, s, s + window);
        NoHitsBefore(hits, s + window);
      }
    }
  }

  lemma OpeningAdmitsExactly(limit: nat, window: real, b: Option<Bucket>, hits: seq<real>, from: real)
    requires 0.0 < window && Sorted(hits) && hits != [] && hits[0] == from && LiveAt(b, window, from) == None
    ensures AdmittedIn(limit, window, b, hits, from, from + window) == Min(limit, HitsBefore(hits, from + window))
  {
    assert forall t | t in hits[1..] :: from <= t;
    WindowAdmitsExactly(limit, window, from, 1, hits[1..]);
  }

  /** The calls for a key before `end`. */
  function CallsBefore(calls: seq<Call>, x: Key, end: real): nat {
    if calls == [] then 0
    else (if calls[0].key == x && calls[0].now < end then 1 else 0) + CallsBefore(calls[1..], x, end)
  }

  lemma {:induction false} CallsAreHits(calls: seq<Call>, x: Key, end: real)
    ensures CallsBefore(calls, x, end) == HitsBefore(HitsOf(calls, x), end)
    decreases |calls|
  {
    if calls != [] {
      CallsAreHits(calls[1..], x, end);
      if calls[0].key == x {
        assert HitsOf(calls, x)[1..] == HitsOf(calls[1..], x);
      } else {
        assert [] + HitsOf(calls[1..], x) == HitsOf(calls[1..], x);
      }
    }
  }

  /** A window admits exactly the limit, or every hit of it if they are fewer: counted from any call
      of the run that finds no live bucket of its key, to the end of the window it opens. */
  lemma WindowAdmitsTheLimit(calls: seq<Call>, limit: nat, window: real, maxKeys: nat, x: Key, i: nat)
    requires 0.0 < window && IsRun(calls, limit, window, maxKeys, x) && Unevicted(calls, window, x)
    requires i < |calls| && calls[i].key == x && Live(calls[i].before, window, x, calls[i].now) == None
    ensures AdmittedOf(calls[i..], x, calls[i].now, calls[i].now + window)
            == Min(limit, CallsBefore(calls[i..], x, calls[i].now + window))
  {
    RunGoesOnFrom(calls, limit, window, maxKeys, x, i);
    OpeningWindow(calls[i..], limit, window, maxKeys, x, calls[i].now, calls[i].now + window);
  }

  /** The n-th hit of a window is admitted if and only if n is at most the limit. */
  lemma NthHitIsAdmittedIff(calls: seq<Call>, limit: nat, window: real, maxKeys: nat, x: Key, i: nat, j: nat)
    requires 0.0 < window && IsRun(calls, limit, window, maxKeys, x) && Unevicted(calls, window, x)
    requires i <= j < |calls| && calls[i].key == x && Live(calls[i].before, window, x, calls[i].now) == None
    requires calls[j].key == x && calls[j].now < calls[i].now + window
    ensures calls[j].answer.allowed <==> CallsBefore(calls[i..j + 1], x, calls[i].now + window) <= limit
  {
    var start, end := calls[i].now, calls[i].now + window;
    assert start <= calls[j].now;
    var front, all := calls[i..j], calls[i..j + 1];
    OneCallLonger(calls, i, j);
    WindowSoFar(calls, limit, window, maxKeys, x, i, j + 1, start, end, all);
    WindowSoFar(calls, limit, window, maxKeys, x, i, j, start, end, front);
    LastIsAdmittedIff(front, calls[j], all, limit, x, start, end);
  }

  lemma OneCallLonger(calls: seq<Call>, i: nat, j: nat)
    requires i <= j < |calls|
    ensures calls[i..j + 1] == calls[i..j] + [calls[j]]
  {
  }

  lemma LastIsAdmittedIff(calls: seq<Call>, c: Call, all: seq<Call>, limit: nat, x: Key, start: real, end: real)
    requires c.key == x && start <= c.now < end && all == calls + [c]
    requires AdmittedOf(calls, x, start, end) == Min(limit, CallsBefore(calls, x, end))
    requires AdmittedOf(all, x, start, end) == Min(limit, CallsBefore(all, x, end))
    ensures c.answer.allowed <==> CallsBefore(all, x, end) <= limit
  {
    OneCallMore(calls, c, x, start, end);
  }

  /** The law of the window, up to any call. */
  lemma WindowSoFar(calls: seq<Call>, limit: nat, window: real, maxKeys: nat, x: Key, i: nat, j: nat,
                    start: real, end: real, front: seq<Call>)
    requires 0.0 < window && IsRun(calls, limit, window, maxKeys, x) && Unevicted(calls, window, x)
    requires i <= j <= |calls| && i < |calls| && calls[i].key == x && Live(calls[i].before, window, x, calls[i].now) == None
    requires start == calls[i].now && end == start + window && front == calls[i..j]
    ensures AdmittedOf(front, x, start, end) == Min(limit, CallsBefore(front, x, end))
  {
    if i < j {
      RunStopsAt(calls, limit, window, maxKeys, x, j);
      WindowAdmitsTheLimit(calls[..j], limit, window, maxKeys, x, i);
      assert calls[..j][i..] == calls[i..j];
    } else {
      assert calls[i..j] == [];
    }
  }

  lemma {:induction false} OneCallMore(calls: seq<Call>, c: Call, x: Key, start: real, end: real)
    requires c.key == x && start <= c.now < end
    ensures CallsBefore(calls + [c], x, end) == CallsBefore(calls, x, end) + 1
    ensures AdmittedOf(calls + [c], x, start, end) == AdmittedOf(calls, x, start, end) + if c.answer.allowed then 1 else 0
    decreases |calls|
  {
    if calls == [] {
      assert calls + [c] == [c];
    } else {
      assert (calls + [c])[1..] == calls[1..] + [c];
      OneCallMore(calls[1..], c, x, start, end);
    }
  }

  lemma RunStopsAt(calls: seq<Call>, limit: int, window: real, maxKeys: nat, x: Key, j: nat)
    requires IsRun(calls, limit, window, maxKeys, x) && Unevicted(calls, window, x) && j <= |calls|
    ensures IsRun(calls[..j], limit, window, maxKeys, x) && Unevicted(calls[..j], window, x)
  {
    var front := calls[..j];
    forall i | 0 < i < |front| ensures SameLiveOf(front[i - 1].after, front[i].before, window, x, front[i].now) {
      assert SameLiveOf(calls[i - 1].after, calls[i].before, window, x, calls[i].now);
    }
    assert forall c | c in front :: c in calls;
  }

  /** What is left of a run is a run. */
  lemma {:induction false} RunGoesOnFrom(calls: seq<Call>, limit: int, window: real, maxKeys: nat, x: Key, i: nat)
    requires IsRun(calls, limit, window, maxKeys, x) && Unevicted(calls, window, x) && i <= |calls|
    ensures IsRun(calls[i..], limit, window, maxKeys, x) && Unevicted(calls[i..], window, x)
    decreases i
  {
    if i == 0 {
      assert calls[0..] == calls;
    } else {
      RunGoesOnFrom(calls, limit, window, maxKeys, x, i - 1);
      var rest := calls[i - 1..];
      RunGoesOn(rest, limit, window, maxKeys, x);
      assert rest[1..] == calls[i..];
      assert forall c | c in calls[i..] :: c in calls;
    }
  }

  function BucketOf(buckets: Buckets, x: Key): Option<Bucket> { if x in buckets then Some(buckets[x]) else None }

  lemma BucketAgrees(buckets: Buckets, window: real, x: Key, from: real)
    ensures Agrees(BucketOf(buckets, x), buckets, window, x, from)
    ensures LiveAt(BucketOf(buckets, x), window, from) == Live(buckets, window, x, from)
  {
  }

  /** Over every run and for every key that is not evicted: at most twice the limit in any interval
      of one window length. */
  lemma AdmissionBounds(calls: seq<Call>, limit: nat, window: real, maxKeys: nat, x: Key, from: real)
    requires 0.0 < window && IsRun(calls, limit, window, maxKeys, x) && Unevicted(calls, window, x)
    ensures AdmittedOf(calls, x, from, from + window) <= 2 * limit
  {
    if calls != [] {
      var b := BucketOf(calls[0].before, x);
      AdmittedByOwnBucket(calls, limit, window, maxKeys, x, from, from + window);
      TwiceTheLimit(limit, window, b, HitsOf(calls, x), from);
    }
  }

  /** The admitted hits of a key over a run are those of its own bucket. */
  lemma AdmittedByOwnBucket(calls: seq<Call>, limit: nat, window: real, maxKeys: nat, x: Key, from: real, to: real)
    requires 0.0 < window && IsRun(calls, limit, window, maxKeys, x) && Unevicted(calls, window, x) && calls != []
    ensures var b := BucketOf(calls[0].before, x);
            AdmittedOf(calls, x, from, to) == AdmittedIn(limit, window, b, HitsOf(calls, x), from, to)
    ensures Sorted(HitsOf(calls, x))
  {
    BucketAgrees(calls[0].before, window, x, calls[0].now);
    KeysDoNotInterfere(calls, limit, window, maxKeys, x, BucketOf(calls[0].before, x), from, to);
    HitsAreSorted(calls, x);
  }

  lemma FirstIsAHit(calls: seq<Call>, x: Key)
    requires calls != [] && calls[0].key == x
    ensures HitsOf(calls, x) != [] && HitsOf(calls, x)[0] == calls[0].now
  {
  }

  lemma OpeningByOwnBucket(calls: seq<Call>, limit: nat, window: real, before: Buckets, x: Key, from: real, end: real)
    requires 0.0 < window && Sorted(HitsOf(calls, x)) && calls != [] && calls[0].key == x && calls[0].now == from
    requires Live(before, window, x, from) == None && end == from + window
    ensures AdmittedIn(limit, window, BucketOf(before, x), HitsOf(calls, x), from, end) == Min(limit, CallsBefore(calls, x, end))
  {
    BucketAgrees(before, window, x, from);
    FirstIsAHit(calls, x);
    OpeningAdmitsExactly(limit, window, BucketOf(before, x), HitsOf(calls, x), from);
    CallsAreHits(calls, x, end);
  }

  lemma OpeningWindow(calls: seq<Call>, limit: nat, window: real, maxKeys: nat, x: Key, from: real, end: real)
    requires 0.0 < window && IsRun(calls, limit, window, maxKeys, x) && Unevicted(calls, window, x)
    requires calls != [] && calls[0].key == x && Live(calls[0].before, window, x, calls[0].now) == None
    requires from == calls[0].now && end == from + window
    ensures AdmittedOf(calls, x, from, end) == Min(limit, CallsBefore(calls, x, end))
  {
    AdmittedByOwnBucket(calls, limit, window, maxKeys, x, from, end);
    OpeningByOwnBucket(calls, limit, window, calls[0].before, x, from, end);
  }
}
