/** The in-process resolution cache of API keys and its tombstones: the three critical sections,
    and their coherence with committed state under any interleaving of readers and mutators. */
module KeyCache {
  import opened Basics
  import opened Runs

  type Key = nat
  type Instant = nat

  const CACHE_TTL: nat := 60

  /** A cached row is identified by its version: the number of commits that changed it before. */
  datatype Entry = Entry(version: nat, expiresAt: Instant)

  /** Python dictionaries remember insertion order; eviction removes the oldest key. */
  datatype Dict<V> = Dict(entries: map<Key, V>, order: seq<Key>)
  {
    ghost predicate Valid() {
      && (forall k :: k in entries <==> k in order)
      && (forall i, j | 0 <= i < j < |order| :: order[i] != order[j])
    }

    function Without(k: Key): (d: Dict<V>)
      requires Valid()
      ensures d.Valid() && d.entries == entries - {k}
    {
      WithoutIsValid(order, k);
      Dict(entries - {k}, Remove(order, k))
    }

    function With(k: Key, v: V): (d: Dict<V>)
      requires Valid()
      ensures d.Valid() && d.entries == entries[k := v]
    {
      Dict(entries[k := v], if k in entries then order else order + [k])
    }

    /** Make room for `k` in a dictionary of at most `cap` keys. */
    function RoomFor(k: Key, cap: nat): (d: Dict<V>)
      requires Valid()
      ensures d.Valid()
      ensures d.entries == if Victim(k, cap) == None then entries else entries - {Victim(k, cap).value}
    {
      if Victim(k, cap) == None then this else Without(Victim(k, cap).value)
    }

    function Victim(k: Key, cap: nat): Option<Key> {
      if k !in entries && |entries| >= cap && order != [] then Some(order[0]) else None
    }
  }

  function Remove(order: seq<Key>, k: Key): (r: seq<Key>)
    ensures forall x :: x in r <==> x in order && x != k
  {
    if order == [] then []
    else if order[0] == k then Remove(order[1..], k) else [order[0]] + Remove(order[1..], k)
  }

  lemma {:induction false} WithoutIsValid(order: seq<Key>, k: Key)
    requires forall i, j | 0 <= i < j < |order| :: order[i] != order[j]
    ensures forall i, j | 0 <= i < j < |Remove(order, k)| :: Remove(order, k)[i] != Remove(order, k)[j]
  {
    if order != [] {
      WithoutIsValid(order[1..], k);
      assert order[0] !in order[1..];
    }
  }

  /** Taking a key out leaves the others in their order. */
  lemma {:induction false} RemoveAt(order: seq<Key>, i: nat)
    requires i < |order| && forall j, l | 0 <= j < l < |order| :: order[j] != order[l]
    ensures Remove(order, order[i]) == order[..i] + order[i + 1..]
  {
    if i == 0 {
      RemoveNothing(order[1..], order[0]);
    } else {
      RemoveAt(order[1..], i - 1);
      assert order == [order[0]] + order[1..];
    }
  }

  lemma {:induction false} RemoveNothing(order: seq<Key>, k: Key)
    requires k !in order
    ensures Remove(order, k) == order
  {
    if order != [] {
      RemoveNothing(order[1..], k);
    }
  }

  /** Only this key is gone, and the others are in line as before. */
  ghost predicate IsTaken<V>(before: Dict<V>, after: Dict<V>, k: Key) {
    && (k !in before.order ==> after == before)
    && (forall i | 0 <= i < |before.order| && before.order[i] == k ::
          after == Dict(before.entries - {k}, before.order[..i] + before.order[i + 1..]))
  }

  lemma TakenIs<V>(before: Dict<V>, k: Key)
    requires before.Valid()
    ensures IsTaken(before, before.Without(k), k)
  {
    if k !in before.order {
      RemoveNothing(before.order, k);
      assert before.entries - {k} == before.entries;
    }
    forall i | 0 <= i < |before.order| && before.order[i] == k
      ensures Remove(before.order, k) == before.order[..i] + before.order[i + 1..]
    {
      RemoveAt(before.order, i);
    }
  }

  /** First in, first out: the key is written, a new one goes to the end of the line, and only a new
      key at the bound takes away an entry, the one that has been in line for longest. */
  ghost predicate IsPut<V>(before: Dict<V>, after: Dict<V>, k: Key, v: V, cap: nat) {
    var pushedOut := k !in before.entries && |before.order| >= cap && before.order != [];
    && (forall x :: x in after.entries <==> x == k || (x in before.entries && (pushedOut ==> x != before.order[0])))
    && after.entries[k] == v
    && (forall x | x in after.entries && x != k :: after.entries[x] == before.entries[x])
    && after.order == if k in before.entries then before.order
                      else if pushedOut then before.order[1..] + [k]
                      else before.order + [k]
  }

  lemma {:induction false} DistinctSize(keys: set<Key>, order: seq<Key>)
    requires forall i, j | 0 <= i < j < |order| :: order[i] != order[j]
    requires forall k :: k in keys <==> k in order
    ensures |keys| == |order|
    decreases |order|
  {
    if order == [] {
      assert keys == {};
    } else {
      var n := |order| - 1;
      assert order == order[..n] + [order[n]];
      DistinctSize(keys - {order[n]}, order[..n]);
    }
  }

  lemma AsManyEntries<V>(entries: map<Key, V>, order: seq<Key>)
    requires Dict(entries, order).Valid()
    ensures |entries| == |order|
  {
    DistinctSize(entries.Keys, order);
    assert |entries| == |entries.Keys|;
  }

  lemma PutIs<V>(before: Dict<V>, k: Key, v: V, cap: nat)
    requires before.Valid()
    ensures IsPut(before, before.RoomFor(k, cap).With(k, v), k, v, cap)
  {
    AsManyEntries(before.entries, before.order);
    if before.Victim(k, cap) != None {
      RemoveAt(before.order, 0);
    }
  }

  // ----- the critical sections -----

  /** `invalidate` once it holds the lock, with the clock reading `now`. */
  function Invalidated(tombstones: Dict<Instant>, k: Key, now: Instant, cap: nat): (d: Dict<Instant>)
    requires tombstones.Valid()
    ensures d.Valid() && IsPut(tombstones, d, k, now, cap)
  {
    PutIs(tombstones, k, now, cap);
    tombstones.RoomFor(k, cap).With(k, now)
  }

  /** `_store_unless_stale` once the row may be stored. */
  function Stored(cache: Dict<Entry>, k: Key, entry: Entry, cap: nat): (d: Dict<Entry>)
    requires cache.Valid()
    ensures d.Valid() && IsPut(cache, d, k, entry, cap)
  {
    PutIs(cache, k, entry, cap);
    cache.RoomFor(k, cap).With(k, entry)
  }

  /** A read that began at or before the latest tombstone of its key may be stale. */
  predicate MayStore(tombstones: Dict<Instant>, k: Key, readStartedAt: Instant) {
    k !in tombstones.entries || tombstones.entries[k] < readStartedAt
  }

  class Cache {
    const maxEntries: nat
    const maxTombstones: nat
    var cache: Dict<Entry>
    var tombstones: Dict<Instant>

    ghost predicate Valid() reads this { cache.Valid() && tombstones.Valid() }

    constructor (maxEntries: nat, maxTombstones: nat)
      ensures Valid() && cache.entries == map[] && tombstones.entries == map[]
      ensures this.maxEntries == maxEntries && this.maxTombstones == maxTombstones
    {
      this.maxEntries, this.maxTombstones := maxEntries, maxTombstones;
      cache, tombstones := Dict(map[], []), Dict(map[], []);
    }

    method Invalidate(k: Key, now: Instant)
      requires Valid()
      modifies this
      ensures Valid() && IsTaken(old(cache), cache, k)
      ensures tombstones == Invalidated(old(tombstones), k, now, maxTombstones)
      ensures IsPut(old(tombstones), tombstones, k, now, maxTombstones)
    {
      TakenIs(cache, k);
      cache := cache.Without(k);
      var victim := tombstones.Victim(k, maxTombstones);
      if victim != None {
        tombstones := tombstones.Without(victim.value);
      }
      tombstones := tombstones.With(k, now);
    }

    method Lookup(k: Key, now: Instant) returns (hit: Option<nat>)
      requires Valid()
      ensures hit == if k in cache.entries && now < cache.entries[k].expiresAt then Some(cache.entries[k].version) else None
    {
      hit := None;
      if k in cache.entries {
        var entry := cache.entries[k];
        if now < entry.expiresAt {
          hit := Some(entry.version);
        }
      }
    }

    method StoreUnlessStale(k: Key, version: nat, readStartedAt: Instant, now: Instant)
      requires Valid()
      modifies `cache
      ensures Valid()
      ensures cache == if MayStore(tombstones, k, readStartedAt)
                       then Stored(old(cache), k, Entry(version, now + CACHE_TTL), maxEntries)
                       else old(cache)
      ensures if k in tombstones.entries && readStartedAt <= tombstones.entries[k] then cache == old(cache)
              else IsPut(old(cache), cache, k, Entry(version, now + 60), maxEntries)
    {
      if k in tombstones.entries && tombstones.entries[k] >= readStartedAt {
        return;
      }
      var victim := cache.Victim(k, maxEntries);
      if victim != None {
        cache := cache.Without(victim.value);
      }
      cache := cache.With(k, Entry(version, now + CACHE_TTL));
    }
  }

  // ----- readers and mutators, interleaved -----

  type ReaderId = nat
  type MutatorId = nat

  /** `floor` is the newest version whose invalidation had finished when the call began. */
  datatype Reader =
    | Called(key: Key, now: Instant, floor: nat)
    | Missed(key: Key, now: Instant, floor: nat)
    | Started(key: Key, now: Instant, floor: nat, startedAt: Instant)
    | Loaded(key: Key, now: Instant, floor: nat, startedAt: Instant, version: nat)
    | Answered(key: Key, floor: nat, version: nat)

  /** After its commit a mutator invalidates: it reads the clock, then takes the lock. */
  datatype Mutator =
    | Committed(key: Key, version: nat)
    | ClockRead(key: Key, version: nat, at: Instant)

  /** The two assumptions coherence rests on, each on or off.  `ordered`: a tombstone is never
      replaced by an earlier one (the clock is read before the lock is taken, so it could be).
      `guarded`: eviction does not drop the tombstone of a key whose row a reader holds. */
  datatype Discipline = Discipline(ordered: bool, guarded: bool, maxEntries: nat, maxTombstones: nat)

  datatype State = State(
    clock: Instant,
    db: map<Key, nat>,
    finished: map<Key, nat>,
    cache: Dict<Entry>,
    tombstones: Dict<Instant>,
    readers: map<ReaderId, Reader>,
    mutators: map<MutatorId, Mutator>)

  function Initial(keys: set<Key>): State {
    State(0, map k | k in keys :: 0, map k | k in keys :: 0, Dict(map[], []), Dict(map[], []), map[], map[])
  }

  datatype Step =
    | Tick
    | Call(r: ReaderId, key: Key)
    | LookUp(r: ReaderId)
    | StartRead(r: ReaderId)
    | LoadRow(r: ReaderId)
    | Store(r: ReaderId)
    | EarlyInvalidate(m: MutatorId, key: Key)
    | CommitChange(m: MutatorId, key: Key)
    | ReadClock(m: MutatorId)
    | WriteTombstone(m: MutatorId)

  ghost predicate HoldsRow(s: State, key: Key) {
    exists r :: r in s.readers && s.readers[r].Loaded? && s.readers[r].key == key
  }

  ghost predicate Enabled(d: Discipline, s: State, step: Step) {
    match step
    case Tick => true
    case Call(r, key) => r !in s.readers && key in s.db && key in s.finished
    case LookUp(r) => r in s.readers && s.readers[r].Called?
    case StartRead(r) => r in s.readers && s.readers[r].Missed?
    case LoadRow(r) => r in s.readers && s.readers[r].Started? && s.readers[r].key in s.db
    case Store(r) => r in s.readers && s.readers[r].Loaded? && s.cache.Valid()
    case EarlyInvalidate(m, key) => m !in s.mutators && key in s.db
    case CommitChange(m, key) => m !in s.mutators && key in s.db
    case ReadClock(m) => m in s.mutators && s.mutators[m].Committed?
    case WriteTombstone(m) =>
      && m in s.mutators && s.mutators[m].ClockRead? && s.cache.Valid() && s.tombstones.Valid()
      && s.mutators[m].key in s.finished
      && (d.ordered ==> var k := s.mutators[m].key;
                        k in s.tombstones.entries ==> s.tombstones.entries[k] <= s.mutators[m].at)
      && (d.guarded ==> var victim := s.tombstones.Victim(s.mutators[m].key, d.maxTombstones);
                        victim != None ==> !HoldsRow(s, victim.value))
  }

  function CacheAfter(d: Discipline, cache: Dict<Entry>, tombstones: Dict<Instant>, reader: Reader): (c: Dict<Entry>)
    requires reader.Loaded? && cache.Valid()
    ensures c.Valid()
    ensures forall x | x in c.entries ::
              || (x in cache.entries && c.entries[x] == cache.entries[x])
              || (x == reader.key && c.entries[x].version == reader.version
                  && MayStore(tombstones, reader.key, reader.startedAt))
  {
    if MayStore(tombstones, reader.key, reader.startedAt)
    then Stored(cache, reader.key, Entry(reader.version, reader.now + CACHE_TTL), d.maxEntries)
    else cache
  }

  ghost function Apply(d: Discipline, s: State, step: Step): State
    requires Enabled(d, s, step)
  {
    match step
    case Tick => s.(clock := s.clock + 1)
    case Call(r, key) => s.(readers := s.readers[r := Called(key, s.clock, s.finished[key])])
    case LookUp(r) =>
      var reader := s.readers[r];
      if reader.key in s.cache.entries && reader.now < s.cache.entries[reader.key].expiresAt then
        s.(readers := s.readers[r := Answered(reader.key, reader.floor, s.cache.entries[reader.key].version)])
      else s.(readers := s.readers[r := Missed(reader.key, reader.now, reader.floor)])
    case StartRead(r) =>
      var reader := s.readers[r];
      s.(readers := s.readers[r := Started(reader.key, reader.now, reader.floor, s.clock)])
    case LoadRow(r) =>
      var reader := s.readers[r];
      s.(readers := s.readers[r := Loaded(reader.key, reader.now, reader.floor, reader.startedAt, s.db[reader.key])])
    case Store(r) =>
      s.(readers := s.readers[r := Answered(s.readers[r].key, s.readers[r].floor, s.readers[r].version)],
         cache := CacheAfter(d, s.cache, s.tombstones, s.readers[r]))
    case EarlyInvalidate(m, key) => s.(mutators := s.mutators[m := Committed(key, 0)])
    case CommitChange(m, key) =>
      s.(db := s.db[key := s.db[key] + 1], mutators := s.mutators[m := Committed(key, s.db[key] + 1)])
    case ReadClock(m) =>
      s.(mutators := s.mutators[m := ClockRead(s.mutators[m].key, s.mutators[m].version, s.clock)])
    case WriteTombstone(m) =>
      var mutator := s.mutators[m];
      s.(cache := s.cache.Without(mutator.key),
         tombstones := Invalidated(s.tombstones, mutator.key, mutator.at, d.maxTombstones),
         finished := if s.finished[mutator.key] < mutator.version
                     then s.finished[mutator.key := mutator.version] else s.finished,
         mutators := s.mutators - {m})
  }

  ghost function Next(d: Discipline): (State, Step, State) -> bool {
    (s: State, step: Step, s': State) => Enabled(d, s, step) && s' == Apply(d, s, step)
  }

  ghost predicate Reachable(d: Discipline, keys: set<Key>, s: State) {
    Reaches(Next(d), Initial(keys), s)
  }

  /** No call returns a value older than a change whose invalidation had finished before it. */
  ghost predicate Coherent(s: State) {
    forall r | r in s.readers && s.readers[r].Answered? :: s.readers[r].version >= s.readers[r].floor
  }

  /** A loaded row is new enough, or a tombstone will refuse it. */
  ghost predicate ReaderOk(clock: Instant, db: map<Key, nat>, finished: map<Key, nat>, tombstones: map<Key, Instant>,
                           mutators: map<MutatorId, Mutator>, reader: Reader)
  {
    && reader.key in db && reader.key in finished
    && reader.floor <= finished[reader.key]
    && (reader.Started? || reader.Loaded? ==> reader.startedAt <= clock)
    && (reader.Loaded? ==>
          && reader.floor <= reader.version <= db[reader.key]
          && (reader.version >= finished[reader.key]
              || (reader.key in tombstones && reader.startedAt <= tombstones[reader.key]))
          && (forall m | m in mutators && mutators[m].ClockRead? && mutators[m].key == reader.key ::
                mutators[m].at < reader.startedAt ==> mutators[m].version <= reader.version))
    && (reader.Answered? ==> reader.floor <= reader.version)
  }

  ghost predicate ReadersOk(clock: Instant, db: map<Key, nat>, finished: map<Key, nat>, tombstones: map<Key, Instant>,
                            mutators: map<MutatorId, Mutator>, readers: map<ReaderId, Reader>)
  {
    forall r | r in readers :: ReaderOk(clock, db, finished, tombstones, mutators, readers[r])
  }

  /** Nothing invalidated is in the cache, and nothing is ahead of the database. */
  ghost predicate CacheOk(db: map<Key, nat>, finished: map<Key, nat>, cache: map<Key, Entry>) {
    && db.Keys == finished.Keys
    && (forall k | k in db :: finished[k] <= db[k])
    && (forall k | k in cache :: k in db && finished[k] <= cache[k].version)
  }

  ghost predicate MutatorsOk(clock: Instant, db: map<Key, nat>, mutators: map<MutatorId, Mutator>) {
    forall m | m in mutators ::
      && mutators[m].key in db && mutators[m].version <= db[mutators[m].key]
      && (mutators[m].ClockRead? ==> mutators[m].at <= clock)
  }

  ghost predicate Inv(s: State) {
    && s.cache.Valid() && s.tombstones.Valid()
    && CacheOk(s.db, s.finished, s.cache.entries)
    && MutatorsOk(s.clock, s.db, s.mutators)
    && ReadersOk(s.clock, s.db, s.finished, s.tombstones.entries, s.mutators, s.readers)
  }

  lemma ReaderMoves(s: State, r: ReaderId, reader: Reader)
    requires Inv(s) && ReaderOk(s.clock, s.db, s.finished, s.tombstones.entries, s.mutators, reader)
    ensures Inv(s.(readers := s.readers[r := reader]))
  {
  }

  /** A row that may be stored is no older than what has been invalidated. */
  lemma StoredIsFresh(d: Discipline, s: State, r: ReaderId)
    requires Inv(s) && r in s.readers && s.readers[r].Loaded?
    ensures s.readers[r].key in s.db && s.readers[r].floor <= s.readers[r].version
    ensures CacheOk(s.db, s.finished, CacheAfter(d, s.cache, s.tombstones, s.readers[r]).entries)
  {
    assert ReaderOk(s.clock, s.db, s.finished, s.tombstones.entries, s.mutators, s.readers[r]);
  }

  lemma StoreKeepsInv(d: Discipline, s: State, r: ReaderId)
    requires Inv(s) && r in s.readers && s.readers[r].Loaded?
    ensures var reader := s.readers[r];
            Inv(s.(readers := s.readers[r := Answered(reader.key, reader.floor, reader.version)],
                   cache := CacheAfter(d, s.cache, s.tombstones, reader)))
  {
    var reader := s.readers[r];
    StoredIsFresh(d, s, r);
    assert ReaderOk(s.clock, s.db, s.finished, s.tombstones.entries, s.mutators,
                    Answered(reader.key, reader.floor, reader.version));
  }

  lemma MutatorKeepsInv(d: Discipline, s: State, step: Step)
    requires Inv(s) && Enabled(d, s, step)
    requires step.EarlyInvalidate? || step.CommitChange? || step.ReadClock? || step.Tick?
    ensures Inv(Apply(d, s, step))
  {
    var s' := Apply(d, s, step);
    forall r | r in s'.readers
      ensures ReaderOk(s'.clock, s'.db, s'.finished, s'.tombstones.entries, s'.mutators, s'.readers[r])
    {
      assert ReaderOk(s.clock, s.db, s.finished, s.tombstones.entries, s.mutators, s.readers[r]);
    }
  }

  lemma TombstoneKeepsCache(clock: Instant, db: map<Key, nat>, finished: map<Key, nat>, cache: map<Key, Entry>,
                            mutators: map<MutatorId, Mutator>, m: MutatorId)
    requires CacheOk(db, finished, cache) && MutatorsOk(clock, db, mutators)
    requires m in mutators && mutators[m].key in finished
    ensures var k := mutators[m].key;
            var finished' := if finished[k] < mutators[m].version then finished[k := mutators[m].version] else finished;
            CacheOk(db, finished', cache - {k}) && MutatorsOk(clock, db, mutators - {m})
  {
  }

  /** The heart of the argument: a reader whose row is older than the invalidated change began
      its read no later than the tombstone says, so the tombstone will refuse it. */
  lemma TombstoneKeepsReader(clock: Instant, db: map<Key, nat>, finished: map<Key, nat>, tombs: map<Key, Instant>,
                             mutators: map<MutatorId, Mutator>, reader: Reader, m: MutatorId, victim: Option<Key>)
    requires ReaderOk(clock, db, finished, tombs, mutators, reader)
    requires m in mutators && mutators[m].ClockRead? && mutators[m].key in finished
    requires mutators[m].key in tombs ==> tombs[mutators[m].key] <= mutators[m].at
    requires reader.Loaded? ==> victim != Some(reader.key)
    ensures var k := mutators[m].key;
            var kept := if victim == None then tombs else tombs - {victim.value};
            var finished' := if finished[k] < mutators[m].version then finished[k := mutators[m].version] else finished;
            ReaderOk(clock, db, finished', kept[k := mutators[m].at], mutators - {m}, reader)
  {
  }

  lemma TombstoneKeepsInv(d: Discipline, s: State, m: MutatorId)
    requires d.ordered && d.guarded && Inv(s) && Enabled(d, s, WriteTombstone(m))
    ensures Inv(Apply(d, s, WriteTombstone(m)))
  {
    var k := s.mutators[m].key;
    var victim := s.tombstones.Victim(k, d.maxTombstones);
    var s' := Apply(d, s, WriteTombstone(m));
    TombstoneKeepsCache(s.clock, s.db, s.finished, s.cache.entries, s.mutators, m);
    forall r | r in s.readers
      ensures ReaderOk(s.clock, s.db, s'.finished, s'.tombstones.entries, s'.mutators, s.readers[r])
    {
      if s.readers[r].Loaded? { assert HoldsRow(s, s.readers[r].key); }
      TombstoneKeepsReader(s.clock, s.db, s.finished, s.tombstones.entries, s.mutators, s.readers[r], m, victim);
    }
  }

  lemma ReaderStaysOk(d: Discipline, s: State, step: Step, r: ReaderId)
    requires Inv(s) && Enabled(d, s, step)
    requires step == LookUp(r) || step == StartRead(r) || step == LoadRow(r)
    ensures var reader := Apply(d, s, step).readers[r];
            && ReaderOk(s.clock, s.db, s.finished, s.tombstones.entries, s.mutators, reader)
            && Apply(d, s, step) == s.(readers := s.readers[r := reader])
  {
    assert ReaderOk(s.clock, s.db, s.finished, s.tombstones.entries, s.mutators, s.readers[r]);
  }

  lemma ReaderKeepsInv(d: Discipline, s: State, step: Step, r: ReaderId)
    requires Inv(s) && Enabled(d, s, step)
    requires step == LookUp(r) || step == StartRead(r) || step == LoadRow(r)
    ensures Inv(Apply(d, s, step))
  {
    ReaderStaysOk(d, s, step, r);
    ReaderMoves(s, r, Apply(d, s, step).readers[r]);
  }

  lemma StepKeepsInv(d: Discipline, s: State, step: Step)
    requires d.ordered && d.guarded && Inv(s) && Enabled(d, s, step)
    ensures Inv(Apply(d, s, step))
  {
    match step {
      case Call(r, key) => ReaderMoves(s, r, Called(key, s.clock, s.finished[key]));
      case LookUp(r) => ReaderKeepsInv(d, s, step, r);
      case StartRead(r) => ReaderKeepsInv(d, s, step, r);
      case LoadRow(r) => ReaderKeepsInv(d, s, step, r);
      case Store(r) => StoreKeepsInv(d, s, r);
      case WriteTombstone(m) => TombstoneKeepsInv(d, s, m);
      case _ => MutatorKeepsInv(d, s, step);
    }
  }

  // ----- when eviction cannot hurt -----

  /** How many tombstones fit: one is always kept, also at a bound of none. */
  function Room(cap: nat): nat { if cap == 0 then 1 else cap }

  ghost predicate TombstonesWithin(keys: set<Key>, s: State) {
    && s.tombstones.Valid() && s.tombstones.entries.Keys <= keys && s.db.Keys == keys
    && (forall m | m in s.mutators :: s.mutators[m].key in keys)
  }

  lemma StepKeepsWithin(d: Discipline, keys: set<Key>, s: State, step: Step)
    requires TombstonesWithin(keys, s) && Enabled(d, s, step)
    ensures TombstonesWithin(keys, Apply(d, s, step))
  {
  }

  /** With room for every key no tombstone is ever evicted. */
  lemma NoVictim(tombstones: Dict<Instant>, keys: set<Key>, k: Key, cap: nat)
    requires tombstones.Valid() && tombstones.entries.Keys <= keys && k in keys && |keys| <= Room(cap)
    ensures tombstones.Victim(k, cap) == None
  {
    if k !in tombstones.entries {
      SubsetIsNoLarger(tombstones.entries.Keys, keys - {k});
      assert |tombstones.entries| == |tombstones.entries.Keys|;
      if tombstones.order != [] {
        assert tombstones.order[0] in tombstones.entries;
      }
    }
  }

  function Strict(d: Discipline): Discipline { d.(ordered := true, guarded := true) }

  /** The condition under which the cache needs no further discipline. */
  predicate IsSafe(d: Discipline, keys: set<Key>) {
    keys == {} || (d.ordered && (d.guarded || |keys| <= Room(d.maxTombstones)))
  }

  lemma SafeStepsAreStrict(d: Discipline, keys: set<Key>, s: State, step: Step)
    requires IsSafe(d, keys) && TombstonesWithin(keys, s) && Enabled(d, s, step)
    ensures Enabled(Strict(d), s, step) && Apply(d, s, step) == Apply(Strict(d), s, step)
  {
    if step.WriteTombstone? {
      assert s.mutators[step.m].key in keys;
      if !d.guarded {
        NoVictim(s.tombstones, keys, s.mutators[step.m].key, d.maxTombstones);
      }
    }
  }

  lemma SafeCacheIsCoherent(d: Discipline, keys: set<Key>, s: State)
    requires IsSafe(d, keys) && Reachable(d, keys, s)
    ensures Inv(s) && Coherent(s)
  {
    var keeps := (x: State) => Inv(x) && TombstonesWithin(keys, x);
    forall x, step, y | keeps(x) && Next(d)(x, step, y) ensures keeps(y) {
      SafeStepsAreStrict(d, keys, x, step);
      StepKeepsInv(Strict(d), x, step);
      StepKeepsWithin(d, keys, x, step);
    }
    ReachableKeeps(Next(d), keeps, Initial(keys), s);
  }

  // ----- the bounds -----

  lemma PutStaysWithin<V>(before: Dict<V>, after: Dict<V>, k: Key, v: V, cap: nat)
    requires before.Valid() && after.Valid() && IsPut(before, after, k, v, cap) && |before.entries| <= Room(cap)
    ensures |after.entries| <= Room(cap)
  {
    AsManyEntries(before.entries, before.order);
    AsManyEntries(after.entries, after.order);
  }

  lemma WithoutIsNoLarger<V>(d: Dict<V>, k: Key)
    requires d.Valid()
    ensures |d.Without(k).entries| <= |d.entries|
  {
    SubsetIsNoLarger((d.entries - {k}).Keys, d.entries.Keys);
    assert |d.entries| == |d.entries.Keys| && |d.entries - {k}| == |(d.entries - {k}).Keys|;
  }

  ghost predicate Bounded(d: Discipline, s: State) {
    && s.cache.Valid() && s.tombstones.Valid()
    && |s.cache.entries| <= Room(d.maxEntries) && |s.tombstones.entries| <= Room(d.maxTombstones)
  }

  lemma StepKeepsBounded(d: Discipline, s: State, step: Step)
    requires Bounded(d, s) && Enabled(d, s, step)
    ensures Bounded(d, Apply(d, s, step))
  {
    match step {
      case Store(r) =>
        var reader := s.readers[r];
        if MayStore(s.tombstones, reader.key, reader.startedAt) {
          var entry := Entry(reader.version, reader.now + CACHE_TTL);
          PutStaysWithin(s.cache, Stored(s.cache, reader.key, entry, d.maxEntries), reader.key, entry, d.maxEntries);
        }
      case WriteTombstone(m) =>
        var mutator := s.mutators[m];
        WithoutIsNoLarger(s.cache, mutator.key);
        PutStaysWithin(s.tombstones, Invalidated(s.tombstones, mutator.key, mutator.at, d.maxTombstones),
                       mutator.key, mutator.at, d.maxTombstones);
      case _ =>
    }
  }

  /** Neither table ever outgrows its bound, under any discipline. */
  lemma BoundsAlwaysHold(d: Discipline, keys: set<Key>, s: State)
    requires Reachable(d, keys, s)
    ensures |s.cache.entries| <= Room(d.maxEntries) && |s.tombstones.entries| <= Room(d.maxTombstones)
  {
    var keeps := (x: State) => Bounded(d, x);
    forall x, step, y | keeps(x) && Next(d)(x, step, y) ensures keeps(y) {
      StepKeepsBounded(d, x, step);
    }
    ReachableKeeps(Next(d), keeps, Initial(keys), s);
  }

  // ----- runs that serve a stale row -----

  lemma StepReaches(d: Discipline, keys: set<Key>, s: State, step: Step) returns (s': State)
    requires Reachable(d, keys, s) && Enabled(d, s, step)
    ensures Reachable(d, keys, s') && s' == Apply(d, s, step)
  {
    s' := Apply(d, s, step);
    StepOn(Next(d), Initial(keys), s, step, s');
  }

  const NO_ENTRIES: Dict<Entry> := Dict(map[], [])

  const NO_TOMBSTONES: Dict<Instant> := Dict(map[], [])

  lemma NothingToRemove(k: Key)
    ensures NO_ENTRIES.Valid() && NO_ENTRIES.Without(k) == NO_ENTRIES
  {
  }

  lemma FirstTombstone(k: Key, t: Instant, cap: nat)
    ensures NO_TOMBSTONES.Valid() && NO_TOMBSTONES.Victim(k, cap) == None
    ensures Invalidated(NO_TOMBSTONES, k, t, cap) == Dict(map[k := t], [k])
  {
  }

  lemma ReaderHoldsRow(d: Discipline, keys: set<Key>, s: State, k: Key) returns (s': State)
    requires Reachable(d, keys, s) && k in s.db && k in s.finished && s.cache == NO_ENTRIES && s.readers == map[]
    ensures Reachable(d, keys, s')
    ensures s' == s.(readers := map[0 := Loaded(k, s.clock, s.finished[k], s.clock, s.db[k])])
  {
    s' := StepReaches(d, keys, s, Call(0, k));
    s' := StepReaches(d, keys, s', LookUp(0));
    s' := StepReaches(d, keys, s', StartRead(0));
    s' := StepReaches(d, keys, s', LoadRow(0));
  }

  lemma ChangeReadsClock(d: Discipline, keys: set<Key>, s: State, k: Key, m: MutatorId) returns (s': State)
    requires Reachable(d, keys, s) && k in s.db && m !in s.mutators
    ensures Reachable(d, keys, s')
    ensures s' == s.(db := s.db[k := s.db[k] + 1], mutators := s.mutators[m := ClockRead(k, s.db[k] + 1, s.clock)])
  {
    var v := s.db[k] + 1;
    var s1 := StepReaches(d, keys, s, CommitChange(m, k));
    assert s1 == s.(db := s.db[k := v], mutators := s.mutators[m := Committed(k, v)]);
    s' := StepReaches(d, keys, s1, ReadClock(m));
    assert s'.mutators == s.mutators[m := ClockRead(k, v, s.clock)];
  }

  /** A mutator that is about to write the first tombstone of all. */
  predicate FirstIsDue(s: State, m: MutatorId, k: Key, v: nat) {
    && k in s.finished && s.finished[k] < v && s.cache == NO_ENTRIES && s.tombstones == NO_TOMBSTONES
    && m in s.mutators && s.mutators[m] == ClockRead(k, v, s.clock)
  }

  lemma FirstIsEnabled(d: Discipline, s: State, m: MutatorId, k: Key, v: nat)
    requires FirstIsDue(s, m, k, v)
    ensures Enabled(d, s, WriteTombstone(m))
  {
    NothingToRemove(k);
    FirstTombstone(k, s.clock, d.maxTombstones);
  }

  lemma FirstInvalidation(d: Discipline, keys: set<Key>, s: State, m: MutatorId, k: Key, v: nat) returns (s': State)
    requires Reachable(d, keys, s) && FirstIsDue(s, m, k, v)
    ensures Reachable(d, keys, s')
    ensures s' == s.(finished := s.finished[k := v], tombstones := Dict(map[k := s.clock], [k]), mutators := s.mutators - {m})
  {
    FirstIsEnabled(d, s, m, k, v);
    s' := StepReaches(d, keys, s, WriteTombstone(m));
    NothingToRemove(k);
    FirstTombstone(k, s.clock, d.maxTombstones);
  }

  lemma ChangeIsInvalidated(d: Discipline, keys: set<Key>, s: State, k: Key) returns (s': State)
    requires Reachable(d, keys, s) && k in s.db && k in s.finished && s.finished[k] <= s.db[k]
    requires s.cache == NO_ENTRIES && s.tombstones == NO_TOMBSTONES && 1 !in s.mutators
    ensures Reachable(d, keys, s')
    ensures s' == s.(db := s.db[k := s.db[k] + 1], finished := s.finished[k := s.db[k] + 1],
                     tombstones := Dict(map[k := s.clock], [k]))
  {
    var s1 := ChangeReadsClock(d, keys, s, k, 1);
    assert s1.mutators - {1} == s.mutators;
    s' := FirstInvalidation(d, keys, s1, 1, k, s.db[k] + 1);
  }

  /** Once the tombstone no longer refuses it, the stale row is cached and served. */
  lemma StaleRowIsServed(d: Discipline, keys: set<Key>, s: State, k: Key, v: nat, t: Instant) returns (s': State)
    requires Reachable(d, keys, s) && k in s.db && k in s.finished && s.finished[k] == v + 1
    requires s.cache == NO_ENTRIES && s.clock == t
    requires exists floor :: s.readers == map[0 := Loaded(k, t, floor, t, v)]
    requires MayStore(s.tombstones, k, t)
    ensures Reachable(d, keys, s') && !Coherent(s')
  {
    s' := StepReaches(d, keys, s, Store(0));
    assert s'.cache.entries == map[k := Entry(v, t + CACHE_TTL)];
    s' := StepReaches(d, keys, s', Call(1, k));
    s' := StepReaches(d, keys, s', LookUp(1));
    assert s'.readers[1] == Answered(k, v + 1, v);
  }

  /** Two invalidations of one key, the first of which read the clock first and takes the lock
      last, leave a tombstone that is too old: for any keys and at any bounds. */
  lemma UnorderedTombstonesServeStaleRows(d: Discipline, keys: set<Key>, k: Key) returns (s: State)
    requires !d.ordered && k in keys
    ensures Reachable(d, keys, s) && !Coherent(s)
  {
    var s0 := ClockReadTooEarly(d, keys, k);
    var s1 := ReaderHoldsRow(d, keys, s0, k);
    var s2 := ChangeIsInvalidated(d, keys, s1, k);
    var s3 := LateInvalidation(d, keys, s2, k);
    s := StaleRowIsServed(d, keys, s3, k, 1, 1);
  }

  /** A mutator that committed the first change and read the clock before the next tick. */
  lemma ClockReadTooEarly(d: Discipline, keys: set<Key>, k: Key) returns (s: State)
    requires k in keys
    ensures Reachable(d, keys, s)
    ensures s == Initial(keys).(clock := 1, db := Initial(keys).db[k := 1], mutators := map[0 := ClockRead(k, 1, 0)])
  {
    StandsStill(Next(d), Initial(keys));
    var s1 := ChangeReadsClock(d, keys, Initial(keys), k, 0);
    s := StepReaches(d, keys, s1, Tick);
  }

  lemma LateInvalidation(d: Discipline, keys: set<Key>, s: State, k: Key) returns (s': State)
    requires !d.ordered && Reachable(d, keys, s) && k in s.finished && s.finished[k] == 2
    requires s.cache == NO_ENTRIES && s.tombstones == Dict(map[k := 1], [k])
    requires 0 in s.mutators && s.mutators[0] == ClockRead(k, 1, 0)
    ensures Reachable(d, keys, s')
    ensures s' == s.(tombstones := Dict(map[k := 0], [k]), mutators := s.mutators - {0})
  {
    assert s.tombstones.Victim(k, d.maxTombstones) == None;
    NothingToRemove(k);
    s' := StepReaches(d, keys, s, WriteTombstone(0));
  }

  /** Tombstones written at the start of time, in this order. */
  function AllAtZero(order: seq<Key>): Dict<Instant> { Dict(map x | x in order :: 0, order) }

  ghost predicate AreKeys(order: seq<Key>, keys: set<Key>) {
    && (forall i, j | 0 <= i < j < |order| :: order[i] != order[j])
    && (forall k | k in order :: k in keys)
  }

  lemma {:induction false} AsManyTombstones(order: seq<Key>, keys: set<Key>)
    requires AreKeys(order, keys)
    ensures AllAtZero(order).Valid() && |AllAtZero(order).entries| == |order|
  {
    if order != [] {
      var n := |order| - 1;
      AsManyTombstones(order[..n], keys);
      assert AllAtZero(order).entries == AllAtZero(order[..n]).entries[order[n] := 0];
    }
  }

  /** `n` of the keys. */
  lemma {:induction false} SomeKeys(keys: set<Key>, n: nat) returns (order: seq<Key>)
    requires n <= |keys|
    ensures |order| == n && AreKeys(order, keys)
  {
    if n == 0 {
      order := [];
    } else {
      var k :| k in keys;
      order := SomeKeys(keys - {k}, n - 1);
      assert k !in order;
      order := [k] + order;
    }
  }

  lemma OtherReadsClock(d: Discipline, keys: set<Key>, s: State, k: Key) returns (s': State)
    requires Reachable(d, keys, s) && k in s.db && s.mutators == map[]
    ensures Reachable(d, keys, s') && s' == s.(mutators := map[0 := ClockRead(k, 0, s.clock)])
  {
    var s1 := StepReaches(d, keys, s, EarlyInvalidate(0, k));
    assert s1 == s.(mutators := map[0 := Committed(k, 0)]);
    s' := StepReaches(d, keys, s1, ReadClock(0));
  }

  /** The invalidation of another key, which nothing has changed. */
  lemma OtherInvalidation(d: Discipline, keys: set<Key>, s: State, k: Key) returns (s': State)
    requires Reachable(d, keys, s) && !d.guarded && k in s.db && k in s.finished && s.clock == 0
    requires s.cache == NO_ENTRIES && s.tombstones.Valid() && k !in s.tombstones.entries && s.mutators == map[]
    ensures Reachable(d, keys, s')
    ensures s' == s.(tombstones := Invalidated(s.tombstones, k, 0, d.maxTombstones))
  {
    NothingToRemove(k);
    var s1 := OtherReadsClock(d, keys, s, k);
    s' := StepReaches(d, keys, s1, WriteTombstone(0));
    assert s'.mutators == map[];
  }

  lemma OneMoreTombstone(order: seq<Key>, keys: set<Key>, k: Key, cap: nat)
    requires AreKeys(order + [k], keys) && |order| < cap
    ensures AllAtZero(order).Valid() && k !in AllAtZero(order).entries
    ensures Invalidated(AllAtZero(order), k, 0, cap) == AllAtZero(order + [k])
  {
    var all := order + [k];
    assert all[|order|] == k && forall i | 0 <= i < |order| :: all[i] == order[i];
    assert AreKeys(order, keys) by { assert forall x | x in order :: x in all; }
    AsManyTombstones(order, keys);
    assert AllAtZero(all).entries == AllAtZero(order).entries[k := 0];
  }

  /** Invalidations fill the table of tombstones in their order. */
  lemma {:induction false} TombstonesFillUp(d: Discipline, keys: set<Key>, s: State, order: seq<Key>, n: nat) returns (s': State)
    requires Reachable(d, keys, s) && !d.guarded && s.db.Keys == s.finished.Keys == keys && s.clock == 0
    requires AreKeys(order, keys) && 0 < n <= |order| && n <= Room(d.maxTombstones)
    requires s.cache == NO_ENTRIES && s.mutators == map[] && s.tombstones == AllAtZero(order[..1])
    ensures Reachable(d, keys, s') && s' == s.(tombstones := AllAtZero(order[..n]))
    decreases n
  {
    if n == 1 {
      s' := s;
    } else {
      var s1 := TombstonesFillUp(d, keys, s, order, n - 1);
      var front, k := order[..n - 1], order[n - 1];
      assert front + [k] == order[..n];
      OneMoreTombstone(front, keys, k, d.maxTombstones);
      s' := OtherInvalidation(d, keys, s1, k);
    }
  }

  lemma OldestIsEvicted(order: seq<Key>, keys: set<Key>, k: Key, cap: nat)
    requires AreKeys(order, keys) && |order| == Room(cap) && k !in order
    ensures AllAtZero(order).Valid() && k !in AllAtZero(order).entries
    ensures order[0] !in Invalidated(AllAtZero(order), k, 0, cap).entries
  {
    AsManyTombstones(order, keys);
    assert AllAtZero(order).Victim(k, cap) == Some(order[0]);
  }

  /** With more keys than room for tombstones, invalidations of other keys evict the one that a
      reader in flight still needs. */
  lemma UnguardedEvictionServesStaleRows(d: Discipline, keys: set<Key>) returns (s: State)
    requires !d.guarded && Room(d.maxTombstones) < |keys|
    ensures Reachable(d, keys, s) && !Coherent(s)
  {
    var room := Room(d.maxTombstones);
    var order := SomeKeys(keys, room + 1);
    var k, last := order[0], order[room];
    StandsStill(Next(d), Initial(keys));
    var s1 := ReaderHoldsRow(d, keys, Initial(keys), k);
    var s2 := ChangeIsInvalidated(d, keys, s1, k);
    assert s2.tombstones == AllAtZero(order[..1]);
    assert s2.db.Keys == s2.finished.Keys == keys;
    var s3 := TombstonesFillUp(d, keys, s2, order, room);
    OldestIsEvicted(order[..room], keys, last, d.maxTombstones);
    var s4 := OtherInvalidation(d, keys, s3, last);
    assert s4.readers == map[0 := Loaded(k, 0, 0, 0, 0)];
    s := StaleRowIsServed(d, keys, s4, k, 0, 0);
  }

  /** Cache coherence, at every bound and for any keys: after a change is committed and invalidated
      no later call returns an older value, whatever readers were under way, exactly when there is
      no key at all, or tombstones stay in order and either there is room for one of each key or
      the ones still needed are not evicted. */
  lemma CacheIsCoherentIff(d: Discipline, keys: set<Key>)
    ensures (forall s | Reachable(d, keys, s) :: Coherent(s))
            <==> keys == {} || (d.ordered && (d.guarded || |keys| <= Room(d.maxTombstones)))
  {
    if IsSafe(d, keys) {
      forall s | Reachable(d, keys, s) ensures Coherent(s) {
        SafeCacheIsCoherent(d, keys, s);
      }
    } else if !d.ordered {
      var k :| k in keys;
      var s := UnorderedTombstonesServeStaleRows(d, keys, k);
    } else {
      var s := UnguardedEvictionServesStaleRows(d, keys);
    }
  }
}
