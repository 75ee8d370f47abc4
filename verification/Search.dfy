/** Capped full-text search: two branches, each cut to a sample before they are merged, ranked and
    paged.  An ORDER BY may put tied rows either way round, on every execution anew. */
module Search {
  import opened Basics

  type BillId = int

  /** `ts_rank`, which only has to be ordered. */
  type Rank = int

  datatype Bill = Bill(latestAction: Option<int>, introduced: Option<int>, jurisdiction: int, number: int)

  datatype DocHit = DocHit(bill: BillId, rank: Rank)

  /** What matches the query and passes the filters: the bills themselves, and the documents, of
      which a bill may have many. */
  datatype Snapshot = Snapshot(bills: BillId -> Bill, hits: map<BillId, Rank>, docs: seq<DocHit>)

  datatype Sort = Relevance | LatestAction | Introduced | Jurisdiction

  // ----- ORDER BY, LIMIT and OFFSET -----

  datatype Key = ById | ByLatestAction | ByIntroduced | ByJurisdiction | ByRank

  datatype Ordering = Ordering(bills: BillId -> Bill, ranks: map<BillId, Rank>, key: Key)

  /** Newest first, rows without a date last. */
  predicate Newer(x: Option<int>, y: Option<int>) { x.Some? && (y.Some? ==> x.value > y.value) }

  function RankIn(ranks: map<BillId, Rank>, x: BillId): Rank { if x in ranks then ranks[x] else 0 }

  predicate Before(o: Ordering, x: BillId, y: BillId) {
    var b, d := o.bills(x), o.bills(y);
    match o.key
    case ById => x < y
    case ByLatestAction => Newer(b.latestAction, d.latestAction) || (b.latestAction == d.latestAction && x < y)
    case ByIntroduced => Newer(b.introduced, d.introduced) || (b.introduced == d.introduced && x < y)
    case ByJurisdiction => b.jurisdiction < d.jurisdiction || (b.jurisdiction == d.jurisdiction && b.number < d.number)
    case ByRank => RankIn(o.ranks, x) > RankIn(o.ranks, y) || (RankIn(o.ranks, x) == RankIn(o.ranks, y) && x < y)
  }

  /** Neither has to come first. */
  predicate Tied(o: Ordering, x: BillId, y: BillId) { x != y && !Before(o, x, y) && !Before(o, y, x) }

  function Earlier(o: Ordering, rows: set<BillId>, x: BillId): set<BillId> { set y | y in rows && Before(o, y, x) }

  ghost predicate Distinct(list: seq<BillId>) { forall i, j | 0 <= i < j < |list| :: list[i] != list[j] }

  ghost predicate Elements(list: seq<BillId>, rows: set<BillId>) { forall x :: x in list <==> x in rows }

  ghost predicate InOrder(o: Ordering, list: seq<BillId>) {
    forall i, j | 0 <= i < j < |list| :: !Before(o, list[j], list[i])
  }

  /** `list` is one result of ordering `rows`. */
  ghost predicate Ordered(o: Ordering, rows: set<BillId>, list: seq<BillId>) {
    Distinct(list) && Elements(list, rows) && InOrder(o, list)
  }

  function Prefix<T>(list: seq<T>, n: nat): seq<T> { if n <= |list| then list[..n] else list }

  function Suffix<T>(list: seq<T>, n: nat): seq<T> { if n <= |list| then list[n..] else [] }

  /** LIMIT and OFFSET for page `k`, counted from 0. */
  function Page<T>(list: seq<T>, k: nat, perPage: nat): seq<T> { Prefix(Suffix(list, k * perPage), perPage) }

  /** `kept` is what LIMIT `n` leaves of `rows`. */
  ghost predicate Cut(o: Ordering, rows: set<BillId>, n: nat, kept: set<BillId>) {
    exists list :: Ordered(o, rows, list) && Elements(Prefix(list, n), kept)
  }

  // ----- the query -----

  function ProbeKey(sort: Sort): Key {
    match sort
    case LatestAction => ByLatestAction
    case Introduced => ByIntroduced
    case _ => ById
  }

  function PageKey(sort: Sort): Key {
    match sort
    case LatestAction => ByLatestAction
    case Introduced => ByIntroduced
    case Jurisdiction => ByJurisdiction
    case Relevance => ByRank
  }

  function Max(a: Rank, b: Rank): Rank { if a < b then b else a }

  /** GROUP BY bill over the union of two branches, with the larger rank. */
  function Merge(a: map<BillId, Rank>, b: map<BillId, Rank>): map<BillId, Rank> {
    map x | x in a.Keys + b.Keys :: if x !in b then a[x] else if x !in a then b[x] else Max(a[x], b[x])
  }

  function Restrict(m: map<BillId, Rank>, kept: set<BillId>): map<BillId, Rank> { map x | x in m && x in kept :: m[x] }

  /** One row a bill, however many of its documents match. */
  function DocRanks(docs: seq<DocHit>): map<BillId, Rank> {
    if docs == [] then map[]
    else Merge(DocRanks(docs[..|docs| - 1]), map[docs[|docs| - 1].bill := docs[|docs| - 1].rank])
  }

  /** One execution of the statement, with the result of every common table expression. */
  datatype Plan = Plan(billsProbe: set<BillId>, billsSample: set<BillId>, docsProbe: set<BillId>,
                       docsSample: set<BillId>, ranked: map<BillId, Rank>, list: seq<BillId>)

  /** `cap` is 5000 in use; nothing below depends on that. */
  ghost predicate BillsBranch(s: Snapshot, cap: nat, sort: Sort, p: Plan) {
    var o := Ordering(s.bills, s.hits, ProbeKey(sort));
    Cut(o, s.hits.Keys, cap + 1, p.billsProbe) && Cut(o, p.billsProbe, cap, p.billsSample)
  }

  ghost predicate DocsBranch(s: Snapshot, cap: nat, p: Plan) {
    var o := Ordering(s.bills, DocRanks(s.docs), ById);
    Cut(o, DocRanks(s.docs).Keys, cap + 1, p.docsProbe) && Cut(o, p.docsProbe, cap, p.docsSample)
  }

  function RankedOf(s: Snapshot, p: Plan): map<BillId, Rank> {
    Merge(Restrict(s.hits, p.billsSample), Restrict(DocRanks(s.docs), p.docsSample))
  }

  ghost predicate Executes(s: Snapshot, cap: nat, sort: Sort, p: Plan) {
    && BillsBranch(s, cap, sort, p) && DocsBranch(s, cap, p)
    && p.ranked == RankedOf(s, p)
    && Ordered(Ordering(s.bills, p.ranked, PageKey(sort)), p.ranked.Keys, p.list)
  }

  function Total(p: Plan): nat { |p.ranked| }

  predicate BillsCapped(cap: nat, p: Plan) { |p.billsProbe| > cap }

  predicate DocsCapped(cap: nat, p: Plan) { |p.docsProbe| > cap }

  // ----- what the result would be without the caps -----

  function AllRanked(s: Snapshot): map<BillId, Rank> { Merge(s.hits, DocRanks(s.docs)) }

  ghost predicate Uncapped(s: Snapshot, sort: Sort, list: seq<BillId>) {
    Ordered(Ordering(s.bills, AllRanked(s), PageKey(sort)), AllRanked(s).Keys, list)
  }

  // ----- ordered lists -----

  lemma BeforeIsWeakOrder(o: Ordering, x: BillId, y: BillId, z: BillId)
    ensures !Before(o, x, x)
    ensures Before(o, x, y) ==> !Before(o, y, x)
    ensures Before(o, x, y) && Before(o, y, z) ==> Before(o, x, z)
    ensures !Before(o, x, y) && !Before(o, y, z) ==> !Before(o, x, z)
  {
  }

  lemma OnlyJurisdictionTies(o: Ordering, x: BillId, y: BillId)
    ensures Tied(o, x, y) ==> o.key == ByJurisdiction
  {
  }

  lemma {:induction false} ListSize(list: seq<BillId>, rows: set<BillId>)
    requires Distinct(list) && Elements(list, rows)
    ensures |list| == |rows|
    decreases |list|
  {
    if list == [] {
      assert forall x :: x in list <==> x in rows;
      assert rows == {};
    } else {
      TailElements(list, rows);
      ListSize(list[1..], rows - {list[0]});
    }
  }

  lemma TailElements(list: seq<BillId>, rows: set<BillId>)
    requires list != [] && Distinct(list) && Elements(list, rows)
    ensures list[0] in rows && Distinct(list[1..]) && Elements(list[1..], rows - {list[0]})
  {
    assert list[0] in list;
    forall x ensures x in list[1..] <==> x in rows - {list[0]} {
      if x in rows && x != list[0] {
        assert x in list;
        var i :| 0 <= i < |list| && list[i] == x;
        assert list[1..][i - 1] == x;
      }
    }
  }

  lemma TailOrdered(o: Ordering, rows: set<BillId>, list: seq<BillId>)
    requires list != [] && Ordered(o, rows, list)
    ensures list[0] in rows && Ordered(o, rows - {list[0]}, list[1..])
    ensures forall x | x in rows && x != list[0] :: !Before(o, x, list[0])
  {
    TailElements(list, rows);
    forall x | x in rows && x != list[0] ensures !Before(o, x, list[0]) {
      assert x in list;
    }
  }

  /** A set that leaves out some rows has the same first `n`, in the same order, if at least `n` of
      its own come before every row left out. */
  lemma {:induction false} PrefixAgrees(o: Ordering, all: set<BillId>, list: seq<BillId>, some: set<BillId>, list': seq<BillId>, n: nat)
    requires o.key != ByJurisdiction
    requires Ordered(o, all, list) && Ordered(o, some, list') && some <= all
    requires forall x | x in all - some :: n <= |Earlier(o, some, x)|
    ensures Prefix(list, n) == Prefix(list', n)
    decreases n
  {
    if n > 0 && list != [] {
      TailOrdered(o, all, list);
      var first := list[0];
      FirstIsKept(o, all, first, some, n);
      assert list' != [] by { assert first in list'; }
      TailOrdered(o, some, list');
      OnlyJurisdictionTies(o, first, list'[0]);
      assert list'[0] == first;
      forall x | x in (all - {first}) - (some - {first})
        ensures n - 1 <= |Earlier(o, some - {first}, x)|
      {
        OneFewer(o, some, first, x);
      }
      PrefixAgrees(o, all - {first}, list[1..], some - {first}, list'[1..], n - 1);
      PrefixStep(list, n);
      PrefixStep(list', n);
    } else if list == [] {
      ListSize(list, all);
      ListSize(list', some);
      assert some == all;
    }
  }

  lemma PrefixStep<T>(list: seq<T>, n: nat)
    requires n > 0 && list != []
    ensures Prefix(list, n) == [list[0]] + Prefix(list[1..], n - 1)
  {
  }

  lemma FirstIsKept(o: Ordering, all: set<BillId>, first: BillId, some: set<BillId>, n: nat)
    requires n > 0 && some <= all && first in all
    requires forall x | x in all && x != first :: !Before(o, x, first)
    requires forall x | x in all - some :: n <= |Earlier(o, some, x)|
    ensures first in some
  {
    assert first !in some ==> Earlier(o, some, first) == {};
  }

  lemma OneFewer(o: Ordering, some: set<BillId>, first: BillId, x: BillId)
    ensures |Earlier(o, some, x)| - 1 <= |Earlier(o, some - {first}, x)|
  {
    assert Earlier(o, some - {first}, x) == Earlier(o, some, x) - {first};
  }

  /** Without ties the order is settled. */
  lemma OrderedIsUnique(o: Ordering, rows: set<BillId>, a: seq<BillId>, b: seq<BillId>)
    requires o.key != ByJurisdiction && Ordered(o, rows, a) && Ordered(o, rows, b)
    ensures a == b
  {
    ListSize(a, rows);
    ListSize(b, rows);
    PrefixAgrees(o, rows, a, rows, b, |rows|);
  }

  lemma PrefixOrdered(o: Ordering, rows: set<BillId>, list: seq<BillId>, n: nat, kept: set<BillId>)
    requires Ordered(o, rows, list) && Elements(Prefix(list, n), kept)
    ensures Ordered(o, kept, Prefix(list, n)) && kept <= rows
    ensures |kept| == if n <= |rows| then n else |rows|
    ensures |rows| <= n ==> kept == rows
  {
    ListSize(list, rows);
    ListSize(Prefix(list, n), kept);
    forall x | x in kept ensures x in rows { assert x in Prefix(list, n); assert x in list; }
    if |rows| <= n {
      assert Prefix(list, n) == list;
      forall x | x in rows ensures x in kept { assert x in list; }
    }
  }

  /** The size of a cut, and what it keeps when nothing has to go. */
  lemma CutSize(o: Ordering, rows: set<BillId>, n: nat, kept: set<BillId>)
    requires Cut(o, rows, n, kept)
    ensures kept <= rows && |kept| == if n <= |rows| then n else |rows|
    ensures |rows| <= n ==> kept == rows
  {
    var list :| Ordered(o, rows, list) && Elements(Prefix(list, n), kept);
    PrefixOrdered(o, rows, list, n, kept);
  }

  /** Trimming the probe keeps its first rows. */
  lemma TrimIsCut(o: Ordering, rows: set<BillId>, cap: nat, probe: set<BillId>, sample: set<BillId>)
    requires o.key != ByJurisdiction && Cut(o, rows, cap + 1, probe) && Cut(o, probe, cap, sample)
    ensures Cut(o, rows, cap, sample)
  {
    var list :| Ordered(o, rows, list) && Elements(Prefix(list, cap + 1), probe);
    var trimmed :| Ordered(o, probe, trimmed) && Elements(Prefix(trimmed, cap), sample);
    PrefixOrdered(o, rows, list, cap + 1, probe);
    OrderedIsUnique(o, probe, trimmed, Prefix(list, cap + 1));
    assert Prefix(trimmed, cap) == Prefix(list, cap);
  }

  /** Whatever a cut leaves out comes after all that it keeps. */
  lemma CutIsFirst(o: Ordering, rows: set<BillId>, n: nat, kept: set<BillId>, x: BillId, y: BillId)
    requires o.key != ByJurisdiction && Cut(o, rows, n, kept)
    requires x in rows && x !in kept && y in kept
    ensures Before(o, y, x) && |kept| == n
  {
    CutSize(o, rows, n, kept);
    var list :| Ordered(o, rows, list) && Elements(Prefix(list, n), kept);
    ListSize(list, rows);
    assert x in list && y in Prefix(list, n);
    var i :| 0 <= i < |list| && list[i] == x;
    var j :| 0 <= j < |Prefix(list, n)| && Prefix(list, n)[j] == y;
    var front := Prefix(list, n);
    assert forall m | 0 <= m < |front| :: front[m] == list[m] && front[m] in front;
    assert list[j] == y;
    OnlyJurisdictionTies(o, x, y);
  }

  // ----- the caps -----

  /** `DocRanks` gives each bill with a matching document the best rank among them. */
  lemma {:induction false} DocRanksAreBest(docs: seq<DocHit>, x: BillId)
    ensures x in DocRanks(docs) <==> exists i :: 0 <= i < |docs| && docs[i].bill == x
    ensures x in DocRanks(docs) ==>
              && (exists i :: 0 <= i < |docs| && docs[i] == DocHit(x, DocRanks(docs)[x]))
              && (forall i | 0 <= i < |docs| && docs[i].bill == x :: docs[i].rank <= DocRanks(docs)[x])
    decreases |docs|
  {
    if docs != [] {
      var n := |docs| - 1;
      var rest := docs[..n];
      DocRanksAreBest(rest, x);
      assert forall i | 0 <= i < n :: docs[i] == rest[i];
      if x in DocRanks(rest) {
        var i :| 0 <= i < n && rest[i] == DocHit(x, DocRanks(rest)[x]);
        assert docs[i] == rest[i];
      }
      if docs[n].bill == x { assert docs[n] == DocHit(x, docs[n].rank); }
    }
  }

  /** The sizes of a branch, which is whole when it is not capped. */
  lemma BillsBranchSize(s: Snapshot, cap: nat, sort: Sort, p: Plan)
    requires BillsBranch(s, cap, sort, p)
    ensures BillsCapped(cap, p) <==> |s.hits| > cap
    ensures p.billsSample <= s.hits.Keys
    ensures !BillsCapped(cap, p) ==> p.billsSample == s.hits.Keys
  {
    var o := Ordering(s.bills, s.hits, ProbeKey(sort));
    CutSize(o, s.hits.Keys, cap + 1, p.billsProbe);
    CutSize(o, p.billsProbe, cap, p.billsSample);
    assert |s.hits| == |s.hits.Keys|;
  }

  lemma DocsBranchSize(s: Snapshot, cap: nat, p: Plan)
    requires DocsBranch(s, cap, p)
    ensures DocsCapped(cap, p) <==> |DocRanks(s.docs)| > cap
    ensures p.docsSample <= DocRanks(s.docs).Keys
    ensures !DocsCapped(cap, p) ==> p.docsSample == DocRanks(s.docs).Keys
  {
    var docs := DocRanks(s.docs);
    var o := Ordering(s.bills, docs, ById);
    CutSize(o, docs.Keys, cap + 1, p.docsProbe);
    CutSize(o, p.docsProbe, cap, p.docsSample);
    assert |docs| == |docs.Keys|;
  }

  /** Each flag says exactly whether its branch has more matches than the cap. */
  lemma FlagsAreExact(s: Snapshot, cap: nat, sort: Sort, p: Plan)
    requires Executes(s, cap, sort, p)
    ensures BillsCapped(cap, p) <==> |s.hits| > cap
    ensures DocsCapped(cap, p) <==> |DocRanks(s.docs)| > cap
  {
    BillsBranchSize(s, cap, sort, p);
    DocsBranchSize(s, cap, p);
  }

  lemma RestrictToAll(m: map<BillId, Rank>, kept: set<BillId>)
    ensures kept == m.Keys ==> Restrict(m, kept) == m
    ensures kept <= m.Keys ==> Restrict(m, kept).Keys == kept
  {
  }

  lemma MergedKeys(a: map<BillId, Rank>, b: map<BillId, Rank>)
    ensures Merge(a, b).Keys == a.Keys + b.Keys
  {
  }

  /** When neither flag is up the result is the uncapped one: every match, with its best rank, and
      an exact total. */
  lemma NotCappedIsExhaustive(s: Snapshot, cap: nat, sort: Sort, p: Plan)
    requires Executes(s, cap, sort, p) && !BillsCapped(cap, p) && !DocsCapped(cap, p)
    ensures p.ranked == AllRanked(s) && Uncapped(s, sort, p.list)
    ensures Total(p) == |AllRanked(s)| == |p.list|
  {
    BillsBranchSize(s, cap, sort, p);
    DocsBranchSize(s, cap, p);
    RestrictToAll(s.hits, p.billsSample);
    RestrictToAll(DocRanks(s.docs), p.docsSample);
    ListSize(p.list, p.ranked.Keys);
    assert |p.ranked| == |p.ranked.Keys|;
  }

  /** The bills branch keeps its first rows under a date sort. */
  lemma SampleIsFirst(s: Snapshot, cap: nat, sort: Sort, p: Plan, x: BillId)
    requires BillsBranch(s, cap, sort, p) && x in s.hits && x !in p.billsSample
    ensures |p.billsSample| == cap
    ensures forall y | y in p.billsSample :: Before(Ordering(s.bills, s.hits, ProbeKey(sort)), y, x)
  {
    var o := Ordering(s.bills, s.hits, ProbeKey(sort));
    TrimIsCut(o, s.hits.Keys, cap, p.billsProbe, p.billsSample);
    CutSize(o, s.hits.Keys, cap, p.billsSample);
    forall y | y in p.billsSample ensures Before(o, y, x) {
      CutIsFirst(o, s.hits.Keys, cap, p.billsSample, x, y);
    }
  }

  /** With only the bills branch saturated, a date sort shows the first `cap` rows of the whole. */
  lemma SampleIsGlobalTop(s: Snapshot, cap: nat, sort: Sort, p: Plan, whole: seq<BillId>)
    requires sort == LatestAction || sort == Introduced
    requires Executes(s, cap, sort, p) && !DocsCapped(cap, p) && Uncapped(s, sort, whole)
    ensures Prefix(p.list, cap) == Prefix(whole, cap)
  {
    DocsBranchSize(s, cap, p);
    BranchesWithin(s, cap, sort, p);
    MergedKeys(s.hits, DocRanks(s.docs));
    var o := Ordering(s.bills, AllRanked(s), PageKey(sort));
    RanksDoNotMatter(o, p.ranked, p.ranked.Keys, p.list);
    forall x | x in AllRanked(s).Keys - p.ranked.Keys ensures cap <= |Earlier(o, p.ranked.Keys, x)| {
      SampleComesEarlier(s, cap, sort, p, x);
    }
    PrefixAgrees(o, AllRanked(s).Keys, whole, p.ranked.Keys, p.list, cap);
  }

  lemma SampleComesEarlier(s: Snapshot, cap: nat, sort: Sort, p: Plan, x: BillId)
    requires sort == LatestAction || sort == Introduced
    requires BillsBranch(s, cap, sort, p) && p.billsSample <= p.ranked.Keys && x in s.hits && x !in p.billsSample
    ensures cap <= |Earlier(Ordering(s.bills, AllRanked(s), PageKey(sort)), p.ranked.Keys, x)|
  {
    SampleIsFirst(s, cap, sort, p, x);
    SubsetIsNoLarger(p.billsSample, Earlier(Ordering(s.bills, AllRanked(s), PageKey(sort)), p.ranked.Keys, x));
  }

  lemma BranchesWithin(s: Snapshot, cap: nat, sort: Sort, p: Plan)
    requires Executes(s, cap, sort, p)
    ensures p.billsSample <= s.hits.Keys && p.docsSample <= DocRanks(s.docs).Keys
    ensures p.ranked.Keys == p.billsSample + p.docsSample
  {
    BillsBranchSize(s, cap, sort, p);
    DocsBranchSize(s, cap, p);
    RestrictToAll(s.hits, p.billsSample);
    RestrictToAll(DocRanks(s.docs), p.docsSample);
    MergedKeys(Restrict(s.hits, p.billsSample), Restrict(DocRanks(s.docs), p.docsSample));
  }

  lemma RanksDoNotMatter(o: Ordering, ranks: map<BillId, Rank>, rows: set<BillId>, list: seq<BillId>)
    requires o.key != ByRank && Ordered(o.(ranks := ranks), rows, list)
    ensures Ordered(o, rows, list)
  {
    assert forall x, y :: Before(o, x, y) == Before(o.(ranks := ranks), x, y);
  }

  lemma PageOfPrefix<T>(list: seq<T>, n: nat, k: nat, perPage: nat)
    requires k * perPage + perPage <= n
    ensures Page(list, k, perPage) == Page(Prefix(list, n), k, perPage)
  {
  }

  /** A date sort with only the bills branch saturated: every page that ends within the cap is that
      page of the whole sorted union. */
  lemma CappedDateSortRefines(s: Snapshot, cap: nat, sort: Sort, p: Plan, whole: seq<BillId>, k: nat, perPage: nat)
    requires sort == LatestAction || sort == Introduced
    requires Executes(s, cap, sort, p) && !DocsCapped(cap, p) && Uncapped(s, sort, whole)
    requires k * perPage + perPage <= cap
    ensures Page(p.list, k, perPage) == Page(whole, k, perPage)
  {
    SampleIsGlobalTop(s, cap, sort, p, whole);
    PageOfPrefix(p.list, cap, k, perPage);
    PageOfPrefix(whole, cap, k, perPage);
  }

  /** `n` matching bills, all found through a document, of which only the last has a date. */
  function LastOneIsDated(n: nat): Snapshot {
    Snapshot((x: BillId) => Bill(if x == n - 1 then Some(0) else None, None, 0, 0), map[], seq(n, i => DocHit(i, 0)))
  }

  function UpTo(n: nat): (rows: set<BillId>)
    ensures forall x :: x in rows <==> 0 <= x < n
    ensures |rows| == n
  {
    if n == 0 then {} else UpTo(n - 1) + {n - 1}
  }

  lemma LastOneIsAmongDocs(n: nat, x: BillId)
    ensures x in DocRanks(LastOneIsDated(n).docs) <==> x in UpTo(n)
  {
    var docs := LastOneIsDated(n).docs;
    DocRanksAreBest(docs, x);
    if x in UpTo(n) { assert docs[x].bill == x; }
  }

  lemma LastOneIsDatedMatches(n: nat)
    ensures DocRanks(LastOneIsDated(n).docs).Keys == UpTo(n)
    ensures AllRanked(LastOneIsDated(n)).Keys == UpTo(n)
  {
    forall x ensures x in DocRanks(LastOneIsDated(n).docs) <==> x in UpTo(n) {
      LastOneIsAmongDocs(n, x);
    }
    MergedKeys(map[], DocRanks(LastOneIsDated(n).docs));
  }

  lemma SomeoneIsLeftOut(kept: set<BillId>, rows: set<BillId>) returns (x: BillId)
    requires |kept| < |rows|
    ensures x in rows && x !in kept
  {
    assert (forall y :: y in rows ==> y in kept) ==> rows <= kept;
    if rows <= kept {
      SubsetIsNoLarger(rows, kept);
    }
    x :| x in rows && x !in kept;
  }

  /** A cut by id of fewer than all rows loses the one with the greatest id. */
  lemma LastIsCutOff(o: Ordering, n: nat, cap: nat, kept: set<BillId>)
    requires o.key == ById && Cut(o, UpTo(n), cap, kept) && cap < n
    ensures n - 1 !in kept
  {
    CutSize(o, UpTo(n), cap, kept);
    var x := SomeoneIsLeftOut(kept, UpTo(n));
    if n - 1 in kept {
      CutIsFirst(o, UpTo(n), cap, kept, x, n - 1);
    }
  }

  lemma LastOneIsCutOff(n: nat, cap: nat, p: Plan)
    requires DocsBranch(LastOneIsDated(n), cap, p) && cap < n
    ensures n - 1 !in p.docsSample
  {
    var s := LastOneIsDated(n);
    var o := Ordering(s.bills, DocRanks(s.docs), ById);
    LastOneIsDatedMatches(n);
    TrimIsCut(o, UpTo(n), cap, p.docsProbe, p.docsSample);
    LastIsCutOff(o, n, cap, p.docsSample);
  }

  lemma DatedComesFirst(o: Ordering, dated: BillId, rows: set<BillId>, list: seq<BillId>)
    requires o.key == ByLatestAction && dated in rows && Ordered(o, rows, list)
    requires forall x :: o.bills(x).latestAction.Some? <==> x == dated
    ensures list != [] && list[0] == dated
  {
    assert dated in list;
    TailOrdered(o, rows, list);
  }

  lemma LastOneIsNotListed(n: nat, cap: nat, p: Plan)
    requires Executes(LastOneIsDated(n), cap, LatestAction, p) && n - 1 !in p.docsSample
    ensures n - 1 !in p.list
  {
    BranchesWithin(LastOneIsDated(n), cap, LatestAction, p);
    assert Elements(p.list, p.ranked.Keys);
  }

  lemma LastOneIsNewest(n: nat, whole: seq<BillId>)
    requires 0 < n && Uncapped(LastOneIsDated(n), LatestAction, whole)
    ensures whole != [] && whole[0] == n - 1
  {
    var s := LastOneIsDated(n);
    LastOneIsDatedMatches(n);
    DatedComesFirst(Ordering(s.bills, AllRanked(s), ByLatestAction), n - 1, UpTo(n), whole);
  }

  /** With more matching documents than the cap the refinement fails: the newest bill is on no page. */
  lemma SaturatedDocumentsLoseTheNewest(n: nat, cap: nat, p: Plan, whole: seq<BillId>)
    requires Executes(LastOneIsDated(n), cap, LatestAction, p) && Uncapped(LastOneIsDated(n), LatestAction, whole)
    requires cap < n
    ensures whole != [] && whole[0] == n - 1 && n - 1 !in p.list
  {
    LastOneIsCutOff(n, cap, p);
    LastOneIsNotListed(n, cap, p);
    LastOneIsNewest(n, whole);
  }

  lemma FewDocumentsAreNotCapped(n: nat, cap: nat, sort: Sort, p: Plan)
    requires Executes(LastOneIsDated(n), cap, sort, p) && n <= cap
    ensures !DocsCapped(cap, p)
  {
    var docs := DocRanks(LastOneIsDated(n).docs);
    LastOneIsDatedMatches(n);
    assert |docs| == |docs.Keys|;
    DocsBranchSize(LastOneIsDated(n), cap, p);
  }

  /** Every page that ends within the cap is that page of the whole. */
  ghost predicate PagesRefine(list: seq<BillId>, whole: seq<BillId>, cap: nat) {
    forall k: nat, perPage: nat | k * perPage + perPage <= cap :: Page(list, k, perPage) == Page(whole, k, perPage)
  }

  lemma PagesRefineIff(list: seq<BillId>, whole: seq<BillId>, cap: nat)
    ensures PagesRefine(list, whole, cap) <==> Prefix(list, cap) == Prefix(whole, cap)
  {
    if PagesRefine(list, whole, cap) {
      assert 0 * cap + cap <= cap;
      assert Page(list, 0, cap) == Page(whole, 0, cap);
      assert Suffix(list, 0 * cap) == list && Suffix(whole, 0 * cap) == whole;
    }
    if Prefix(list, cap) == Prefix(whole, cap) {
      forall k: nat, perPage: nat | k * perPage + perPage <= cap ensures Page(list, k, perPage) == Page(whole, k, perPage) {
        PageOfPrefix(list, cap, k, perPage);
        PageOfPrefix(whole, cap, k, perPage);
      }
    }
  }

  lemma PagesRefineUncapped(s: Snapshot, cap: nat, p: Plan, whole: seq<BillId>)
    requires Executes(s, cap, LatestAction, p) && Uncapped(s, LatestAction, whole) && !DocsCapped(cap, p)
    ensures PagesRefine(p.list, whole, cap)
  {
    SampleIsGlobalTop(s, cap, LatestAction, p, whole);
    PagesRefineIff(p.list, whole, cap);
  }

  lemma FewDocumentsRefine(n: nat, cap: nat, p: Plan, whole: seq<BillId>)
    requires Executes(LastOneIsDated(n), cap, LatestAction, p) && Uncapped(LastOneIsDated(n), LatestAction, whole)
    requires n <= cap
    ensures PagesRefine(p.list, whole, cap)
  {
    FewDocumentsAreNotCapped(n, cap, LatestAction, p);
    PagesRefineUncapped(LastOneIsDated(n), cap, p, whole);
  }

  lemma ManyDocumentsRefineIff(n: nat, cap: nat, p: Plan, whole: seq<BillId>)
    requires Executes(LastOneIsDated(n), cap, LatestAction, p) && Uncapped(LastOneIsDated(n), LatestAction, whole)
    requires cap < n
    ensures PagesRefine(p.list, whole, cap) <==> cap == 0
  {
    SaturatedDocumentsLoseTheNewest(n, cap, p, whole);
    FirstDiffers(p.list, whole, cap);
    PagesRefineIff(p.list, whole, cap);
  }

  /** The refinement under a saturated document branch: over the number of matching documents it
      holds exactly up to the cap (or if the cap leaves no page at all). */
  lemma SaturatedDocumentsRefineIff(n: nat, cap: nat, p: Plan, whole: seq<BillId>)
    requires Executes(LastOneIsDated(n), cap, LatestAction, p) && Uncapped(LastOneIsDated(n), LatestAction, whole)
    ensures PagesRefine(p.list, whole, cap) <==> n <= cap || cap == 0
  {
    if n <= cap {
      FewDocumentsRefine(n, cap, p, whole);
    } else {
      ManyDocumentsRefineIff(n, cap, p, whole);
    }
  }

  lemma FirstDiffers(list: seq<BillId>, whole: seq<BillId>, cap: nat)
    requires whole != [] && whole[0] !in list
    ensures Prefix(list, cap) == Prefix(whole, cap) <==> cap == 0
  {
    if cap > 0 {
      assert Prefix(whole, cap)[0] == whole[0];
      assert list != [] ==> Prefix(list, cap)[0] == list[0] && list[0] in list;
    }
  }

  // ----- what a result looks like -----

  /** Newest first, rows without a date last, and the smaller id first among equals. */
  predicate DatesDescend(x: BillId, dated: Option<int>, y: BillId, dated': Option<int>) {
    && (dated'.Some? ==> dated.Some? && dated.value >= dated'.value)
    && (dated == dated' ==> x < y)
  }

  /** What the sort that was asked for says of a row and a later one. */
  predicate InSortOrder(bills: BillId -> Bill, ranked: map<BillId, Rank>, sort: Sort, x: BillId, y: BillId)
    requires x in ranked && y in ranked
  {
    match sort
    case LatestAction => DatesDescend(x, bills(x).latestAction, y, bills(y).latestAction)
    case Introduced => DatesDescend(x, bills(x).introduced, y, bills(y).introduced)
    case Jurisdiction =>
      || bills(x).jurisdiction < bills(y).jurisdiction
      || (bills(x).jurisdiction == bills(y).jurisdiction && bills(x).number <= bills(y).number)
    case Relevance => ranked[x] > ranked[y] || (ranked[x] == ranked[y] && x < y)
  }

  lemma NotBeforeMeans(bills: BillId -> Bill, ranked: map<BillId, Rank>, sort: Sort, x: BillId, y: BillId)
    requires x in ranked && y in ranked && x != y && !Before(Ordering(bills, ranked, PageKey(sort)), y, x)
    ensures InSortOrder(bills, ranked, sort, x, y)
  {
  }

  /** Any two rows of a result are in the order of its sort. */
  lemma ResultIsInOrder(s: Snapshot, cap: nat, sort: Sort, p: Plan, i: nat, j: nat)
    requires Executes(s, cap, sort, p) && i < j < |p.list|
    ensures p.list[i] in p.ranked && p.list[j] in p.ranked && p.list[i] != p.list[j]
    ensures InSortOrder(s.bills, p.ranked, sort, p.list[i], p.list[j])
  {
    assert p.list[i] in p.list && p.list[j] in p.list;
    NotBeforeMeans(s.bills, p.ranked, sort, p.list[i], p.list[j]);
  }

  /** What a capped sample leaves out is no better than anything it keeps: by the date under a date
      sort, and otherwise by the id alone. */
  lemma SampleIsBest(s: Snapshot, cap: nat, sort: Sort, p: Plan, x: BillId, y: BillId)
    requires Executes(s, cap, sort, p)
    ensures x in s.hits && x !in p.billsSample && y in p.billsSample ==>
              && |p.billsSample| == cap
              && match sort
                 case LatestAction => DatesDescend(y, s.bills(y).latestAction, x, s.bills(x).latestAction)
                 case Introduced => DatesDescend(y, s.bills(y).introduced, x, s.bills(x).introduced)
                 case _ => y < x
    ensures (exists d <- s.docs :: d.bill == x) && x !in p.docsSample && y in p.docsSample ==> |p.docsSample| == cap && y < x
  {
    if x in s.hits && x !in p.billsSample && y in p.billsSample {
      SampleIsFirst(s, cap, sort, p, x);
    }
    DocsSampleIsFirst(s, cap, p, x, y);
  }

  lemma DocsSampleIsFirst(s: Snapshot, cap: nat, p: Plan, x: BillId, y: BillId)
    requires DocsBranch(s, cap, p)
    ensures (exists d <- s.docs :: d.bill == x) && x !in p.docsSample && y in p.docsSample ==> |p.docsSample| == cap && y < x
  {
    DocRanksAreBest(s.docs, x);
    if (exists d <- s.docs :: d.bill == x) && x !in p.docsSample && y in p.docsSample {
      var o := Ordering(s.bills, DocRanks(s.docs), ById);
      TrimIsCut(o, DocRanks(s.docs).Keys, cap, p.docsProbe, p.docsSample);
      CutIsFirst(o, DocRanks(s.docs).Keys, cap, p.docsSample, x, y);
    }
  }

  /** Without the caps a bill is found if it or one of its documents matches, with the best of
      their ranks. */
  lemma AllRankedIsBest(s: Snapshot, x: BillId)
    ensures x in AllRanked(s) <==> x in s.hits || exists d <- s.docs :: d.bill == x
    ensures x in AllRanked(s) ==>
              && ((x in s.hits && s.hits[x] == AllRanked(s)[x]) || DocHit(x, AllRanked(s)[x]) in s.docs)
              && (x in s.hits ==> s.hits[x] <= AllRanked(s)[x])
              && (forall d <- s.docs | d.bill == x :: d.rank <= AllRanked(s)[x])
  {
    DocRanksAreBest(s.docs, x);
  }

  /** A listed bill has the best rank of the branches whose samples it is in. */
  lemma ListedRank(s: Snapshot, cap: nat, sort: Sort, p: Plan, x: BillId)
    requires Executes(s, cap, sort, p)
    ensures x in p.list <==> x in p.billsSample || x in p.docsSample
    ensures x in p.list && x in p.billsSample ==> x in s.hits && s.hits[x] <= p.ranked[x]
    ensures x in p.list && x in p.docsSample ==> forall d <- s.docs | d.bill == x :: d.rank <= p.ranked[x]
    ensures x in p.list ==> || (x in p.billsSample && s.hits[x] == p.ranked[x])
                            || (x in p.docsSample && DocHit(x, p.ranked[x]) in s.docs)
  {
    BranchesWithin(s, cap, sort, p);
    DocRanksAreBest(s.docs, x);
  }

  // ----- one request a page -----

  /** The statement reads nothing but the snapshot, so its sample is the same on every execution. */
  lemma RankedIsSettled(s: Snapshot, cap: nat, sort: Sort, p: Plan, p': Plan)
    requires Executes(s, cap, sort, p) && Executes(s, cap, sort, p')
    ensures p.ranked == p'.ranked
  {
    BillsSampleIsSettled(s, cap, sort, p, p');
    DocsSampleIsSettled(s, cap, p, p');
  }

  lemma BillsSampleIsSettled(s: Snapshot, cap: nat, sort: Sort, p: Plan, p': Plan)
    requires BillsBranch(s, cap, sort, p) && BillsBranch(s, cap, sort, p')
    ensures p.billsSample == p'.billsSample
  {
    var o := Ordering(s.bills, s.hits, ProbeKey(sort));
    CutIsSettled(o, s.hits.Keys, cap + 1, p.billsProbe, p'.billsProbe);
    CutIsSettled(o, p.billsProbe, cap, p.billsSample, p'.billsSample);
  }

  lemma DocsSampleIsSettled(s: Snapshot, cap: nat, p: Plan, p': Plan)
    requires DocsBranch(s, cap, p) && DocsBranch(s, cap, p')
    ensures p.docsSample == p'.docsSample
  {
    var o := Ordering(s.bills, DocRanks(s.docs), ById);
    CutIsSettled(o, DocRanks(s.docs).Keys, cap + 1, p.docsProbe, p'.docsProbe);
    CutIsSettled(o, p.docsProbe, cap, p.docsSample, p'.docsSample);
  }

  lemma CutIsSettled(o: Ordering, rows: set<BillId>, n: nat, a: set<BillId>, b: set<BillId>)
    requires o.key != ByJurisdiction && Cut(o, rows, n, a) && Cut(o, rows, n, b)
    ensures a == b
  {
    var la :| Ordered(o, rows, la) && Elements(Prefix(la, n), a);
    var lb :| Ordered(o, rows, lb) && Elements(Prefix(lb, n), b);
    OrderedIsUnique(o, rows, la, lb);
    assert forall x :: x in a <==> x in b;
  }

  /** The rows on either side of position `m` may change places. */
  predicate TieAt(o: Ordering, list: seq<BillId>, m: nat) { 0 < m < |list| && Tied(o, list[m - 1], list[m]) }

  ghost predicate TieAtPageEnd(o: Ordering, list: seq<BillId>, perPage: nat) {
    exists k: nat :: TieAt(o, list, k * perPage)
  }

  /** Page `k` is taken from `lists[k]`, and every row is on some page. */
  ghost predicate EachIsShown(rows: set<BillId>, lists: seq<seq<BillId>>, perPage: nat) {
    forall x | x in rows :: exists k :: 0 <= k < |lists| && x in Page(lists[k], k, perPage)
  }

  ghost predicate ListsCover(o: Ordering, rows: set<BillId>, perPage: nat) {
    forall lists: seq<seq<BillId>> |
      (forall k | 0 <= k < |lists| :: Ordered(o, rows, lists[k])) && |rows| <= |lists| * perPage ::
      EachIsShown(rows, lists, perPage)
  }

  /** Without a tie at `m` the same rows come before `m` on every execution. */
  lemma SplitAgrees(o: Ordering, rows: set<BillId>, a: seq<BillId>, b: seq<BillId>, m: nat, x: BillId)
    requires Ordered(o, rows, a) && Ordered(o, rows, b) && !TieAt(o, a, m)
    ensures x in Prefix(a, m) <==> x in Prefix(b, m)
  {
    ListSize(a, rows);
    ListSize(b, rows);
    if 0 < m < |a| {
      var front, front' := set y | y in a[..m], set y | y in b[..m];
      ListSize(a[..m], front);
      ListSize(b[..m], front');
      FrontComesFirst(o, a, m);
      forall y, z | y in front && z in front' && z !in front ensures y in front' {
        assert z in b && z in a;
        BackOrFront(a, m, z);
        assert Before(o, y, z);
        assert y in a && y in b;
        NotBehind(o, b, m, y, z);
      }
      if front' <= front {
        SameSize(front', front);
      } else {
        SameSize(front, front');
      }
    } else if m == 0 {
      assert Prefix(a, 0) == [] == Prefix(b, 0);
    } else {
      assert Prefix(a, m) == a && Prefix(b, m) == b;
    }
  }

  lemma BackOrFront<T>(list: seq<T>, m: nat, x: T)
    requires m <= |list| && x in list
    ensures x in list[..m] || x in list[m..]
  {
    assert list == list[..m] + list[m..];
  }

  lemma FrontComesFirst(o: Ordering, list: seq<BillId>, m: nat)
    requires 0 < m < |list| && Distinct(list) && InOrder(o, list) && !TieAt(o, list, m)
    ensures forall x, y | x in list[..m] && y in list[m..] :: Before(o, x, y)
  {
    forall x, y | x in list[..m] && y in list[m..] ensures Before(o, x, y) {
      var i :| 0 <= i < m && list[i] == x;
      var j :| m <= j < |list| && list[j] == y;
      assert Before(o, list[m - 1], list[m]);
      BeforeIsWeakOrder(o, list[m], list[j], list[i]);
      BeforeIsWeakOrder(o, list[m], list[i], list[m - 1]);
      BeforeIsWeakOrder(o, list[j], list[m], list[i]);
      BeforeIsWeakOrder(o, list[i], list[j], list[m]);
      BeforeIsWeakOrder(o, list[i], list[m], list[m - 1]);
      assert !Before(o, list[j], list[m]) || j == m;
      assert !Before(o, list[m - 1], list[i]) || i == m - 1;
    }
  }

  lemma NotBehind(o: Ordering, list: seq<BillId>, m: nat, x: BillId, y: BillId)
    requires m <= |list| && InOrder(o, list) && x in list && y in list[..m] && Before(o, x, y)
    ensures x in list[..m]
  {
    var j :| 0 <= j < m && list[j] == y;
    var i :| 0 <= i < |list| && list[i] == x;
    BeforeIsWeakOrder(o, x, y, x);
    assert i < j;
    assert list[..m][i] == x;
  }

  /** A row at position `i` of `list` is on page `i / perPage` of any other result. */
  lemma ShownOnItsPage(o: Ordering, rows: set<BillId>, list: seq<BillId>, other: seq<BillId>, perPage: nat, i: nat, k: nat)
    requires Ordered(o, rows, list) && Ordered(o, rows, other) && i < |list|
    requires k * perPage <= i < (k + 1) * perPage
    requires !TieAt(o, list, k * perPage) && !TieAt(o, list, (k + 1) * perPage)
    ensures list[i] in Page(other, k, perPage)
  {
    var start := k * perPage;
    assert (k + 1) * perPage == start + perPage;
    SplitAgrees(o, rows, list, other, start, list[i]);
    SplitAgrees(o, rows, list, other, start + perPage, list[i]);
    assert list[i] !in Prefix(list, start);
    assert list[i] in Prefix(list, start + perPage) by {
      assert Prefix(list, start + perPage)[i] == list[i];
    }
    OnThePage(other, start, perPage, list[i]);
  }

  lemma OnThePage<T>(list: seq<T>, start: nat, perPage: nat, x: T)
    requires x in Prefix(list, start + perPage) && x !in Prefix(list, start)
    ensures x in Prefix(Suffix(list, start), perPage)
  {
    var front := Prefix(list, start + perPage);
    var j :| 0 <= j < |front| && front[j] == x;
    assert start <= |list|;
    BackOrFront(front, start, x);
    assert front[start..] == Prefix(Suffix(list, start), perPage);
  }

  lemma PageNumber(i: nat, perPage: nat, pages: nat) returns (k: nat)
    requires 0 < perPage && i < pages * perPage
    ensures k < pages && k * perPage <= i < (k + 1) * perPage
  {
    k := i / perPage;
    TimesIsMonotone(pages, k, perPage);
  }

  lemma TimesIsMonotone(a: nat, b: nat, n: nat)
    ensures a <= b ==> a * n <= b * n
  {
  }

  lemma NoTiesCover(o: Ordering, rows: set<BillId>, list: seq<BillId>, perPage: nat)
    requires 0 < perPage && Ordered(o, rows, list) && !TieAtPageEnd(o, list, perPage)
    ensures ListsCover(o, rows, perPage)
  {
    forall lists: seq<seq<BillId>> |
      (forall k | 0 <= k < |lists| :: Ordered(o, rows, lists[k])) && |rows| <= |lists| * perPage
      ensures EachIsShown(rows, lists, perPage)
    {
      forall x | x in rows ensures exists k :: 0 <= k < |lists| && x in Page(lists[k], k, perPage) {
        ListSize(list, rows);
        assert x in list;
        var i :| 0 <= i < |list| && list[i] == x;
        var k := PageNumber(i, perPage, |lists|);
        ShownOnItsPage(o, rows, list, lists[k], perPage, i, k);
      }
    }
  }

  function Swapped(list: seq<BillId>, m: nat): seq<BillId>
    requires 0 < m < |list|
  {
    list[m - 1 := list[m]][m := list[m - 1]]
  }

  /** Tied neighbours may come either way round. */
  lemma SwappedIsOrdered(o: Ordering, rows: set<BillId>, list: seq<BillId>, m: nat)
    requires Ordered(o, rows, list) && TieAt(o, list, m)
    ensures Ordered(o, rows, Swapped(list, m))
  {
    var other := Swapped(list, m);
    forall x ensures x in other <==> x in rows {
      if x in rows {
        assert x in list;
        var i :| 0 <= i < |list| && list[i] == x;
        assert other[if i == m then m - 1 else if i == m - 1 then m else i] == x;
      }
      if x in other {
        assert x in list;
      }
    }
  }

  /** The row before the tie, which is at the end of page `last`, is on no page if that page is
      taken from the other result. */
  lemma OnNoPage(list: seq<BillId>, perPage: nat, last: nat, k: nat)
    requires 0 < perPage && Distinct(list) && 0 < (last + 1) * perPage < |list|
    ensures var m := (last + 1) * perPage;
            && (k != last ==> list[m - 1] !in Page(list, k, perPage))
            && (Distinct(Swapped(list, m)) ==> list[m - 1] !in Page(Swapped(list, m), last, perPage))
  {
    var m := (last + 1) * perPage;
    assert m == last * perPage + perPage;
    if k != last {
      TimesIsMonotone(k + 1, last, perPage);
      TimesIsMonotone(last + 1, k, perPage);
      assert (k + 1) * perPage == k * perPage + perPage;
      NotOnPage(list, k, perPage, m - 1);
    }
    if Distinct(Swapped(list, m)) {
      NotOnPage(Swapped(list, m), last, perPage, m);
    }
  }

  /** The lists that lose it: page `last` comes from the other result. */
  function Mixed(list: seq<BillId>, other: seq<BillId>, last: nat, pages: nat): (lists: seq<seq<BillId>>)
    ensures |lists| == pages
    ensures forall k | 0 <= k < pages :: lists[k] == if k == last then other else list
  {
    seq(pages, k requires 0 <= k < pages => if k == last then other else list)
  }

  lemma TieLosesARow(o: Ordering, rows: set<BillId>, list: seq<BillId>, perPage: nat, last: nat)
    requires 0 < perPage && Ordered(o, rows, list) && TieAt(o, list, (last + 1) * perPage)
    ensures !ListsCover(o, rows, perPage)
  {
    var m := (last + 1) * perPage;
    SwappedIsOrdered(o, rows, list, m);
    var lists := Mixed(list, Swapped(list, m), last, |rows|);
    TimesIsMonotone(1, perPage, |rows|);
    var lost := list[m - 1];
    assert lost in rows by { assert lost in list; }
    forall k | 0 <= k < |lists| ensures lost !in Page(lists[k], k, perPage) {
      OnNoPage(list, perPage, last, k);
    }
    assert !EachIsShown(rows, lists, perPage);
  }

  lemma NotOnPage(list: seq<BillId>, k: nat, perPage: nat, i: nat)
    requires Distinct(list) && i < |list|
    requires i < k * perPage || k * perPage + perPage <= i
    ensures list[i] !in Page(list, k, perPage)
  {
    var page, start := Page(list, k, perPage), k * perPage;
    assert forall j | 0 <= j < |page| :: page[j] == list[start + j];
  }

  lemma ListsCoverIff(o: Ordering, rows: set<BillId>, list: seq<BillId>, perPage: nat)
    requires 0 < perPage && Ordered(o, rows, list)
    ensures ListsCover(o, rows, perPage) <==> !TieAtPageEnd(o, list, perPage)
  {
    if TieAtPageEnd(o, list, perPage) {
      var k: nat :| TieAt(o, list, k * perPage);
      assert k != 0;
      TieLosesARow(o, rows, list, perPage, k - 1);
    } else {
      NoTiesCover(o, rows, list, perPage);
    }
  }

  /** Fetching the pages one request at a time shows every ranked row, however ties fall, exactly
      when no two tied rows meet at the end of a page. */
  lemma PagesCoverIff(s: Snapshot, cap: nat, sort: Sort, p: Plan, perPage: nat)
    requires 0 < perPage && Executes(s, cap, sort, p)
    ensures var o := Ordering(s.bills, p.ranked, PageKey(sort));
            ListsCover(o, p.ranked.Keys, perPage) <==> !TieAtPageEnd(o, p.list, perPage)
  {
    ListsCoverIff(Ordering(s.bills, p.ranked, PageKey(sort)), p.ranked.Keys, p.list, perPage);
  }

  /** Two bills match, of one jurisdiction and with the same number. */
  predicate AreTwins(s: Snapshot, x: BillId, y: BillId) {
    && x != y && s.hits.Keys == {x, y} && s.docs == []
    && s.bills(x).jurisdiction == s.bills(y).jurisdiction && s.bills(x).number == s.bills(y).number
  }

  lemma TwinsAreRanked(s: Snapshot, x: BillId, y: BillId, cap: nat, p: Plan)
    requires AreTwins(s, x, y) && 2 <= cap && Executes(s, cap, Jurisdiction, p)
    ensures p.ranked.Keys == {x, y}
  {
    BothTwinsMatch(s, x, y);
    FlagsAreExact(s, cap, Jurisdiction, p);
    NotCappedIsExhaustive(s, cap, Jurisdiction, p);
  }

  lemma BothTwinsMatch(s: Snapshot, x: BillId, y: BillId)
    requires AreTwins(s, x, y)
    ensures |s.hits| == 2 && DocRanks(s.docs) == map[] && AllRanked(s).Keys == {x, y}
  {
    MergedKeys(s.hits, map[]);
    assert |s.hits| == |s.hits.Keys| && s.hits.Keys == {x} + {y};
  }

  lemma TwinsAreNotCovered(o: Ordering, x: BillId, y: BillId, list: seq<BillId>)
    requires o.key == ByJurisdiction && x != y && Ordered(o, {x, y}, list)
    requires o.bills(x).jurisdiction == o.bills(y).jurisdiction && o.bills(x).number == o.bills(y).number
    ensures !ListsCover(o, {x, y}, 1)
  {
    ListSize(list, {x, y});
    assert list[0] in list && list[1] in list;
    assert TieAt(o, list, 1 * 1);
    ListsCoverIff(o, {x, y}, list, 1);
  }

  /** A query whose pages can miss a row: twins, by jurisdiction, one row a page. */
  lemma TwinsCanBeMissed(s: Snapshot, x: BillId, y: BillId, cap: nat, p: Plan)
    requires AreTwins(s, x, y) && 2 <= cap && Executes(s, cap, Jurisdiction, p)
    ensures !ListsCover(Ordering(s.bills, p.ranked, ByJurisdiction), p.ranked.Keys, 1)
  {
    TwinsAreRanked(s, x, y, cap, p);
    TwinsAreNotCovered(Ordering(s.bills, p.ranked, ByJurisdiction), x, y, p.list);
  }

  function Pages(lists: seq<seq<BillId>>, perPage: nat): seq<BillId> {
    if lists == [] then [] else Pages(lists[..|lists| - 1], perPage) + Page(lists[|lists| - 1], |lists| - 1, perPage)
  }

  lemma {:induction false} PagesOfOneList(list: seq<BillId>, lists: seq<seq<BillId>>, perPage: nat)
    requires forall k | 0 <= k < |lists| :: lists[k] == list
    ensures Pages(lists, perPage) == Prefix(list, |lists| * perPage)
    decreases |lists|
  {
    if lists != [] {
      var k := |lists| - 1;
      PagesOfOneList(list, lists[..k], perPage);
      assert Pages(lists, perPage) == Prefix(list, k * perPage) + Page(list, k, perPage);
      PrefixThenPage(list, k, perPage);
    }
  }

  lemma PrefixThenPage<T>(list: seq<T>, k: nat, perPage: nat)
    ensures Prefix(list, k * perPage) + Page(list, k, perPage) == Prefix(list, (k + 1) * perPage)
  {
    assert (k + 1) * perPage == k * perPage + perPage;
  }

  lemma ListIsSettled(s: Snapshot, cap: nat, sort: Sort, p: Plan, p': Plan)
    requires sort != Jurisdiction && Executes(s, cap, sort, p) && Executes(s, cap, sort, p')
    ensures p.list == p'.list
  {
    RankedIsSettled(s, cap, sort, p, p');
    OrderedIsUnique(Ordering(s.bills, p.ranked, PageKey(sort)), p.ranked.Keys, p'.list, p.list);
  }

  /** Every sort but the one by jurisdiction breaks its ties by id: separate requests give pages
      that put together are the whole ranked list. */
  lemma PagesConcatenate(s: Snapshot, cap: nat, sort: Sort, plans: seq<Plan>, p: Plan, perPage: nat)
    requires sort != Jurisdiction && Executes(s, cap, sort, p)
    requires forall k | 0 <= k < |plans| :: Executes(s, cap, sort, plans[k])
    requires Total(p) <= |plans| * perPage
    ensures Pages(seq(|plans|, k requires 0 <= k < |plans| => plans[k].list), perPage) == p.list
  {
    var lists := seq(|plans|, k requires 0 <= k < |plans| => plans[k].list);
    forall k | 0 <= k < |lists| ensures lists[k] == p.list {
      ListIsSettled(s, cap, sort, p, plans[k]);
    }
    PagesOfOneList(p.list, lists, perPage);
    ListSize(p.list, p.ranked.Keys);
    assert |p.ranked| == |p.ranked.Keys|;
  }

  // ----- every query has a result -----

  lemma SomeElement(rows: set<BillId>) returns (x: BillId)
    requires |rows| > 0
    ensures x in rows
  {
    assert (forall y :: y !in rows) ==> rows == {};
    x :| x in rows;
  }

  lemma {:induction false} SomethingIsFirst(o: Ordering, rows: set<BillId>) returns (first: BillId)
    requires |rows| > 0
    ensures first in rows && forall x | x in rows :: !Before(o, x, first)
    decreases |rows|
  {
    var x := SomeElement(rows);
    if rows == {x} {
      first := x;
    } else {
      assert rows == (rows - {x}) + {x};
      var y := SomethingIsFirst(o, rows - {x});
      first := if Before(o, x, y) then x else y;
      forall z | z in rows ensures !Before(o, z, first) {
        BeforeIsWeakOrder(o, z, x, y);
        BeforeIsWeakOrder(o, z, y, x);
        BeforeIsWeakOrder(o, x, y, z);
      }
    }
  }

  lemma {:induction false} SomeListIsOrdered(o: Ordering, rows: set<BillId>) returns (list: seq<BillId>)
    ensures Ordered(o, rows, list)
    decreases |rows|
  {
    if rows == {} {
      list := [];
    } else {
      var first := SomethingIsFirst(o, rows);
      var rest := SomeListIsOrdered(o, rows - {first});
      list := [first] + rest;
      forall x | x in rest ensures x in rows && x != first { assert x in rows - {first}; }
      assert Elements(list, rows);
    }
  }

  lemma SomeCut(o: Ordering, rows: set<BillId>, n: nat) returns (kept: set<BillId>)
    ensures Cut(o, rows, n, kept)
  {
    var list := SomeListIsOrdered(o, rows);
    kept := set x | x in Prefix(list, n);
    assert Elements(Prefix(list, n), kept);
  }

  lemma SomePlanExecutes(s: Snapshot, cap: nat, sort: Sort) returns (p: Plan)
    ensures Executes(s, cap, sort, p)
  {
    var docs := DocRanks(s.docs);
    var billsProbe := SomeCut(Ordering(s.bills, s.hits, ProbeKey(sort)), s.hits.Keys, cap + 1);
    var billsSample := SomeCut(Ordering(s.bills, s.hits, ProbeKey(sort)), billsProbe, cap);
    var docsProbe := SomeCut(Ordering(s.bills, docs, ById), docs.Keys, cap + 1);
    var docsSample := SomeCut(Ordering(s.bills, docs, ById), docsProbe, cap);
    var ranked := RankedOf(s, Plan(billsProbe, billsSample, docsProbe, docsSample, map[], []));
    var list := SomeListIsOrdered(Ordering(s.bills, ranked, PageKey(sort)), ranked.Keys);
    p := Plan(billsProbe, billsSample, docsProbe, docsSample, ranked, list);
  }
}
