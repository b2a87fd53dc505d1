/**
  The aggregation behind the statistics dashboard. Daily rows are summed per
  tool path, the tools are sorted by visitors, totals are taken, the tools
  are grouped by category (the second '/'-segment of the path) and the
  categories sorted by visitors; `maxUv` scales the bars. A JavaScript `Map`
  keeps its keys in first-insertion order; here it is a sequence of buckets
  in that order, and both loops are the one generic step `AddTo`.
 */
module StatsDashboard {
  import opened Common
  import StableSort

  /** The three counters of a row, a tool or a category. */
  datatype Counts = Counts(pv: nat, uv: nat, uses: nat)

  function Plus(a: Counts, b: Counts): Counts {
    Counts(a.pv + b.pv, a.uv + b.uv, a.uses + b.uses)
  }

  const Zero: Counts := Counts(0, 0, 0)

  datatype StatsRow = StatsRow(date: string, path: string, counts: Counts)

  datatype ToolAgg = ToolAgg(path: string, counts: Counts)

  datatype CategoryGroup = CategoryGroup(category: string, tools: seq<ToolAgg>, counts: Counts)

  // ---------------------------------------------------------------------------
  // Grouping in first-occurrence order
  // ---------------------------------------------------------------------------

  /** A map entry: the items with one key, in order, and their summed counts. */
  datatype Bucket<T> = Bucket(key: string, members: seq<T>, total: Counts)

  /** `map.get(k)`: the index of the bucket with key `k`. */
  function Find<T>(buckets: seq<Bucket<T>>, k: string): (r: Option<nat>)
    ensures r.Some? ==> r.value < |buckets| && buckets[r.value].key == k
    ensures r.None? ==> forall i :: 0 <= i < |buckets| ==> buckets[i].key != k
  {
    if |buckets| == 0 then None
    else if Last(buckets).key == k then Some(|buckets| - 1)
    else Find(buckets[..|buckets| - 1], k)
  }

  /** One loop step: add to the existing entry, or set a new one. */
  function AddTo<T>(buckets: seq<Bucket<T>>, k: string, x: T, c: Counts): seq<Bucket<T>> {
    match Find(buckets, k)
    case Some(i) => buckets[i := Bucket(k, buckets[i].members + [x], Plus(buckets[i].total, c))]
    case None => buckets + [Bucket(k, [x], c)]
  }

  /** The whole loop. */
  function Buckets<T>(items: seq<T>, key: T -> string, counts: T -> Counts): seq<Bucket<T>> {
    if |items| == 0 then []
    else AddTo(Buckets(items[..|items| - 1], key, counts), key(Last(items)), Last(items), counts(Last(items)))
  }

  /** `items.reduce((s, t) => s + t.pv, 0)` and likewise for `uv` and `uses`. */
  function Sum<T>(items: seq<T>, counts: T -> Counts): Counts {
    if |items| == 0 then Zero else Plus(Sum(items[..|items| - 1], counts), counts(Last(items)))
  }

  function KeyIs<T>(key: T -> string, k: string): T -> bool {
    x => key(x) == k
  }

  /** The keys of the buckets. */
  function Keys<T>(buckets: seq<Bucket<T>>): set<string> {
    if |buckets| == 0 then {} else Keys(buckets[..|buckets| - 1]) + {Last(buckets).key}
  }

  /** The keys of the items. */
  function KeysOf<T>(items: seq<T>, key: T -> string): set<string> {
    if |items| == 0 then {} else KeysOf(items[..|items| - 1], key) + {key(Last(items))}
  }

  predicate DistinctKeys<T>(buckets: seq<Bucket<T>>) {
    forall i, j :: 0 <= i < j < |buckets| ==> buckets[i].key != buckets[j].key
  }

  /** The sum of the buckets' counters. */
  function TotalOf<T>(buckets: seq<Bucket<T>>): Counts {
    if |buckets| == 0 then Zero else Plus(TotalOf(buckets[..|buckets| - 1]), Last(buckets).total)
  }

  // ---------------------------------------------------------------------------
  // The dashboard's aggregation
  // ---------------------------------------------------------------------------

  function RowPath(r: StatsRow): string { r.path }
  function RowCounts(r: StatsRow): Counts { r.counts }
  function ToolCounts(t: ToolAgg): Counts { t.counts }
  function ToolUv(t: ToolAgg): real { t.counts.uv as real }
  function GroupUv(g: CategoryGroup): real { g.counts.uv as real }

  /** `parts[1] || 'other'` for `parts = path.split('/')`. */
  function CategoryOf(path: string): string {
    var parts := Split(path, '/');
    if |parts| > 1 && parts[1] != "" then parts[1] else "other"
  }

  function ToolCategory(t: ToolAgg): string { CategoryOf(t.path) }

  /** The tool entries of a per-path map. */
  function ToolsOf(b: seq<Bucket<StatsRow>>): seq<ToolAgg> {
    seq(|b|, i requires 0 <= i < |b| => ToolAgg(b[i].key, b[i].total))
  }

  /** The category entries of a per-category map. */
  function GroupsOf(b: seq<Bucket<ToolAgg>>): seq<CategoryGroup> {
    seq(|b|, i requires 0 <= i < |b| => CategoryGroup(b[i].key, b[i].members, b[i].total))
  }

  /** `[...toolMap.values()]`. */
  function ToolMapValues(rows: seq<StatsRow>): seq<ToolAgg> {
    ToolsOf(Buckets(rows, RowPath, RowCounts))
  }

  /** `tools`: sorted by descending `uv`, stably. */
  function Tools(rows: seq<StatsRow>): seq<ToolAgg> {
    StableSort.SortDesc(ToolMapValues(rows), ToolUv)
  }

  /** `[...catMap.values()]`. */
  function CategoryMapValues(tools: seq<ToolAgg>): seq<CategoryGroup> {
    GroupsOf(Buckets(tools, ToolCategory, ToolCounts))
  }

  /** `categories`: sorted by descending `uv`, stably. */
  function Categories(tools: seq<ToolAgg>): seq<CategoryGroup> {
    StableSort.SortDesc(CategoryMapValues(tools), GroupUv)
  }

  /** `Math.max(...tools.map((t) => t.uv), 1)`. */
  function MaxUv(tools: seq<ToolAgg>): nat {
    if |tools| == 0 then 1
    else
      var m := MaxUv(tools[..|tools| - 1]);
      if Last(tools).counts.uv > m then Last(tools).counts.uv else m
  }

  // ---------------------------------------------------------------------------
  // The two loops
  // ---------------------------------------------------------------------------

  /** The per-tool loop over the rows. */
  method AggregateTools(rows: seq<StatsRow>) returns (tools: seq<ToolAgg>)
    ensures tools == ToolMapValues(rows)
  {
    tools := [];
    ghost var buckets: seq<Bucket<StatsRow>> := [];
    for k := 0 to |rows|
      invariant buckets == Buckets(rows[..k], RowPath, RowCounts)
      invariant tools == ToolsOf(buckets)
    {
      assert rows[..k + 1][..k] == rows[..k];
      BucketKeys(rows[..k], RowPath, RowCounts);
      tools := AddRow(tools, buckets, rows[k]);
      buckets := AddTo(buckets, rows[k].path, rows[k], rows[k].counts);
    }
    assert rows[..|rows|] == rows;
  }

  /** The body of the per-tool loop. */
  method AddRow(tools: seq<ToolAgg>, ghost buckets: seq<Bucket<StatsRow>>, row: StatsRow)
      returns (tools': seq<ToolAgg>)
    requires DistinctKeys(buckets) && tools == ToolsOf(buckets)
    ensures tools' == ToolsOf(AddTo(buckets, row.path, row, row.counts))
  {
    var i := 0;
    while i < |tools| && tools[i].path != row.path
      invariant 0 <= i <= |tools|
      invariant forall j :: 0 <= j < i ==> buckets[j].key != row.path
    {
      i := i + 1;
    }
    FindIsFirstMatch(buckets, row.path, i);
    if i < |tools| {
      tools' := tools[i := ToolAgg(tools[i].path, Plus(tools[i].counts, row.counts))];
    } else {
      tools' := tools + [ToolAgg(row.path, row.counts)];
    }
  }

  /** The per-category loop over the sorted tools. */
  method GroupCategories(tools: seq<ToolAgg>) returns (groups: seq<CategoryGroup>)
    ensures groups == CategoryMapValues(tools)
  {
    groups := [];
    ghost var buckets: seq<Bucket<ToolAgg>> := [];
    for k := 0 to |tools|
      invariant buckets == Buckets(tools[..k], ToolCategory, ToolCounts)
      invariant groups == GroupsOf(buckets)
    {
      assert tools[..k + 1][..k] == tools[..k];
      BucketKeys(tools[..k], ToolCategory, ToolCounts);
      groups := AddTool(groups, buckets, tools[k]);
      buckets := AddTo(buckets, CategoryOf(tools[k].path), tools[k], tools[k].counts);
    }
    assert tools[..|tools|] == tools;
  }

  /** The body of the per-category loop. */
  method AddTool(groups: seq<CategoryGroup>, ghost buckets: seq<Bucket<ToolAgg>>, tool: ToolAgg)
      returns (groups': seq<CategoryGroup>)
    requires DistinctKeys(buckets) && groups == GroupsOf(buckets)
    ensures groups' == GroupsOf(AddTo(buckets, CategoryOf(tool.path), tool, tool.counts))
  {
    var parts := Split(tool.path, '/');
    var cat := if |parts| > 1 && parts[1] != "" then parts[1] else "other";
    var i := 0;
    while i < |groups| && groups[i].category != cat
      invariant 0 <= i <= |groups|
      invariant forall j :: 0 <= j < i ==> buckets[j].key != cat
    {
      i := i + 1;
    }
    FindIsFirstMatch(buckets, cat, i);
    if i < |groups| {
      var existing := groups[i];
      groups' := groups[i := CategoryGroup(cat, existing.tools + [tool], Plus(existing.counts, tool.counts))];
    } else {
      groups' := groups + [CategoryGroup(cat, [tool], tool.counts)];
    }
  }

  /** Keys are distinct, so the first bucket with a key is the one `Find`
      returns. */
  lemma FindIsFirstMatch<T>(buckets: seq<Bucket<T>>, k: string, i: nat)
    requires i <= |buckets| && DistinctKeys(buckets)
    requires forall j :: 0 <= j < i ==> buckets[j].key != k
    requires i < |buckets| ==> buckets[i].key == k
    ensures i < |buckets| ==> Find(buckets, k) == Some(i)
    ensures i == |buckets| ==> Find(buckets, k) == None
  {
  }

  // ---------------------------------------------------------------------------
  // Properties of the grouping
  // ---------------------------------------------------------------------------

  lemma {:induction false} KeysMember<T>(buckets: seq<Bucket<T>>, k: string)
    ensures k in Keys(buckets) <==> exists i :: 0 <= i < |buckets| && buckets[i].key == k
  {
    if |buckets| > 0 {
      var init := buckets[..|buckets| - 1];
      KeysMember(init, k);
      if k in Keys(init) {
        var i :| 0 <= i < |init| && init[i].key == k;
        assert buckets[i].key == k;
      }
      if exists i :: 0 <= i < |buckets| && buckets[i].key == k {
        var i :| 0 <= i < |buckets| && buckets[i].key == k;
        if i < |init| {
          assert init[i].key == k;
        }
      }
    }
  }

  lemma {:induction false} KeysOfMember<T>(items: seq<T>, key: T -> string, k: string)
    ensures k in KeysOf(items, key) <==> exists x :: x in items && key(x) == k
  {
    if |items| > 0 {
      var init := items[..|items| - 1];
      KeysOfMember(init, key, k);
      assert items == init + [Last(items)];
    }
  }

  /** The map has an entry for `k` exactly when some item has key `k`. */
  lemma BucketKeyPresent<T>(items: seq<T>, key: T -> string, counts: T -> Counts, k: string)
    ensures var b := Buckets(items, key, counts);
            (exists i :: 0 <= i < |b| && b[i].key == k) <==> exists x :: x in items && key(x) == k
  {
    BucketKeys(items, key, counts);
    KeysMember(Buckets(items, key, counts), k);
    KeysOfMember(items, key, k);
  }

  lemma AddToKeys<T>(buckets: seq<Bucket<T>>, k: string, x: T, c: Counts)
    requires DistinctKeys(buckets)
    ensures DistinctKeys(AddTo(buckets, k, x, c))
    ensures Keys(AddTo(buckets, k, x, c)) == Keys(buckets) + {k}
  {
    var after := AddTo(buckets, k, x, c);
    if Find(buckets, k).None? {
      assert after[..|buckets|] == buckets;
    } else {
      KeysMember(buckets, k);
      forall key
        ensures key in Keys(after) <==> key in Keys(buckets)
      {
        KeysMember(buckets, key);
        KeysMember(after, key);
        if key in Keys(buckets) {
          var i :| 0 <= i < |buckets| && buckets[i].key == key;
          assert after[i].key == key;
        }
        if key in Keys(after) {
          var i :| 0 <= i < |after| && after[i].key == key;
          assert buckets[i].key == key;
        }
      }
    }
  }

  /** One entry per distinct key: the keys are distinct and are exactly the
      items' keys. */
  lemma {:induction false} BucketKeys<T>(items: seq<T>, key: T -> string, counts: T -> Counts)
    ensures DistinctKeys(Buckets(items, key, counts))
    ensures Keys(Buckets(items, key, counts)) == KeysOf(items, key)
  {
    if |items| > 0 {
      var init := items[..|items| - 1];
      BucketKeys(init, key, counts);
      AddToKeys(Buckets(init, key, counts), key(Last(items)), Last(items), counts(Last(items)));
    }
  }

  /** An entry holds exactly the items with its key, in input order, and its
      counters are their sums. */
  ghost predicate Faithful<T>(b: Bucket<T>, items: seq<T>, key: T -> string, counts: T -> Counts) {
    b.members == Filter(items, KeyIs(key, b.key)) && b.total == Sum(b.members, counts)
  }

  ghost predicate AllFaithful<T>(buckets: seq<Bucket<T>>, items: seq<T>, key: T -> string, counts: T -> Counts) {
    forall i :: 0 <= i < |buckets| ==> Faithful(buckets[i], items, key, counts)
  }

  /** Every entry is faithful to the items. */
  lemma {:induction false} BucketMembers<T>(items: seq<T>, key: T -> string, counts: T -> Counts)
    ensures AllFaithful(Buckets(items, key, counts), items, key, counts)
  {
    if |items| > 0 {
      BucketMembers(items[..|items| - 1], key, counts);
      BucketKeys(items[..|items| - 1], key, counts);
      BucketsStep(items, key, counts);
    }
  }

  lemma BucketsStep<T>(items: seq<T>, key: T -> string, counts: T -> Counts)
    requires |items| > 0
    requires var before := Buckets(items[..|items| - 1], key, counts);
             && AllFaithful(before, items[..|items| - 1], key, counts)
             && DistinctKeys(before) && Keys(before) == KeysOf(items[..|items| - 1], key)
    ensures AllFaithful(Buckets(items, key, counts), items, key, counts)
  {
    var init, x := items[..|items| - 1], Last(items);
    MembersStep(Buckets(init, key, counts), init, x, key, counts);
    InitLast(items);
  }

  /** Adding `x` keeps every entry faithful. */
  lemma MembersStep<T>(before: seq<Bucket<T>>, init: seq<T>, x: T, key: T -> string, counts: T -> Counts)
    requires AllFaithful(before, init, key, counts)
    requires DistinctKeys(before) && Keys(before) == KeysOf(init, key)
    ensures AllFaithful(AddTo(before, key(x), x, counts(x)), init + [x], key, counts)
  {
    var after := AddTo(before, key(x), x, counts(x));
    match Find(before, key(x))
    case Some(m) =>
      forall i | 0 <= i < |after|
        ensures Faithful(after[i], init + [x], key, counts)
      {
        if i == m {
          FaithfulExtend(before[m], init, x, key, counts);
        } else {
          FaithfulOther(before[i], init, x, key, counts);
        }
      }
    case None =>
      AbsentKey(before, key(x));
      FaithfulNew(init, x, key, counts);
      forall i | 0 <= i < |before|
        ensures Faithful(after[i], init + [x], key, counts)
      {
        FaithfulOther(before[i], init, x, key, counts);
      }
  }

  /** An entry with another key is unaffected by `x`. */
  lemma FaithfulOther<T>(b: Bucket<T>, init: seq<T>, x: T, key: T -> string, counts: T -> Counts)
    requires Faithful(b, init, key, counts) && b.key != key(x)
    ensures Faithful(b, init + [x], key, counts)
  {
    FilterSnoc(init, x, KeyIs(key, b.key));
  }

  /** The entry with `x`'s key gains `x` and its counters. */
  lemma FaithfulExtend<T>(b: Bucket<T>, init: seq<T>, x: T, key: T -> string, counts: T -> Counts)
    requires Faithful(b, init, key, counts) && b.key == key(x)
    ensures Faithful(Bucket(b.key, b.members + [x], Plus(b.total, counts(x))), init + [x], key, counts)
  {
    FilterSnoc(init, x, KeyIs(key, b.key));
    SumSnoc(b.members, x, counts);
  }

  /** A new key starts an entry holding just `x`. */
  lemma FaithfulNew<T>(init: seq<T>, x: T, key: T -> string, counts: T -> Counts)
    requires key(x) !in KeysOf(init, key)
    ensures Faithful(Bucket(key(x), [x], counts(x)), init + [x], key, counts)
  {
    FilterSnoc(init, x, KeyIs(key, key(x)));
    FilterNone(init, key, key(x));
    SumSnoc([], x, counts);
  }

  lemma FilterSnoc<T>(s: seq<T>, x: T, keep: T -> bool)
    ensures Filter(s + [x], keep) == Filter(s, keep) + if keep(x) then [x] else []
  {
    assert (s + [x])[..|s|] == s;
  }

  lemma SumSnoc<T>(s: seq<T>, x: T, counts: T -> Counts)
    ensures Sum(s + [x], counts) == Plus(Sum(s, counts), counts(x))
  {
    assert (s + [x])[..|s|] == s;
  }

  /** A key `Find` does not find is not among the keys. */
  lemma {:induction false} AbsentKey<T>(buckets: seq<Bucket<T>>, k: string)
    requires Find(buckets, k).None?
    ensures k !in Keys(buckets)
  {
    if |buckets| > 0 {
      AbsentKey(buckets[..|buckets| - 1], k);
    }
  }

  /** No item has a key outside the items' keys. */
  lemma {:induction false} FilterNone<T>(items: seq<T>, key: T -> string, k: string)
    requires k !in KeysOf(items, key)
    ensures Filter(items, KeyIs(key, k)) == []
  {
    if |items| > 0 {
      FilterNone(items[..|items| - 1], key, k);
    }
  }

  /** Grouping neither loses nor invents counts. */
  lemma {:induction false} BucketTotals<T>(items: seq<T>, key: T -> string, counts: T -> Counts)
    ensures TotalOf(Buckets(items, key, counts)) == Sum(items, counts)
  {
    if |items| > 0 {
      var init := items[..|items| - 1];
      var x := Last(items);
      BucketTotals(init, key, counts);
      AddToTotal(Buckets(init, key, counts), key(x), x, counts(x));
    }
  }

  lemma AddToTotal<T>(buckets: seq<Bucket<T>>, k: string, x: T, c: Counts)
    ensures TotalOf(AddTo(buckets, k, x, c)) == Plus(TotalOf(buckets), c)
  {
    if Find(buckets, k).Some? {
      var i := Find(buckets, k).value;
      UpdateTotal(buckets, i, Bucket(k, buckets[i].members + [x], Plus(buckets[i].total, c)));
    } else {
      assert (buckets + [Bucket(k, [x], c)])[..|buckets|] == buckets;
    }
  }

  lemma {:induction false} UpdateTotal<T>(buckets: seq<Bucket<T>>, i: nat, b: Bucket<T>)
    requires i < |buckets|
    ensures Plus(TotalOf(buckets[i := b]), buckets[i].total) == Plus(TotalOf(buckets), b.total)
  {
    var n := |buckets| - 1;
    if i < n {
      UpdateTotal(buckets[..n], i, b);
      assert buckets[i := b][..n] == buckets[..n][i := b];
    } else {
      assert buckets[i := b][..n] == buckets[..n];
    }
  }

  /** Sorting keeps the sums. */
  lemma {:induction false} SortKeepsSum<T>(s: seq<T>, key: T -> real, counts: T -> Counts)
    ensures Sum(StableSort.SortDesc(s, key), counts) == Sum(s, counts)
  {
    if |s| > 0 {
      var init := s[..|s| - 1];
      SortKeepsSum(init, key, counts);
      InsertKeepsSum(StableSort.SortDesc(init, key), Last(s), key, counts);
    }
  }

  lemma {:induction false} InsertKeepsSum<T>(s: seq<T>, x: T, key: T -> real, counts: T -> Counts)
    ensures Sum(StableSort.Insert(s, x, key), counts) == Plus(Sum(s, counts), counts(x))
  {
    if |s| > 0 && key(s[0]) >= key(x) {
      InsertKeepsSum(s[1..], x, key, counts);
      SumCons(s[0], s[1..], counts);
      SumCons(s[0], StableSort.Insert(s[1..], x, key), counts);
      assert [s[0]] + s[1..] == s;
    } else {
      SumCons(x, s, counts);
    }
  }

  lemma {:induction false} SumCons<T>(x: T, s: seq<T>, counts: T -> Counts)
    ensures Sum([x] + s, counts) == Plus(counts(x), Sum(s, counts))
  {
    if |s| > 0 {
      var init := s[..|s| - 1];
      SumCons(x, init, counts);
      assert ([x] + s)[..|s|] == [x] + init;
    } else {
      assert ([x] + s)[..0] == [];
    }
  }

  // ---------------------------------------------------------------------------
  // Properties of the dashboard
  // ---------------------------------------------------------------------------

  /** Each distinct path gets exactly one tool, and its counters are the sums
      over the rows with that path. */
  lemma ToolsProperties(rows: seq<StatsRow>, p: string)
    ensures var tools := ToolMapValues(rows);
            && (forall i, j :: 0 <= i < j < |tools| ==> tools[i].path != tools[j].path)
            && ((exists i :: 0 <= i < |tools| && tools[i].path == p) <==> exists r :: r in rows && r.path == p)
            && (forall i :: 0 <= i < |tools| ==>
                  tools[i].counts == Sum(Filter(rows, KeyIs(RowPath, tools[i].path)), RowCounts))
  {
    ToolsDistinct(rows);
    ToolPresent(rows, p);
    ToolsSums(rows);
  }

  lemma ToolsDistinct(rows: seq<StatsRow>)
    ensures var tools := ToolMapValues(rows);
            forall i, j :: 0 <= i < j < |tools| ==> tools[i].path != tools[j].path
  {
    BucketKeys(rows, RowPath, RowCounts);
  }

  lemma ToolPresent(rows: seq<StatsRow>, p: string)
    ensures var tools := ToolMapValues(rows);
            (exists i :: 0 <= i < |tools| && tools[i].path == p) <==> exists r :: r in rows && r.path == p
  {
    var b := Buckets(rows, RowPath, RowCounts);
    var tools := ToolMapValues(rows);
    BucketKeyPresent(rows, RowPath, RowCounts, p);
    if exists i :: 0 <= i < |tools| && tools[i].path == p {
      var i :| 0 <= i < |tools| && tools[i].path == p;
      assert b[i].key == p;
    }
    if exists i :: 0 <= i < |b| && b[i].key == p {
      var i :| 0 <= i < |b| && b[i].key == p;
      assert tools[i].path == p;
    }
  }

  lemma ToolsSums(rows: seq<StatsRow>)
    ensures var tools := ToolMapValues(rows);
            forall i :: 0 <= i < |tools| ==>
              tools[i].counts == Sum(Filter(rows, KeyIs(RowPath, tools[i].path)), RowCounts)
  {
    BucketMembers(rows, RowPath, RowCounts);
  }

  /** The tools are the map's entries in non-increasing `uv` order, with
      first-seen order among equal `uv`. */
  lemma ToolsSorted(rows: seq<StatsRow>)
    ensures multiset(Tools(rows)) == multiset(ToolMapValues(rows))
    ensures StableSort.NonIncreasing(Tools(rows), ToolUv)
    ensures forall v :: StableSort.WithKey(Tools(rows), ToolUv, v) == StableSort.WithKey(ToolMapValues(rows), ToolUv, v)
  {
    StableSort.SortProperties(ToolMapValues(rows), ToolUv);
  }

  /** The totals are the sums over all rows. */
  lemma TotalsProperties(rows: seq<StatsRow>)
    ensures Sum(Tools(rows), ToolCounts) == Sum(rows, RowCounts)
  {
    SortKeepsSum(ToolMapValues(rows), ToolUv, ToolCounts);
    BucketTotals(rows, RowPath, RowCounts);
    ProjectedTotal(Buckets(rows, RowPath, RowCounts));
  }

  lemma {:induction false} ProjectedTotal(b: seq<Bucket<StatsRow>>)
    ensures Sum(ToolsOf(b), ToolCounts) == TotalOf(b)
  {
    if |b| > 0 {
      var n := |b| - 1;
      ProjectedTotal(b[..n]);
      assert ToolsOf(b)[..n] == ToolsOf(b[..n]);
    }
  }

  /** A path "/c/..." or "/c" with a non-empty first segment `c` is in
      category `c`; a non-empty path with no '/' at all is in "other". */
  lemma CategoryOfPath(c: string, rest: string)
    requires c != "" && '/' !in c
    ensures CategoryOf("/" + c + "/" + rest) == c
    ensures CategoryOf("/" + c) == c
    ensures CategoryOf(c) == "other"
  {
    SplitAtFirst("", c + "/" + rest, '/');
    assert "/" + c + "/" + rest == "" + ['/'] + (c + "/" + rest);
    SplitAtFirst(c, rest, '/');
    assert c + "/" + rest == c + ['/'] + rest;
    SplitAtFirst("", c, '/');
    assert "/" + c == "" + ['/'] + c;
    SplitNoSeparator(c, '/');
  }

  lemma {:induction false} SplitNoSeparator(s: string, sep: char)
    requires sep !in s
    ensures Split(s, sep) == [s]
  {
    if |s| > 0 {
      SplitNoSeparator(s[1..], sep);
      assert s[0] in s;
      assert [s[0]] + s[1..] == s;
    }
  }

  /** Each category appears once, exactly for the categories of the tools;
      each lists its tools in order and sums their counters. */
  lemma CategoriesProperties(tools: seq<ToolAgg>, c: string)
    ensures var groups := CategoryMapValues(tools);
            && (forall i, j :: 0 <= i < j < |groups| ==> groups[i].category != groups[j].category)
            && ((exists i :: 0 <= i < |groups| && groups[i].category == c) <==>
                exists t :: t in tools && CategoryOf(t.path) == c)
            && (forall i :: 0 <= i < |groups| ==>
                  && groups[i].tools == Filter(tools, KeyIs(ToolCategory, groups[i].category))
                  && groups[i].counts == Sum(groups[i].tools, ToolCounts))
  {
    CategoriesDistinct(tools);
    CategoryPresent(tools, c);
    CategoriesFaithful(tools);
  }

  lemma CategoriesDistinct(tools: seq<ToolAgg>)
    ensures var groups := CategoryMapValues(tools);
            forall i, j :: 0 <= i < j < |groups| ==> groups[i].category != groups[j].category
  {
    BucketKeys(tools, ToolCategory, ToolCounts);
  }

  lemma CategoryPresent(tools: seq<ToolAgg>, c: string)
    ensures var groups := CategoryMapValues(tools);
            (exists i :: 0 <= i < |groups| && groups[i].category == c) <==>
            exists t :: t in tools && CategoryOf(t.path) == c
  {
    var b := Buckets(tools, ToolCategory, ToolCounts);
    var groups := CategoryMapValues(tools);
    BucketKeyPresent(tools, ToolCategory, ToolCounts, c);
    if exists i :: 0 <= i < |groups| && groups[i].category == c {
      var i :| 0 <= i < |groups| && groups[i].category == c;
      assert b[i].key == c;
    }
    if exists i :: 0 <= i < |b| && b[i].key == c {
      var i :| 0 <= i < |b| && b[i].key == c;
      assert groups[i].category == c;
    }
    if exists t :: t in tools && ToolCategory(t) == c {
      var t :| t in tools && ToolCategory(t) == c;
      assert CategoryOf(t.path) == c;
    }
  }

  lemma CategoriesFaithful(tools: seq<ToolAgg>)
    ensures var groups := CategoryMapValues(tools);
            forall i :: 0 <= i < |groups| ==>
              && groups[i].tools == Filter(tools, KeyIs(ToolCategory, groups[i].category))
              && groups[i].counts == Sum(groups[i].tools, ToolCounts)
  {
    BucketMembers(tools, ToolCategory, ToolCounts);
  }

  /** The categories are in non-increasing `uv` order, stably. */
  lemma CategoriesSorted(tools: seq<ToolAgg>)
    ensures multiset(Categories(tools)) == multiset(CategoryMapValues(tools))
    ensures StableSort.NonIncreasing(Categories(tools), GroupUv)
    ensures forall v :: StableSort.WithKey(Categories(tools), GroupUv, v) == StableSort.WithKey(CategoryMapValues(tools), GroupUv, v)
  {
    StableSort.SortProperties(CategoryMapValues(tools), GroupUv);
  }

  /** `maxUv` is at least 1 and at least every tool's `uv`, and is one of
      them unless it is the floor 1. */
  lemma {:induction false} MaxUvProperties(tools: seq<ToolAgg>)
    ensures MaxUv(tools) >= 1
    ensures forall i :: 0 <= i < |tools| ==> tools[i].counts.uv <= MaxUv(tools)
    ensures MaxUv(tools) == 1 || exists i :: 0 <= i < |tools| && tools[i].counts.uv == MaxUv(tools)
  {
    if |tools| > 0 {
      var init := tools[..|tools| - 1];
      MaxUvProperties(init);
      if MaxUv(tools) != 1 && MaxUv(tools) == MaxUv(init) && Last(tools).counts.uv != MaxUv(tools) {
        var i :| 0 <= i < |init| && init[i].counts.uv == MaxUv(init);
        assert tools[i] == init[i];
      }
    }
  }
}
