/** The statistics of a benchmark summary over exact numbers: nearest-rank percentiles, averages,
    maxima, and sorted lists of distinct values. */
module BenchmarkStats {
  import opened Wrappers
  import opened Ordering

  // ----- Sorting -----

  ghost predicate Sorted(s: seq<real>) {
    forall i, j :: 0 <= i < j < |s| ==> s[i] <= s[j]
  }

  function Insert(s: seq<real>, x: real): (r: seq<real>)
    ensures |r| == |s| + 1
  {
    if s == [] || x <= s[0] then [x] + s else [s[0]] + Insert(s[1..], x)
  }

  /** `sorted(values)` */
  function Sort(s: seq<real>): (r: seq<real>)
    ensures |r| == |s|
  {
    if s == [] then [] else Insert(Sort(s[..|s| - 1]), s[|s| - 1])
  }

  lemma {:induction false} InsertElements(s: seq<real>, x: real)
    ensures multiset(Insert(s, x)) == multiset(s) + multiset{x}
  {
    if s != [] && x > s[0] {
      InsertElements(s[1..], x);
      assert s == [s[0]] + s[1..];
    }
  }

  ghost predicate AtLeast(s: seq<real>, low: real) {
    forall i :: 0 <= i < |s| ==> low <= s[i]
  }

  lemma {:induction false} InsertAtLeast(s: seq<real>, x: real, low: real)
    requires AtLeast(s, low) && low <= x
    ensures AtLeast(Insert(s, x), low)
  {
    if s != [] && x > s[0] {
      InsertAtLeast(s[1..], x, low);
    }
  }

  lemma SortedCons(x: real, s: seq<real>)
    requires Sorted(s) && AtLeast(s, x)
    ensures Sorted([x] + s)
  {}

  lemma {:induction false} InsertSorted(s: seq<real>, x: real)
    requires Sorted(s)
    ensures Sorted(Insert(s, x))
  {
    if s == [] {
      assert Insert(s, x) == [x];
    } else if x <= s[0] {
      SortedCons(x, s);
    } else {
      InsertSorted(s[1..], x);
      InsertAtLeast(s[1..], x, s[0]);
      SortedCons(s[0], Insert(s[1..], x));
    }
  }

  lemma {:induction false} SortSorts(s: seq<real>)
    ensures Sorted(Sort(s)) && multiset(Sort(s)) == multiset(s)
  {
    if s != [] {
      hide Sorted;
      SortSorts(s[..|s| - 1]);
      InsertSorted(Sort(s[..|s| - 1]), s[|s| - 1]);
      InsertElements(Sort(s[..|s| - 1]), s[|s| - 1]);
      assert s == s[..|s| - 1] + [s[|s| - 1]];
    } else {
      assert Sort(s) == [];
    }
  }

  // ----- Nearest rank -----

  function Ceil(a: nat, b: nat): (n: nat)
    requires b > 0
    ensures b * n >= a && (n > 0 ==> b * (n - 1) < a)
  {
    (a + b - 1) / b
  }

  /** How many values rank at or below the percentile `num / den`; at least one. */
  function Rank(n: nat, num: nat, den: nat): (k: nat)
    requires n > 0 && num <= den && den > 0
    ensures 1 <= k <= n
  {
    RankFits(n, num, den);
    if Ceil(n * num, den) == 0 then 1 else Ceil(n * num, den)
  }

  lemma TimesMonotone(b: nat, x: nat, y: nat)
    requires x <= y
    ensures b * x <= b * y
  {}

  lemma CeilAtMost(a: nat, b: nat, m: nat)
    requires b > 0 && a <= b * m
    ensures Ceil(a, b) <= m
  {
    var n := Ceil(a, b);
    hide Ceil;
    if n > m {
      TimesMonotone(b, m, n - 1);
    }
  }

  lemma RankFits(n: nat, num: nat, den: nat)
    requires num <= den && den > 0
    ensures Ceil(n * num, den) <= n
  {
    hide Ceil;
    TimesMonotone(n, num, den);
    CeilAtMost(n * num, den, n);
  }

  function Percentile(values: seq<real>, num: nat, den: nat): real
    requires values != [] && num <= den && den > 0
  {
    Sort(values)[Rank(|values|, num, den) - 1]
  }

  /** The values at most `v`, or strictly below it. */
  function Count(values: seq<real>, v: real, strict: bool): nat {
    if values == [] then 0
    else
      var last := values[|values| - 1];
      Count(values[..|values| - 1], v, strict) + if last < v || (!strict && last == v) then 1 else 0
  }

  lemma {:induction false} CountConcat(a: seq<real>, b: seq<real>, v: real, strict: bool)
    ensures Count(a + b, v, strict) == Count(a, v, strict) + Count(b, v, strict)
  {
    if b == [] {
      assert a + b == a;
    } else {
      assert (a + b)[..|a + b| - 1] == a + b[..|b| - 1];
      CountConcat(a, b[..|b| - 1], v, strict);
    }
  }

  /** Removing one occurrence of an element, wherever it stands. */
  lemma TakeOut<T>(a: seq<T>, b: seq<T>) returns (i: nat)
    requires a != [] && multiset(a) == multiset(b)
    ensures i < |b| && b[i] == a[|a| - 1]
    ensures b == b[..i] + [b[i]] + b[i + 1..]
    ensures multiset(a[..|a| - 1]) == multiset(b[..i] + b[i + 1..])
  {
    var front, last := a[..|a| - 1], a[|a| - 1];
    assert a == front + [last];
    assert last in multiset(b);
    i :| 0 <= i < |b| && b[i] == last;
    WithoutOne(b, i);
    WithoutOne(a, |front|);
    assert front + a[|a|..] == front;
  }

  lemma WithoutOne<T>(s: seq<T>, i: nat)
    requires i < |s|
    ensures s == s[..i] + [s[i]] + s[i + 1..]
    ensures multiset(s[..i] + s[i + 1..]) == multiset(s) - multiset{s[i]}
  {
    assert s == s[..i] + [s[i]] + s[i + 1..];
    assert multiset(s) == multiset(s[..i] + [s[i]]) + multiset(s[i + 1..]);
    assert multiset(s[..i] + [s[i]]) == multiset(s[..i]) + multiset{s[i]};
  }

  /** Counts do not depend on the order of the values. */
  lemma {:induction false} CountPermuted(a: seq<real>, b: seq<real>, v: real, strict: bool)
    requires multiset(a) == multiset(b)
    ensures Count(a, v, strict) == Count(b, v, strict)
  {
    if a == [] {
      assert |multiset(b)| == |b|;
    } else {
      var i := TakeOut(a, b);
      CountPermuted(a[..|a| - 1], b[..i] + b[i + 1..], v, strict);
      CountConcat(b[..i], b[i + 1..], v, strict);
      CountConcat(b[..i] + [b[i]], b[i + 1..], v, strict);
      assert (b[..i] + [b[i]])[..i] == b[..i];
    }
  }

  lemma {:induction false} CountAll(values: seq<real>, v: real, strict: bool)
    ensures Count(values, v, strict) <= |values|
    ensures (forall i :: 0 <= i < |values| ==> values[i] <= v) ==> Count(values, v, false) == |values|
    ensures (forall i :: 0 <= i < |values| ==> v <= values[i]) ==> Count(values, v, true) == 0
  {
    if values != [] {
      CountAll(values[..|values| - 1], v, strict);
      CountAll(values[..|values| - 1], v, true);
      CountAll(values[..|values| - 1], v, false);
    }
  }

  /** What a nearest-rank value is: at least `k` values are at most it, fewer than `k` are below it. */
  ghost predicate IsNearestRank(values: seq<real>, k: nat, r: real) {
    r in values && Count(values, r, false) >= k && Count(values, r, true) < k
  }

  lemma SortedCounts(low: seq<real>, high: seq<real>, r: real)
    requires (forall i :: 0 <= i < |low| ==> low[i] <= r) && AtLeast(high, r) && high != [] && high[0] == r
    ensures Count(low + high, r, false) >= |low| + 1
    ensures Count(low + high, r, true) <= |low|
  {
    CountConcat(low, high, r, false);
    CountConcat(low, high, r, true);
    CountAll(low, r, false);
    CountAll(low, r, true);
    CountAll(high, r, true);
    CountConcat([r], high[1..], r, false);
    assert high == [r] + high[1..];
    assert Count([r], r, false) == 1;
  }

  lemma SortedRank(s: seq<real>, k: nat)
    requires Sorted(s) && 1 <= k <= |s|
    ensures Count(s, s[k - 1], false) >= k && Count(s, s[k - 1], true) < k
  {
    hide Count;
    assert s == s[..k - 1] + s[k - 1..];
    SortedCounts(s[..k - 1], s[k - 1..], s[k - 1]);
  }

  /** The percentile is a nearest-rank value of the list, and at most the maximum. */
  lemma PercentileIsNearestRank(values: seq<real>, num: nat, den: nat)
    requires values != [] && num <= den && den > 0
    ensures IsNearestRank(values, Rank(|values|, num, den), Percentile(values, num, den))
  {
    var s, k := Sort(values), Rank(|values|, num, den);
    SortSorts(values);
    SortedRank(s, k);
    CountPermuted(s, values, s[k - 1], false);
    CountPermuted(s, values, s[k - 1], true);
    assert s[k - 1] in multiset(values);
  }

  ghost predicate PointwiseAtMost(a: seq<real>, b: seq<real>) {
    |a| == |b| && forall i :: 0 <= i < |a| ==> a[i] <= b[i]
  }

  lemma {:induction false} CountAntitone(a: seq<real>, b: seq<real>, low: real, high: real)
    requires PointwiseAtMost(a, b) && low < high
    ensures Count(b, low, false) <= Count(a, high, true)
  {
    if a != [] {
      CountAntitone(a[..|a| - 1], b[..|b| - 1], low, high);
    }
  }

  /** Raising values pointwise never lowers a nearest-rank value of the same rank. */
  lemma NearestRankMonotone(a: seq<real>, b: seq<real>, k: nat, ra: real, rb: real)
    requires PointwiseAtMost(a, b) && IsNearestRank(a, k, ra) && IsNearestRank(b, k, rb)
    ensures ra <= rb
  {
    if rb < ra {
      CountAntitone(a, b, rb, ra);
    }
  }

  lemma PercentileMonotone(a: seq<real>, b: seq<real>, num: nat, den: nat)
    requires a != [] && PointwiseAtMost(a, b) && num <= den && den > 0
    ensures Percentile(a, num, den) <= Percentile(b, num, den)
  {
    hide Percentile;
    hide IsNearestRank;
    PercentileIsNearestRank(a, num, den);
    PercentileIsNearestRank(b, num, den);
    NearestRankMonotone(a, b, Rank(|a|, num, den), Percentile(a, num, den), Percentile(b, num, den));
  }

  /** The nearest-rank value is determined by the values, whatever their order. */
  lemma PercentilePermuted(a: seq<real>, b: seq<real>, num: nat, den: nat)
    requires a != [] && multiset(a) == multiset(b) && num <= den && den > 0
    ensures |a| == |b| && Percentile(a, num, den) == Percentile(b, num, den)
  {
    assert |multiset(a)| == |a| && |multiset(b)| == |b|;
    PercentileIsNearestRank(a, num, den);
    PercentileIsNearestRank(b, num, den);
    var k, ra, rb := Rank(|a|, num, den), Percentile(a, num, den), Percentile(b, num, den);
    CountPermuted(a, b, rb, false);
    CountPermuted(a, b, rb, true);
    assert rb in multiset(a);
    hide Percentile;
    NearestRankMonotone(a, a, k, ra, rb);
    NearestRankMonotone(a, a, k, rb, ra);
  }

  // ----- The summary of benchmark rows -----

  /** The required fields of a row. */
  datatype Row = Row(
    modelId: string, promptSet: string, concurrency: real, maxTokens: real, ttftMs: real, e2eLatencyMs: real,
    genTps: real, requestsPerS: real, metalActiveGb: real, metalPeakGb: real, metalCacheGb: real, cacheHits: real,
    cacheMisses: real, cacheHitRate: real, tokensSaved: real, validated: bool)

  datatype Field = Concurrency | MaxTokens | TtftMs | E2eLatencyMs | GenTps | RequestsPerS | MetalActiveGb
                 | MetalPeakGb | MetalCacheGb | CacheHits | CacheMisses | CacheHitRate | TokensSaved

  function Cell(row: Row, field: Field): real {
    match field
    case Concurrency => row.concurrency
    case MaxTokens => row.maxTokens
    case TtftMs => row.ttftMs
    case E2eLatencyMs => row.e2eLatencyMs
    case GenTps => row.genTps
    case RequestsPerS => row.requestsPerS
    case MetalActiveGb => row.metalActiveGb
    case MetalPeakGb => row.metalPeakGb
    case MetalCacheGb => row.metalCacheGb
    case CacheHits => row.cacheHits
    case CacheMisses => row.cacheMisses
    case CacheHitRate => row.cacheHitRate
    case TokensSaved => row.tokensSaved
  }

  datatype Name = ModelId | PromptSet

  function NameOf(row: Row, name: Name): string {
    if name.ModelId? then row.modelId else row.promptSet
  }

  function Values(rows: seq<Row>, field: Field): (values: seq<real>)
    ensures |values| == |rows|
    ensures forall i :: 0 <= i < |rows| ==> values[i] == Cell(rows[i], field)
  {
    seq(|rows|, i requires 0 <= i < |rows| => Cell(rows[i], field))
  }

  function Sum(values: seq<real>): real {
    if values == [] then 0.0 else Sum(values[..|values| - 1]) + values[|values| - 1]
  }

  function Average(values: seq<real>): real
    requires values != []
  {
    Sum(values) / |values| as real
  }

  function Largest(values: seq<real>): (m: real)
    requires values != []
    ensures m in values && forall i :: 0 <= i < |values| ==> values[i] <= m
  {
    var last := values[|values| - 1];
    if |values| == 1 then last
    else
      var m := Largest(values[..|values| - 1]);
      if m < last then last else m
  }

  /** Drops repetitions from a sorted list. */
  function Dedupe(s: seq<real>): seq<real> {
    if |s| <= 1 then s
    else if s[0] == s[1] then Dedupe(s[1..])
    else [s[0]] + Dedupe(s[1..])
  }

  /** `sorted({v for v in values})` */
  function SortedUnique(values: seq<real>): seq<real> {
    Dedupe(Sort(values))
  }

  function InsertName(s: seq<string>, x: string): seq<string> {
    if s == [] || Before(x, s[0]) then [x] + s
    else if x == s[0] then s
    else [s[0]] + InsertName(s[1..], x)
  }

  /** `sorted({name(row) for row in rows})` */
  function SortedNames(rows: seq<Row>, name: Name): seq<string> {
    if rows == [] then []
    else InsertName(SortedNames(rows[..|rows| - 1], name), NameOf(rows[|rows| - 1], name))
  }

  function ValidatedCount(rows: seq<Row>): nat {
    if rows == [] then 0
    else ValidatedCount(rows[..|rows| - 1]) + if rows[|rows| - 1].validated then 1 else 0
  }

  datatype Latency = Latency(ttftAvg: real, e2eAvg: real, e2eP95: real, e2eMax: real)

  datatype Throughput = Throughput(genTpsAvg: real, requestsPerSAvg: real)

  datatype MetalMemory = MetalMemory(activeMax: real, peakMax: real, cacheMax: real)

  datatype Cache = Cache(hitsTotal: real, missesTotal: real, hitRateAvg: real, tokensSavedTotal: real)

  datatype Summary = Summary(
    runCount: nat, validatedCount: nat, allValidated: bool, models: seq<string>, promptSets: seq<string>,
    concurrencyLevels: seq<real>, maxTokens: seq<real>, latencyMs: Latency, throughput: Throughput,
    metalMemoryGb: MetalMemory, cache: Cache)

  function LatencyOf(rows: seq<Row>): Latency
    requires rows != []
  {
    var e2e := Values(rows, E2eLatencyMs);
    Latency(Average(Values(rows, TtftMs)), Average(e2e), Percentile(e2e, 95, 100), Largest(e2e))
  }

  function ThroughputOf(rows: seq<Row>): Throughput
    requires rows != []
  {
    Throughput(Average(Values(rows, GenTps)), Average(Values(rows, RequestsPerS)))
  }

  function MetalMemoryOf(rows: seq<Row>): MetalMemory
    requires rows != []
  {
    MetalMemory(Largest(Values(rows, MetalActiveGb)), Largest(Values(rows, MetalPeakGb)),
                Largest(Values(rows, MetalCacheGb)))
  }

  function CacheOf(rows: seq<Row>): Cache
    requires rows != []
  {
    Cache(Sum(Values(rows, CacheHits)), Sum(Values(rows, CacheMisses)), Average(Values(rows, CacheHitRate)),
          Sum(Values(rows, TokensSaved)))
  }

  /** No rows make no summary: the program raises. */
  function BuildSummary(rows: seq<Row>): Option<Summary> {
    if rows == [] then None
    else
      Some(Summary(
        |rows|, ValidatedCount(rows), ValidatedCount(rows) == |rows|,
        SortedNames(rows, ModelId), SortedNames(rows, PromptSet),
        SortedUnique(Values(rows, Concurrency)), SortedUnique(Values(rows, MaxTokens)),
        LatencyOf(rows), ThroughputOf(rows), MetalMemoryOf(rows), CacheOf(rows)))
  }

  // ----- Lists of names -----

  ghost predicate NamesIncrease(s: seq<string>) {
    forall i, j :: 0 <= i < j < |s| ==> Before(s[i], s[j])
  }

  ghost predicate NamesAfter(s: seq<string>, low: string) {
    forall x :: x in s ==> Before(low, x)
  }

  lemma {:induction false} InsertNameElements(s: seq<string>, x: string, y: string)
    ensures y in InsertName(s, x) <==> y == x || y in s
  {
    if s != [] && !Before(x, s[0]) && x != s[0] {
      InsertNameElements(s[1..], x, y);
      assert y in s <==> y == s[0] || y in s[1..];
    }
  }

  lemma NamesCons(x: string, s: seq<string>)
    requires NamesIncrease(s) && NamesAfter(s, x)
    ensures NamesIncrease([x] + s)
  {
    hide Before;
  }

  lemma {:induction false} InsertNameIncreases(s: seq<string>, x: string)
    requires NamesIncrease(s)
    ensures NamesIncrease(InsertName(s, x))
  {
    hide Before;
    if s == [] {
      assert InsertName(s, x) == [x];
    } else if Before(x, s[0]) {
      forall y | y in s
        ensures Before(x, y)
      {
        if y != s[0] {
          BeforeTransitive(x, s[0], y);
        }
      }
      NamesCons(x, s);
    } else if x != s[0] {
      BeforeTotal(x, s[0]);
      InsertNameIncreases(s[1..], x);
      forall y | y in InsertName(s[1..], x)
        ensures Before(s[0], y)
      {
        InsertNameElements(s[1..], x, y);
      }
      NamesCons(s[0], InsertName(s[1..], x));
    }
  }

  ghost predicate HasRowNamed(rows: seq<Row>, name: Name, y: string) {
    exists row :: row in rows && NameOf(row, name) == y
  }

  lemma HasRowNamedSnoc(rows: seq<Row>, last: Row, name: Name, y: string)
    ensures HasRowNamed(rows + [last], name, y) <==> HasRowNamed(rows, name, y) || NameOf(last, name) == y
  {
    if HasRowNamed(rows, name, y) {
      var row :| row in rows && NameOf(row, name) == y;
      assert row in rows + [last];
    }
    if NameOf(last, name) == y {
      assert last in rows + [last];
    }
  }

  /** The names of the rows are listed in increasing order, each exactly once. */
  lemma {:induction false} SortedNamesList(rows: seq<Row>, name: Name, y: string)
    ensures NamesIncrease(SortedNames(rows, name))
    ensures y in SortedNames(rows, name) <==> HasRowNamed(rows, name, y)
  {
    if rows != [] {
      hide HasRowNamed;
      hide NamesIncrease;
      var front, last := rows[..|rows| - 1], rows[|rows| - 1];
      assert rows == front + [last];
      SortedNamesList(front, name, y);
      InsertNameIncreases(SortedNames(front, name), NameOf(last, name));
      InsertNameElements(SortedNames(front, name), NameOf(last, name), y);
      HasRowNamedSnoc(front, last, name, y);
    }
  }

  lemma {:induction false} NamesUnique(a: seq<string>, b: seq<string>)
    requires NamesIncrease(a) && NamesIncrease(b) && forall x :: x in a <==> x in b
    ensures a == b
  {
    hide Before;
    assert a != [] ==> a[0] in a;
    assert b != [] ==> b[0] in b;
    if a != [] && b != [] {
      assert a[0] in b && b[0] in a;
      BeforeTotal(a[0], b[0]);
      assert a[0] == b[0];
      forall x
        ensures x in a[1..] <==> x in b[1..]
      {
        HeadApart(a, x);
        HeadApart(b, x);
      }
      NamesUnique(a[1..], b[1..]);
      assert a == [a[0]] + a[1..] && b == [b[0]] + b[1..];
    }
  }

  lemma HeadApart(s: seq<string>, x: string)
    requires s != [] && NamesIncrease(s)
    ensures x in s[1..] <==> x in s && x != s[0]
  {
    BeforeTotal(s[0], s[0]);
    hide Before;
  }

  lemma NamesPermuted(a: seq<Row>, b: seq<Row>, name: Name)
    requires multiset(a) == multiset(b)
    ensures SortedNames(a, name) == SortedNames(b, name)
  {
    hide NamesIncrease;
    forall row
      ensures row in a <==> row in b
    {
      assert row in a <==> row in multiset(a);
      assert row in b <==> row in multiset(b);
    }
    forall y
      ensures y in SortedNames(a, name) <==> y in SortedNames(b, name)
    {
      SortedNamesList(a, name, y);
      SortedNamesList(b, name, y);
    }
    SortedNamesList(a, name, "");
    SortedNamesList(b, name, "");
    NamesUnique(SortedNames(a, name), SortedNames(b, name));
  }

  // ----- The order of the rows -----

  lemma ValuesSplit(rows: seq<Row>, i: nat, field: Field)
    requires i < |rows|
    ensures multiset(Values(rows, field)) == multiset(Values(rows[..i] + rows[i + 1..], field))
      + multiset{Cell(rows[i], field)}
  {
    var v, rest := Values(rows, field), Values(rows[..i] + rows[i + 1..], field);
    assert v == v[..i] + [v[i]] + v[i + 1..];
    assert rest == v[..i] + v[i + 1..];
  }

  lemma {:induction false} ValuesPermuted(a: seq<Row>, b: seq<Row>, field: Field)
    requires multiset(a) == multiset(b)
    ensures multiset(Values(a, field)) == multiset(Values(b, field))
  {
    if a == [] {
      assert |multiset(b)| == |b|;
    } else {
      var i := TakeOut(a, b);
      ValuesPermuted(a[..|a| - 1], b[..i] + b[i + 1..], field);
      ValuesSplit(b, i, field);
      ValuesSplit(a, |a| - 1, field);
      assert a[..|a| - 1] + a[|a|..] == a[..|a| - 1];
    }
  }

  lemma {:induction false} SumConcat(a: seq<real>, b: seq<real>)
    ensures Sum(a + b) == Sum(a) + Sum(b)
  {
    if b == [] {
      assert a + b == a;
    } else {
      assert (a + b)[..|a + b| - 1] == a + b[..|b| - 1];
      SumConcat(a, b[..|b| - 1]);
    }
  }

  lemma {:induction false} SumPermuted(a: seq<real>, b: seq<real>)
    requires multiset(a) == multiset(b)
    ensures Sum(a) == Sum(b)
  {
    if a == [] {
      assert |multiset(b)| == |b|;
    } else {
      var i := TakeOut(a, b);
      SumPermuted(a[..|a| - 1], b[..i] + b[i + 1..]);
      SumConcat(b[..i], b[i + 1..]);
      SumConcat(b[..i] + [b[i]], b[i + 1..]);
      assert (b[..i] + [b[i]])[..i] == b[..i];
    }
  }

  lemma {:induction false} ValidatedConcat(a: seq<Row>, b: seq<Row>)
    ensures ValidatedCount(a + b) == ValidatedCount(a) + ValidatedCount(b)
  {
    if b == [] {
      assert a + b == a;
    } else {
      assert (a + b)[..|a + b| - 1] == a + b[..|b| - 1];
      ValidatedConcat(a, b[..|b| - 1]);
    }
  }

  lemma {:induction false} ValidatedPermuted(a: seq<Row>, b: seq<Row>)
    requires multiset(a) == multiset(b)
    ensures ValidatedCount(a) == ValidatedCount(b)
  {
    if a == [] {
      assert |multiset(b)| == |b|;
    } else {
      var i := TakeOut(a, b);
      ValidatedPermuted(a[..|a| - 1], b[..i] + b[i + 1..]);
      ValidatedConcat(b[..i], b[i + 1..]);
      ValidatedConcat(b[..i] + [b[i]], b[i + 1..]);
      assert (b[..i] + [b[i]])[..i] == b[..i];
    }
  }

  ghost predicate Increasing(s: seq<real>) {
    forall i, j :: 0 <= i < j < |s| ==> s[i] < s[j]
  }

  lemma {:induction false} DedupeIncreasing(s: seq<real>)
    requires Sorted(s)
    ensures Increasing(Dedupe(s)) && (forall x :: x in Dedupe(s) <==> x in s)
    ensures s != [] ==> Dedupe(s) != [] && Dedupe(s)[0] == s[0]
  {
    if |s| > 1 {
      DedupeIncreasing(s[1..]);
      assert s == [s[0]] + s[1..];
    }
  }

  /** The distinct values are listed in increasing order, each exactly once. */
  lemma SortedUniqueLists(values: seq<real>)
    ensures Increasing(SortedUnique(values)) && forall x :: x in SortedUnique(values) <==> x in values
  {
    SortSorts(values);
    DedupeIncreasing(Sort(values));
    assert forall x :: x in Sort(values) <==> x in multiset(Sort(values));
    assert forall x :: x in values <==> x in multiset(values);
  }

  lemma {:induction false} IncreasingUnique(a: seq<real>, b: seq<real>)
    requires Increasing(a) && Increasing(b) && forall x :: x in a <==> x in b
    ensures a == b
  {
    assert a != [] ==> a[0] in a;
    assert b != [] ==> b[0] in b;
    if a != [] && b != [] {
      assert a[0] in b && b[0] in a;
      assert a[0] == b[0];
      forall x
        ensures x in a[1..] <==> x in b[1..]
      {
        assert x in a[1..] <==> x in a && x != a[0];
        assert x in b[1..] <==> x in b && x != b[0];
      }
      IncreasingUnique(a[1..], b[1..]);
      assert a == [a[0]] + a[1..] && b == [b[0]] + b[1..];
    }
  }

  lemma LargestPermuted(a: seq<real>, b: seq<real>)
    requires a != [] && b != [] && multiset(a) == multiset(b)
    ensures Largest(a) == Largest(b)
  {
    assert Largest(a) in multiset(b) && Largest(b) in multiset(a);
  }

  lemma UniquePermuted(a: seq<real>, b: seq<real>)
    requires multiset(a) == multiset(b)
    ensures SortedUnique(a) == SortedUnique(b)
  {
    SortedUniqueLists(a);
    SortedUniqueLists(b);
    assert forall x :: x in a <==> x in multiset(a);
    assert forall x :: x in b <==> x in multiset(b);
    IncreasingUnique(SortedUnique(a), SortedUnique(b));
  }

  /** Everything the summary computes from one numeric field. */
  lemma FieldPermuted(a: seq<Row>, b: seq<Row>, field: Field)
    requires multiset(a) == multiset(b) && a != []
    ensures b != []
    ensures Sum(Values(a, field)) == Sum(Values(b, field)) && Average(Values(a, field)) == Average(Values(b, field))
    ensures Largest(Values(a, field)) == Largest(Values(b, field))
    ensures SortedUnique(Values(a, field)) == SortedUnique(Values(b, field))
    ensures Percentile(Values(a, field), 95, 100) == Percentile(Values(b, field), 95, 100)
  {
    assert |multiset(a)| == |a| && |multiset(b)| == |b|;
    hide Percentile;
    hide SortedUnique;
    hide Largest;
    ValuesPermuted(a, b, field);
    UniquePermuted(Values(a, field), Values(b, field));
    SumPermuted(Values(a, field), Values(b, field));
    PercentilePermuted(Values(a, field), Values(b, field), 95, 100);
    LargestPermuted(Values(a, field), Values(b, field));
  }

  /** The summary does not depend on the order of the rows. */
  lemma SummaryPermuted(a: seq<Row>, b: seq<Row>)
    requires multiset(a) == multiset(b)
    ensures BuildSummary(a) == BuildSummary(b)
  {
    assert |multiset(a)| == |a| && |multiset(b)| == |b|;
    if a != [] {
      hide Percentile;
      hide SortedUnique;
      hide SortedNames;
      hide Largest;
      hide Average;
      hide Sum;
      hide Values;
      ValidatedPermuted(a, b);
      NamesPermuted(a, b, ModelId);
      NamesPermuted(a, b, PromptSet);
      forall field: Field
        ensures Sum(Values(a, field)) == Sum(Values(b, field)) && Average(Values(a, field)) == Average(Values(b, field))
        ensures Largest(Values(a, field)) == Largest(Values(b, field))
        ensures SortedUnique(Values(a, field)) == SortedUnique(Values(b, field))
        ensures Percentile(Values(a, field), 95, 100) == Percentile(Values(b, field), 95, 100)
      {
        FieldPermuted(a, b, field);
      }
    }
  }

  /** Raising every row's latency never lowers the reported p95, which is at most the reported maximum. */
  lemma SlowerRowsSlowerP95(a: seq<Row>, b: seq<Row>)
    requires a != [] && PointwiseAtMost(Values(a, E2eLatencyMs), Values(b, E2eLatencyMs))
    ensures var slow := BuildSummary(b).value.latencyMs;
      BuildSummary(a).value.latencyMs.e2eP95 <= slow.e2eP95 <= slow.e2eMax
  {
    PercentileMonotone(Values(a, E2eLatencyMs), Values(b, E2eLatencyMs), 95, 100);
    PercentileIsNearestRank(Values(b, E2eLatencyMs), 95, 100);
  }

  // ----- What each column is -----

  lemma OneValue(x: real)
    ensures Sum([x]) == x && Average([x]) == x && Largest([x]) == x && SortedUnique([x]) == [x]
    ensures Percentile([x], 95, 100) == x
  {
    assert [x][..0] == [];
    assert Sort([]) == [];
    assert Sort([x]) == [x];
  }

  lemma OneName(row: Row, name: Name)
    ensures SortedNames([row], name) == [NameOf(row, name)]
  {
    assert [row][..0] == [];
    assert SortedNames([], name) == [];
  }

  lemma OneValidated(row: Row)
    ensures ValidatedCount([row]) == if row.validated then 1 else 0
  {
    assert [row][..0] == [];
  }

  lemma OneCell(row: Row, field: Field)
    ensures Values([row], field) == [Cell(row, field)]
  {}

  lemma OneColumn(row: Row, field: Field)
    ensures var values, x := Values([row], field), Cell(row, field);
      && Sum(values) == x && Average(values) == x && Largest(values) == x && SortedUnique(values) == [x]
      && Percentile(values, 95, 100) == x
  {
    OneCell(row, field);
    OneValue(Cell(row, field));
  }

  lemma LatencyOfOne(row: Row)
    ensures LatencyOf([row]) == Latency(row.ttftMs, row.e2eLatencyMs, row.e2eLatencyMs, row.e2eLatencyMs)
  {
    hide Values;
    hide Sum;
    hide Average;
    hide Largest;
    hide SortedUnique;
    hide Percentile;
    OneColumn(row, TtftMs);
    OneColumn(row, E2eLatencyMs);
  }

  lemma ThroughputOfOne(row: Row)
    ensures ThroughputOf([row]) == Throughput(row.genTps, row.requestsPerS)
  {
    hide Values;
    hide Sum;
    hide Average;
    hide Largest;
    hide SortedUnique;
    hide Percentile;
    OneColumn(row, GenTps);
    OneColumn(row, RequestsPerS);
  }

  lemma MetalMemoryOfOne(row: Row)
    ensures MetalMemoryOf([row]) == MetalMemory(row.metalActiveGb, row.metalPeakGb, row.metalCacheGb)
  {
    hide Values;
    hide Sum;
    hide Average;
    hide Largest;
    hide SortedUnique;
    hide Percentile;
    OneColumn(row, MetalActiveGb);
    OneColumn(row, MetalPeakGb);
    OneColumn(row, MetalCacheGb);
  }

  lemma CacheOfOne(row: Row)
    ensures CacheOf([row]) == Cache(row.cacheHits, row.cacheMisses, row.cacheHitRate, row.tokensSaved)
  {
    hide Values;
    hide Sum;
    hide Average;
    hide Largest;
    hide SortedUnique;
    hide Percentile;
    OneColumn(row, CacheHits);
    OneColumn(row, CacheMisses);
    OneColumn(row, CacheHitRate);
    OneColumn(row, TokensSaved);
  }

  /** The summary of one row repeats its fields, each in its own column. */
  lemma SummaryOfOne(row: Row)
    ensures BuildSummary([row]) == Some(Summary(
      1, if row.validated then 1 else 0, row.validated, [row.modelId], [row.promptSet], [row.concurrency],
      [row.maxTokens], Latency(row.ttftMs, row.e2eLatencyMs, row.e2eLatencyMs, row.e2eLatencyMs),
      Throughput(row.genTps, row.requestsPerS), MetalMemory(row.metalActiveGb, row.metalPeakGb, row.metalCacheGb),
      Cache(row.cacheHits, row.cacheMisses, row.cacheHitRate, row.tokensSaved)))
  {
    hide LatencyOf;
    hide ThroughputOf;
    hide MetalMemoryOf;
    hide CacheOf;
    hide Values;
    hide SortedUnique;
    hide SortedNames;
    hide ValidatedCount;
    hide Average;
    hide Sum;
    hide Largest;
    hide Percentile;
    OneName(row, ModelId);
    OneName(row, PromptSet);
    OneValidated(row);
    OneColumn(row, Concurrency);
    OneColumn(row, MaxTokens);
    LatencyOfOne(row);
    ThroughputOfOne(row);
    MetalMemoryOfOne(row);
    CacheOfOne(row);
  }

  /** An average over two lists together, weighted by their lengths. */
  ghost predicate Pools(whole: real, left: real, right: real, n: nat, m: nat) {
    whole * (n + m) as real == left * n as real + right * m as real
  }

  ghost predicate IsMax(whole: real, left: real, right: real) {
    whole == if left < right then right else left
  }

  ghost predicate Unites<T(!new)>(whole: seq<T>, left: seq<T>, right: seq<T>) {
    forall x :: x in whole <==> x in left || x in right
  }

  lemma AverageTimes(values: seq<real>)
    requires values != []
    ensures Average(values) * |values| as real == Sum(values)
  {}

  lemma JoinedValues(a: seq<Row>, b: seq<Row>, field: Field)
    ensures Values(a + b, field) == Values(a, field) + Values(b, field)
  {}

  lemma JoinedAverage(a: seq<real>, b: seq<real>)
    requires a != [] && b != []
    ensures Pools(Average(a + b), Average(a), Average(b), |a|, |b|)
  {
    SumConcat(a, b);
    AverageTimes(a);
    AverageTimes(b);
    AverageTimes(a + b);
    hide Average;
    hide Sum;
  }

  lemma JoinedLargest(a: seq<real>, b: seq<real>)
    requires a != [] && b != []
    ensures IsMax(Largest(a + b), Largest(a), Largest(b))
  {
    hide Largest;
    assert Largest(a + b) in a || Largest(a + b) in b;
    assert Largest(a) in a + b && Largest(b) in a + b;
  }

  lemma JoinedUnique(a: seq<real>, b: seq<real>)
    ensures Unites(SortedUnique(a + b), SortedUnique(a), SortedUnique(b))
  {
    hide SortedUnique;
    SortedUniqueLists(a);
    SortedUniqueLists(b);
    SortedUniqueLists(a + b);
    hide Increasing;
    forall x
      ensures x in SortedUnique(a + b) <==> x in SortedUnique(a) || x in SortedUnique(b)
    {
      assert x in SortedUnique(a + b) <==> x in a + b;
    }
  }

  lemma JoinedField(a: seq<Row>, b: seq<Row>, field: Field)
    requires a != [] && b != []
    ensures Sum(Values(a + b, field)) == Sum(Values(a, field)) + Sum(Values(b, field))
    ensures Pools(Average(Values(a + b, field)), Average(Values(a, field)), Average(Values(b, field)), |a|, |b|)
    ensures IsMax(Largest(Values(a + b, field)), Largest(Values(a, field)), Largest(Values(b, field)))
    ensures Unites(SortedUnique(Values(a + b, field)), SortedUnique(Values(a, field)), SortedUnique(Values(b, field)))
  {
    hide Values;
    hide Sum;
    hide Average;
    hide Largest;
    hide SortedUnique;
    hide Pools;
    hide IsMax;
    hide Unites;
    var va, vb := Values(a, field), Values(b, field);
    JoinedValues(a, b, field);
    SumConcat(va, vb);
    JoinedAverage(va, vb);
    JoinedLargest(va, vb);
    JoinedUnique(va, vb);
  }

  lemma JoinedNames(a: seq<Row>, b: seq<Row>, name: Name)
    ensures Unites(SortedNames(a + b, name), SortedNames(a, name), SortedNames(b, name))
  {
    forall y
      ensures y in SortedNames(a + b, name) <==> y in SortedNames(a, name) || y in SortedNames(b, name)
    {
      SortedNamesList(a + b, name, y);
      SortedNamesList(a, name, y);
      SortedNamesList(b, name, y);
      if HasRowNamed(a, name, y) {
        var row :| row in a && NameOf(row, name) == y;
        assert row in a + b;
      }
      if HasRowNamed(b, name, y) {
        var row :| row in b && NameOf(row, name) == y;
        assert row in a + b;
      }
    }
  }

  /** What joining two lists of rows makes of their summaries, column by column. */
  ghost predicate JoinedLists(s: Summary, x: Summary, y: Summary) {
    && s.runCount == x.runCount + y.runCount && s.validatedCount == x.validatedCount + y.validatedCount
    && (s.allValidated <==> x.allValidated && y.allValidated)
    && Unites(s.models, x.models, y.models) && Unites(s.promptSets, x.promptSets, y.promptSets)
    && Unites(s.concurrencyLevels, x.concurrencyLevels, y.concurrencyLevels)
    && Unites(s.maxTokens, x.maxTokens, y.maxTokens)
  }

  ghost predicate JoinedLatency(s: Latency, x: Latency, y: Latency, n: nat, m: nat) {
    Pools(s.ttftAvg, x.ttftAvg, y.ttftAvg, n, m) && Pools(s.e2eAvg, x.e2eAvg, y.e2eAvg, n, m)
    && IsMax(s.e2eMax, x.e2eMax, y.e2eMax)
  }

  ghost predicate JoinedThroughput(s: Throughput, x: Throughput, y: Throughput, n: nat, m: nat) {
    Pools(s.genTpsAvg, x.genTpsAvg, y.genTpsAvg, n, m)
    && Pools(s.requestsPerSAvg, x.requestsPerSAvg, y.requestsPerSAvg, n, m)
  }

  ghost predicate JoinedMetal(s: MetalMemory, x: MetalMemory, y: MetalMemory) {
    IsMax(s.activeMax, x.activeMax, y.activeMax) && IsMax(s.peakMax, x.peakMax, y.peakMax)
    && IsMax(s.cacheMax, x.cacheMax, y.cacheMax)
  }

  ghost predicate JoinedCache(s: Cache, x: Cache, y: Cache, n: nat, m: nat) {
    && s.hitsTotal == x.hitsTotal + y.hitsTotal && s.missesTotal == x.missesTotal + y.missesTotal
    && Pools(s.hitRateAvg, x.hitRateAvg, y.hitRateAvg, n, m)
    && s.tokensSavedTotal == x.tokensSavedTotal + y.tokensSavedTotal
  }

  lemma JoinLatency(a: seq<Row>, b: seq<Row>)
    requires a != [] && b != []
    ensures JoinedLatency(LatencyOf(a + b), LatencyOf(a), LatencyOf(b), |a|, |b|)
  {
    hide Values;
    hide Sum;
    hide Average;
    hide Largest;
    hide SortedUnique;
    hide Percentile;
    hide Pools;
    hide IsMax;
    hide Unites;
    JoinedField(a, b, TtftMs);
    JoinedField(a, b, E2eLatencyMs);
  }

  lemma JoinThroughput(a: seq<Row>, b: seq<Row>)
    requires a != [] && b != []
    ensures JoinedThroughput(ThroughputOf(a + b), ThroughputOf(a), ThroughputOf(b), |a|, |b|)
  {
    hide Values;
    hide Sum;
    hide Average;
    hide Largest;
    hide SortedUnique;
    hide Percentile;
    hide Pools;
    hide IsMax;
    hide Unites;
    JoinedField(a, b, GenTps);
    JoinedField(a, b, RequestsPerS);
  }

  lemma JoinMetal(a: seq<Row>, b: seq<Row>)
    requires a != [] && b != []
    ensures JoinedMetal(MetalMemoryOf(a + b), MetalMemoryOf(a), MetalMemoryOf(b))
  {
    hide Values;
    hide Sum;
    hide Average;
    hide Largest;
    hide SortedUnique;
    hide Percentile;
    hide Pools;
    hide IsMax;
    hide Unites;
    JoinedField(a, b, MetalActiveGb);
    JoinedField(a, b, MetalPeakGb);
    JoinedField(a, b, MetalCacheGb);
  }

  lemma JoinCache(a: seq<Row>, b: seq<Row>)
    requires a != [] && b != []
    ensures JoinedCache(CacheOf(a + b), CacheOf(a), CacheOf(b), |a|, |b|)
  {
    hide Values;
    hide Sum;
    hide Average;
    hide Largest;
    hide SortedUnique;
    hide Percentile;
    hide Pools;
    hide IsMax;
    hide Unites;
    JoinedField(a, b, CacheHits);
    JoinedField(a, b, CacheMisses);
    JoinedField(a, b, CacheHitRate);
    JoinedField(a, b, TokensSaved);
  }

  lemma {:induction false} ValidatedAtMost(rows: seq<Row>)
    ensures ValidatedCount(rows) <= |rows|
  {
    if rows != [] {
      ValidatedAtMost(rows[..|rows| - 1]);
    }
  }

  /** With the summary of one row this determines every column but the percentile: counts and totals add
      up, averages pool, maxima are maxima, and the lists unite. */
  lemma SummaryOfJoined(a: seq<Row>, b: seq<Row>)
    requires a != [] && b != []
    ensures var s, x, y := BuildSummary(a + b).value, BuildSummary(a).value, BuildSummary(b).value;
      && JoinedLists(s, x, y)
      && JoinedLatency(s.latencyMs, x.latencyMs, y.latencyMs, x.runCount, y.runCount)
      && JoinedThroughput(s.throughput, x.throughput, y.throughput, x.runCount, y.runCount)
      && JoinedMetal(s.metalMemoryGb, x.metalMemoryGb, y.metalMemoryGb)
      && JoinedCache(s.cache, x.cache, y.cache, x.runCount, y.runCount)
  {
    hide LatencyOf;
    hide ThroughputOf;
    hide MetalMemoryOf;
    hide CacheOf;
    hide Values;
    hide SortedUnique;
    hide SortedNames;
    hide ValidatedCount;
    hide JoinedLatency;
    hide JoinedThroughput;
    hide JoinedMetal;
    hide JoinedCache;
    hide Unites;
    ValidatedConcat(a, b);
    ValidatedAtMost(a);
    ValidatedAtMost(b);
    JoinedNames(a, b, ModelId);
    JoinedNames(a, b, PromptSet);
    JoinedField(a, b, Concurrency);
    JoinedField(a, b, MaxTokens);
    JoinLatency(a, b);
    JoinThroughput(a, b);
    JoinMetal(a, b);
    JoinCache(a, b);
  }

  /** The rows whose latency is at most `v`, or strictly below it. */
  ghost function RowsAtMost(rows: seq<Row>, v: real): nat {
    |set i: nat | i < |rows| && rows[i].e2eLatencyMs <= v|
  }

  ghost function RowsBelow(rows: seq<Row>, v: real): nat {
    |set i: nat | i < |rows| && rows[i].e2eLatencyMs < v|
  }

  lemma RowsSnoc(front: seq<Row>, last: Row, v: real)
    ensures RowsAtMost(front + [last], v) == RowsAtMost(front, v) + if last.e2eLatencyMs <= v then 1 else 0
    ensures RowsBelow(front + [last], v) == RowsBelow(front, v) + if last.e2eLatencyMs < v then 1 else 0
  {
    var all := front + [last];
    assert (set i: nat | i < |all| && all[i].e2eLatencyMs <= v)
        == (set i: nat | i < |front| && front[i].e2eLatencyMs <= v) + if last.e2eLatencyMs <= v then {|front|} else {};
    assert (set i: nat | i < |all| && all[i].e2eLatencyMs < v)
        == (set i: nat | i < |front| && front[i].e2eLatencyMs < v) + if last.e2eLatencyMs < v then {|front|} else {};
  }

  lemma {:induction false} RowsCounted(rows: seq<Row>, v: real)
    ensures Count(Values(rows, E2eLatencyMs), v, false) == RowsAtMost(rows, v)
    ensures Count(Values(rows, E2eLatencyMs), v, true) == RowsBelow(rows, v)
  {
    if rows == [] {
      NoRows(v);
    } else {
      hide RowsAtMost;
      hide RowsBelow;
      var front, last := rows[..|rows| - 1], rows[|rows| - 1];
      assert rows == front + [last];
      RowsSnoc(front, last, v);
      RowsCounted(front, v);
      assert Values(rows, E2eLatencyMs)[..|front|] == Values(front, E2eLatencyMs);
    }
  }

  lemma NoRows(v: real)
    ensures RowsAtMost([], v) == 0 && RowsBelow([], v) == 0
  {}

  /** The reported p95 is the latency of some row; at least 19 of 20 rows are at most as slow, and fewer
      than 19 of 20 are faster. */
  lemma P95Exactly(rows: seq<Row>)
    requires rows != []
    ensures var p := BuildSummary(rows).value.latencyMs.e2eP95;
      && (exists row :: row in rows && row.e2eLatencyMs == p)
      && 20 * RowsAtMost(rows, p) >= 19 * |rows| && 20 * RowsBelow(rows, p) < 19 * |rows|
  {
    hide RowsAtMost;
    hide RowsBelow;
    hide SortedNames;
    hide SortedUnique;
    hide ThroughputOf;
    hide MetalMemoryOf;
    hide CacheOf;
    hide Average;
    hide Largest;
    NearestLatency(rows);
    var values := Values(rows, E2eLatencyMs);
    var p := Percentile(values, 95, 100);
    hide Percentile;
    hide Rank;
    RowsCounted(rows, p);
    P95Rank(|rows|);
  }

  lemma NearestLatency(rows: seq<Row>)
    requires rows != []
    ensures var values := Values(rows, E2eLatencyMs);
      var p := Percentile(values, 95, 100);
      && (exists row :: row in rows && row.e2eLatencyMs == p)
      && Count(values, p, false) >= Rank(|rows|, 95, 100) && Count(values, p, true) < Rank(|rows|, 95, 100)
  {
    hide Count;
    hide Percentile;
    hide Rank;
    var values := Values(rows, E2eLatencyMs);
    PercentileIsNearestRank(values, 95, 100);
    var i :| 0 <= i < |values| && values[i] == Percentile(values, 95, 100);
    assert rows[i] in rows && rows[i].e2eLatencyMs == values[i];
  }

  lemma P95Rank(n: nat)
    requires n > 0
    ensures 20 * Rank(n, 95, 100) >= 19 * n && 20 * (Rank(n, 95, 100) - 1) < 19 * n
  {}
}
