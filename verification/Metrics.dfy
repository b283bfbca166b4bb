/** Request metrics: ring buffers of the latest durations, percentiles over them, and per-route statistics with a
    capped number of entries. */
module Metrics {
  const MAX_TRACKED_ROUTES := 300
  const MAX_LATENCY_SAMPLES := 5000
  const MAX_DB_SAMPLES := 2000

  // ------------------------------------------------------------------ ring buffers

  datatype Ring = Ring(samples: seq<real>, next: nat)

  function Push(r: Ring, cap: nat, x: real): Ring
    requires cap > 0
  {
    if |r.samples| < cap then r.(samples := r.samples + [x])
    else if r.next < |r.samples| then Ring(r.samples[r.next := x], (r.next + 1) % cap)
    else r
  }

  function RingOf(cap: nat, history: seq<real>): Ring
    requires cap > 0
  {
    if history == [] then Ring([], 0)
    else Push(RingOf(cap, history[..|history| - 1]), cap, history[|history| - 1])
  }

  /** The last cap elements, in arrival order. */
  function Window<T>(history: seq<T>, cap: nat): seq<T> {
    if |history| <= cap then history else history[|history| - cap..]
  }

  /** Read from next on and around, the buffer is w; it starts to turn only when full. */
  ghost predicate Rotated(r: Ring, cap: nat, w: seq<real>) {
    && r.next <= |r.samples| == |w| <= cap
    && r.next < cap
    && (|w| < cap ==> r.next == 0)
    && r.samples[r.next..] + r.samples[..r.next] == w
  }

  /** Recording appends, and drops the oldest sample when the buffer is full. */
  lemma PushRotates(r: Ring, cap: nat, w: seq<real>, x: real)
    requires Rotated(r, cap, w)
    ensures Rotated(Push(r, cap, x), cap, if |w| < cap then w + [x] else w[1..] + [x])
  {
    var r' := Push(r, cap, x);
    if |w| < cap {
      assert r'.samples == w + [x];
    } else {
      NextIndex(r.next, cap);
      var newer, older := r.samples[..r.next], r.samples[r.next..];
      assert r'.samples == newer + [x] + older[1..];
      if r.next + 1 == cap {
        assert older[1..] == [];
      } else {
        assert r'.samples[r'.next..] == older[1..] && r'.samples[..r'.next] == newer + [x];
      }
      assert (older + newer)[1..] == older[1..] + newer;
    }
  }

  lemma WindowSnoc(history: seq<real>, x: real, cap: nat)
    requires cap > 0
    ensures Window(history + [x], cap) ==
            if |Window(history, cap)| < cap then Window(history, cap) + [x] else Window(history, cap)[1..] + [x]
  {
  }

  /** The buffer is the window of the history, rotated once it is full. */
  lemma {:induction false} RingIsRotatedWindow(cap: nat, history: seq<real>)
    requires cap > 0
    ensures Rotated(RingOf(cap, history), cap, Window(history, cap))
  {
    if history != [] {
      var front, x := history[..|history| - 1], history[|history| - 1];
      RingIsRotatedWindow(cap, front);
      assert history == front + [x];
      WindowSnoc(front, x, cap);
      PushRotates(RingOf(cap, front), cap, Window(front, cap), x);
      assert RingOf(cap, history) == Push(RingOf(cap, front), cap, x);
    }
  }

  lemma NextIndex(i: nat, cap: nat)
    requires i < cap
    ensures (i + 1) % cap == if i + 1 == cap then 0 else i + 1
  {
  }

  // --------------------------------------------------------------------- statistics

  ghost predicate Ascending(s: seq<real>) {
    forall i, j :: 0 <= i < j < |s| ==> s[i] <= s[j]
  }

  function Insert(x: real, s: seq<real>): (r: seq<real>)
    ensures |r| == |s| + 1
  {
    if s == [] || x <= s[0] then [x] + s else [s[0]] + Insert(x, s[1..])
  }

  /** A sorted copy. */
  function Sort(s: seq<real>): (r: seq<real>)
    ensures |r| == |s|
  {
    if s == [] then [] else Insert(s[0], Sort(s[1..]))
  }

  lemma {:induction false} InsertSorts(x: real, s: seq<real>)
    requires Ascending(s)
    ensures Ascending(Insert(x, s))
    ensures Insert(x, s) != [] && (Insert(x, s)[0] == x || (s != [] && Insert(x, s)[0] == s[0]))
  {
    if s != [] && x > s[0] {
      AscendingTail(s);
      InsertSorts(x, s[1..]);
      AscendingCons(s[0], Insert(x, s[1..]));
    } else {
      AscendingCons(x, s);
    }
  }

  lemma {:induction false} InsertAdds(x: real, s: seq<real>)
    ensures multiset(Insert(x, s)) == multiset(s) + multiset{x}
  {
    if s != [] && x > s[0] {
      InsertAdds(x, s[1..]);
      assert s == [s[0]] + s[1..];
    }
  }

  lemma AscendingTail(s: seq<real>)
    requires Ascending(s) && s != []
    ensures Ascending(s[1..])
  {
  }

  lemma AscendingCons(x: real, s: seq<real>)
    requires Ascending(s) && (s != [] ==> x <= s[0])
    ensures Ascending([x] + s)
  {
  }

  /** Sorting gives an ascending permutation. */
  lemma {:induction false} SortSorts(s: seq<real>)
    ensures Ascending(Sort(s))
    ensures multiset(Sort(s)) == multiset(s)
  {
    if s != [] {
      SortSorts(s[1..]);
      InsertSorts(s[0], Sort(s[1..]));
      InsertAdds(s[0], Sort(s[1..]));
      assert s == [s[0]] + s[1..];
    }
  }

  lemma HeadIsLeast(s: seq<real>, x: real)
    requires Ascending(s) && x in multiset(s)
    ensures s != [] && s[0] <= x
  {
    var i :| 0 <= i < |s| && s[i] == x;
  }

  lemma TailMultiset(s: seq<real>)
    requires s != []
    ensures multiset(s[1..]) == multiset(s) - multiset{s[0]}
  {
    assert s == [s[0]] + s[1..];
  }

  lemma SameHead(a: seq<real>, b: seq<real>)
    requires Ascending(a) && Ascending(b) && multiset(a) == multiset(b) && a != []
    ensures b != [] && a[0] == b[0]
    ensures multiset(a[1..]) == multiset(b[1..])
  {
    assert a[0] in multiset(a);
    HeadIsLeast(b, a[0]);
    assert b[0] in multiset(b);
    HeadIsLeast(a, b[0]);
    TailMultiset(a);
    TailMultiset(b);
  }

  /** There is only one ascending arrangement. */
  lemma {:induction false} SortedUnique(a: seq<real>, b: seq<real>)
    requires Ascending(a) && Ascending(b) && multiset(a) == multiset(b)
    ensures a == b
    decreases |a|
  {
    if a == [] {
      assert |multiset(a)| == |multiset(b)|;
    } else {
      SameHead(a, b);
      AscendingTail(a);
      AscendingTail(b);
      SortedUnique(a[1..], b[1..]);
      assert a == [a[0]] + a[1..] && b == [b[0]] + b[1..];
    }
  }

  function Sum(s: seq<real>): real {
    if s == [] then 0.0 else Sum(s[..|s| - 1]) + s[|s| - 1]
  }

  datatype LatencyStats = LatencyStats(count: nat, min: real, max: real, avg: real, p50: real, p90: real, p99: real)

  function Hundredth(x: nat, count: nat): nat
    requires count > 0
  {
    if x / 100 < count then x / 100 else count - 1
  }

  /** p percent of count, rounded down, or the last index. */
  function PercentileIndex(p: nat, count: nat): nat
    requires count > 0
  {
    Hundredth(p * count, count)
  }

  function Percentile(samples: seq<real>, p: nat): real
    requires samples != []
  {
    SortSorts(samples);
    Sort(samples)[PercentileIndex(p, |samples|)]
  }

  /** round stands for rounding to two decimals. */
  function StatsOf(samples: seq<real>, round: real -> real): LatencyStats {
    if samples == [] then LatencyStats(0, 0.0, 0.0, 0.0, 0.0, 0.0, 0.0)
    else
      var sorted := Sort(samples);
      SortSorts(samples);
      LatencyStats(|samples|, round(sorted[0]), round(sorted[|sorted| - 1]), round(Sum(sorted) / |sorted| as real),
                   round(Percentile(samples, 50)), round(Percentile(samples, 90)), round(Percentile(samples, 99)))
  }

  /** Statistics see only which samples there are, not their order. */
  lemma StatsIgnoreOrder(a: seq<real>, b: seq<real>, round: real -> real)
    requires multiset(a) == multiset(b)
    ensures StatsOf(a, round) == StatsOf(b, round)
  {
    assert |multiset(a)| == |multiset(b)|;
    SortSorts(a);
    SortSorts(b);
    SortedUnique(Sort(a), Sort(b));
  }

  lemma RingMultiset(cap: nat, history: seq<real>)
    requires cap > 0
    ensures multiset(RingOf(cap, history).samples) == multiset(Window(history, cap))
  {
    RingIsRotatedWindow(cap, history);
    var r := RingOf(cap, history);
    assert r.samples == r.samples[..r.next] + r.samples[r.next..];
  }

  /** The statistics over the buffer are the statistics over the latest durations of the whole history. */
  lemma StatsOfHistory(cap: nat, history: seq<real>, round: real -> real)
    requires cap > 0
    ensures StatsOf(RingOf(cap, history).samples, round) == StatsOf(Window(history, cap), round)
  {
    RingMultiset(cap, history);
    StatsIgnoreOrder(RingOf(cap, history).samples, Window(history, cap), round);
  }

  ghost predicate Monotone(round: real -> real) {
    forall x: real, y: real :: x <= y ==> round(x) <= round(y)
  }

  lemma {:induction false} SumBetween(s: seq<real>, lo: real, hi: real)
    requires forall i :: 0 <= i < |s| ==> lo <= s[i] <= hi
    ensures lo * |s| as real <= Sum(s) <= hi * |s| as real
  {
    if s != [] {
      SumBetween(s[..|s| - 1], lo, hi);
      assert lo * |s| as real == lo * (|s| - 1) as real + lo;
      assert hi * |s| as real == hi * (|s| - 1) as real + hi;
    }
  }

  lemma Quotient(lo: real, hi: real, sum: real, n: real)
    requires n > 0.0 && lo * n <= sum <= hi * n
    ensures lo <= sum / n <= hi
  {
    var q := sum / n;
    assert q * n == sum;
    if q < lo {
      TimesKeepsOrder(q, lo, n);
    }
    if hi < q {
      TimesKeepsOrder(hi, q, n);
    }
  }

  lemma TimesKeepsOrder(a: real, b: real, n: real)
    requires a < b && n > 0.0
    ensures a * n < b * n
  {
  }

  lemma AverageBetween(s: seq<real>, lo: real, hi: real)
    requires s != [] && forall i :: 0 <= i < |s| ==> lo <= s[i] <= hi
    ensures lo <= Sum(s) / |s| as real <= hi
  {
    SumBetween(s, lo, hi);
    Quotient(lo, hi, Sum(s), |s| as real);
  }

  lemma ScaleKeepsOrder(p: nat, q: nat, n: nat)
    requires p <= q
    ensures p * n <= q * n
  {
  }

  lemma HundredthsInOrder(x: nat, y: nat, count: nat)
    requires count > 0 && x <= y
    ensures Hundredth(x, count) <= Hundredth(y, count) < count
  {
  }

  lemma IndexesInOrder(p: nat, q: nat, n: nat)
    requires n > 0 && p <= q
    ensures PercentileIndex(p, n) <= PercentileIndex(q, n) < n
  {
    ScaleKeepsOrder(p, q, n);
    HundredthsInOrder(p * n, q * n, n);
  }

  lemma AscendingAt(s: seq<real>, i: nat, j: nat)
    requires Ascending(s) && i <= j < |s|
    ensures s[0] <= s[i] <= s[j] <= s[|s| - 1]
  {
  }

  lemma PercentilesInOrder(samples: seq<real>, p: nat, q: nat)
    requires samples != [] && p <= q
    ensures Sort(samples) != [] && Sort(samples)[0] <= Percentile(samples, p) <= Percentile(samples, q)
    ensures Percentile(samples, q) <= Sort(samples)[|Sort(samples)| - 1]
  {
    SortSorts(samples);
    IndexesInOrder(p, q, |samples|);
    AscendingAt(Sort(samples), PercentileIndex(p, |samples|), PercentileIndex(q, |samples|));
  }

  /** Minimum, percentiles and maximum come out in order, and the average lies between the ends. */
  lemma StatsInOrder(samples: seq<real>, round: real -> real)
    requires samples != [] && Monotone(round)
    ensures var s := StatsOf(samples, round);
            s.min <= s.p50 <= s.p90 <= s.p99 <= s.max && s.min <= s.avg <= s.max
  {
    SortSorts(samples);
    PercentilesInOrder(samples, 50, 90);
    PercentilesInOrder(samples, 90, 99);
    forall i | 0 <= i < |samples| ensures Sort(samples)[0] <= Sort(samples)[i] <= Sort(samples)[|samples| - 1] {
      AscendingAt(Sort(samples), i, i);
    }
    AverageBetween(Sort(samples), Sort(samples)[0], Sort(samples)[|samples| - 1]);
  }

  /** How many samples lie strictly below v, or at most at v. */
  function CountBelow(s: seq<real>, v: real, strictly: bool): nat {
    if s == [] then 0
    else (if s[0] < v || (!strictly && s[0] == v) then 1 else 0) + CountBelow(s[1..], v, strictly)
  }

  lemma {:induction false} CountInsert(x: real, s: seq<real>, v: real, strictly: bool)
    requires Ascending(s)
    ensures CountBelow(Insert(x, s), v, strictly) == CountBelow([x], v, strictly) + CountBelow(s, v, strictly)
  {
    if s == [] || x <= s[0] {
      assert ([x] + s)[1..] == s;
    } else {
      CountInsert(x, s[1..], v, strictly);
      assert ([s[0]] + Insert(x, s[1..]))[1..] == Insert(x, s[1..]);
    }
  }

  lemma {:induction false} CountSort(s: seq<real>, v: real, strictly: bool)
    ensures CountBelow(Sort(s), v, strictly) == CountBelow(s, v, strictly)
  {
    if s != [] {
      CountSort(s[1..], v, strictly);
      SortSorts(s[1..]);
      CountInsert(s[0], Sort(s[1..]), v, strictly);
    }
  }

  lemma {:induction false} CountAscending(s: seq<real>, i: nat)
    requires Ascending(s) && i < |s|
    ensures CountBelow(s, s[i], true) <= i < CountBelow(s, s[i], false)
  {
    if i == 0 {
      NoneBelow(s, s[0]);
    } else {
      CountAscending(s[1..], i - 1);
    }
  }

  lemma {:induction false} NoneBelow(s: seq<real>, v: real)
    requires forall i :: 0 <= i < |s| ==> v <= s[i]
    ensures CountBelow(s, v, true) == 0
  {
    if s != [] {
      NoneBelow(s[1..], v);
    }
  }

  lemma HundredthIs(x: nat, count: nat)
    requires count > 0
    ensures 100 * Hundredth(x, count) <= x
    ensures Hundredth(x, count) == count - 1 || 100 * (Hundredth(x, count) + 1) > x
  {
  }

  lemma MaximumIsLast(samples: seq<real>)
    requires samples != []
    ensures Sort(samples) != [] && forall x :: x in samples ==> x <= Sort(samples)[|Sort(samples)| - 1]
  {
    SortSorts(samples);
    forall x | x in samples ensures x <= Sort(samples)[|Sort(samples)| - 1] {
      assert x in multiset(Sort(samples));
    }
  }

  lemma SampleCounted(samples: seq<real>, i: nat)
    requires i < |Sort(samples)|
    ensures var v := Sort(samples)[i];
            v in samples && CountBelow(samples, v, true) <= i < CountBelow(samples, v, false)
  {
    var sorted := Sort(samples);
    SortSorts(samples);
    CountAscending(sorted, i);
    CountSort(samples, sorted[i], true);
    CountSort(samples, sorted[i], false);
    assert sorted[i] in multiset(sorted);
  }

  /** A recorded sample with at most a hundredth of x samples strictly below it, and with more than that at or below it
      unless it is the maximum. */
  ghost predicate StandsAt(v: real, x: nat, samples: seq<real>) {
    && v in samples
    && 100 * CountBelow(samples, v, true) <= x
    && (100 * CountBelow(samples, v, false) > x || forall y :: y in samples ==> y <= v)
  }

  lemma HundredthMeaning(samples: seq<real>, x: nat)
    requires samples != []
    ensures Hundredth(x, |samples|) < |Sort(samples)|
    ensures StandsAt(Sort(samples)[Hundredth(x, |samples|)], x, samples)
  {
    SortSorts(samples);
    HundredthIs(x, |samples|);
    SampleCounted(samples, Hundredth(x, |samples|));
    MaximumIsLast(samples);
  }

  /** What the p-th percentile is, with no sorting: x is p percent of the count, times a hundred. */
  lemma PercentileMeaning(samples: seq<real>, p: nat)
    requires samples != []
    ensures StandsAt(Percentile(samples, p), p * |samples|, samples)
  {
    HundredthMeaning(samples, p * |samples|);
  }

  lemma {:induction false} SumCons(x: real, s: seq<real>)
    ensures Sum([x] + s) == x + Sum(s)
  {
    if s == [] {
      assert [x] + s == [x] && [x][..0] == [];
    } else {
      SumCons(x, s[..|s| - 1]);
      assert ([x] + s)[..|s|] == [x] + s[..|s| - 1];
    }
  }

  lemma {:induction false} SumInsert(x: real, s: seq<real>)
    ensures Sum(Insert(x, s)) == x + Sum(s)
  {
    if s == [] || x <= s[0] {
      SumCons(x, s);
    } else {
      SumInsert(x, s[1..]);
      SumCons(s[0], Insert(x, s[1..]));
      SumCons(s[0], s[1..]);
      assert s == [s[0]] + s[1..];
    }
  }

  lemma {:induction false} SumSort(s: seq<real>)
    ensures Sum(Sort(s)) == Sum(s)
  {
    if s != [] {
      SumSort(s[1..]);
      SumInsert(s[0], Sort(s[1..]));
      SumCons(s[0], s[1..]);
      assert s == [s[0]] + s[1..];
    }
  }

  ghost predicate Least(v: real, samples: seq<real>) {
    v in samples && forall x :: x in samples ==> v <= x
  }

  ghost predicate Greatest(v: real, samples: seq<real>) {
    v in samples && forall x :: x in samples ==> x <= v
  }

  /** What every figure says of the samples, with no sorting. */
  ghost predicate Summarizes(s: LatencyStats, samples: seq<real>, round: real -> real) {
    var n := |samples|;
    && s.count == n
    && (n == 0 ==> s.min == s.max == s.avg == s.p50 == s.p90 == s.p99 == 0.0)
    && (n > 0 ==>
          && (exists v :: Least(v, samples) && s.min == round(v))
          && (exists v :: Greatest(v, samples) && s.max == round(v))
          && s.avg == round(Sum(samples) / n as real)
          && (exists v :: StandsAt(v, 50 * n, samples) && s.p50 == round(v))
          && (exists v :: StandsAt(v, 90 * n, samples) && s.p90 == round(v))
          && (exists v :: StandsAt(v, 99 * n, samples) && s.p99 == round(v)))
  }

  lemma StatsSummarize(samples: seq<real>, round: real -> real)
    ensures Summarizes(StatsOf(samples, round), samples, round)
  {
    if samples != [] {
      var sorted := Sort(samples);
      SortSorts(samples);
      SumSort(samples);
      MaximumIsLast(samples);
      SampleCounted(samples, 0);
      SampleCounted(samples, |sorted| - 1);
      assert Greatest(sorted[|sorted| - 1], samples);
      forall x | x in samples ensures sorted[0] <= x {
        assert x in multiset(sorted);
        HeadIsLeast(sorted, x);
      }
      assert Least(sorted[0], samples);
      PercentileMeaning(samples, 50);
      PercentileMeaning(samples, 90);
      PercentileMeaning(samples, 99);
    }
  }

  // ------------------------------------------------------------------------- routes

  /** A request's upper-cased method, sanitized route and duration. */
  datatype Hit = Hit(verb: string, route: string, durationMs: real)

  datatype RouteStat = RouteStat(count: nat, totalDurationMs: real)

  type Routes = map<string, RouteStat>

  function RouteKey(h: Hit): string {
    h.verb + " " + h.route
  }

  function OtherKey(h: Hit): string {
    h.verb + " /OTHER"
  }

  function Bump(m: Routes, key: string, durationMs: real): Routes {
    var current := if key in m then m[key] else RouteStat(0, 0.0);
    m[key := RouteStat(current.count + 1, current.totalDurationMs + durationMs)]
  }

  /** The entry a request is counted under. */
  function Target(m: Routes, h: Hit): string {
    if RouteKey(h) in m || |m| < MAX_TRACKED_ROUTES then RouteKey(h) else OtherKey(h)
  }

  function RoutesOf(history: seq<Hit>): Routes {
    if history == [] then map[]
    else
      var before, h := RoutesOf(history[..|history| - 1]), history[|history| - 1];
      Bump(before, Target(before, h), h.durationMs)
  }

  /** Where a request belongs, judged by the final set of entries alone. */
  function Home(keys: set<string>, h: Hit): string {
    if RouteKey(h) in keys then RouteKey(h) else OtherKey(h)
  }

  /** Count and total duration of the requests that belong under key. */
  function Recount(keys: set<string>, history: seq<Hit>, key: string): RouteStat {
    if history == [] then RouteStat(0, 0.0)
    else
      var before, h := Recount(keys, history[..|history| - 1], key), history[|history| - 1];
      if Home(keys, h) == key then RouteStat(before.count + 1, before.totalDurationMs + h.durationMs) else before
  }

  /** HTTP methods are tokens. */
  ghost predicate Tokens(history: seq<Hit>) {
    forall h :: h in history ==> ' ' !in h.verb
  }

  lemma SameMethod(g: Hit, h: Hit)
    requires ' ' !in g.verb && ' ' !in h.verb && RouteKey(g) == OtherKey(h)
    ensures g.verb == h.verb
    ensures RouteKey(g) == OtherKey(g)
  {
    var key := RouteKey(g);
    assert key[|g.verb|] == ' ' && key[|h.verb|] == ' ';
    assert forall i :: 0 <= i < |g.verb| ==> key[i] == g.verb[i] && g.verb[i] != ' ';
    assert forall i :: 0 <= i < |h.verb| ==> key[i] == h.verb[i] && h.verb[i] != ' ';
    assert g.verb == key[..|g.verb|] == h.verb;
  }

  /** Every request has an entry of its own, or the map was full and its method's overflow entry exists. */
  lemma {:induction false} EveryHitHasHome(history: seq<Hit>)
    ensures forall h :: h in history ==>
              || RouteKey(h) in RoutesOf(history)
              || (OtherKey(h) in RoutesOf(history) && |RoutesOf(history)| >= MAX_TRACKED_ROUTES)
  {
    if history != [] {
      var front, h := history[..|history| - 1], history[|history| - 1];
      EveryHitHasHome(front);
      BumpGrows(RoutesOf(front), Target(RoutesOf(front), h), h.durationMs);
      assert forall g :: g in history ==> g in front || g == h;
    }
  }

  lemma BumpGrows(m: Routes, key: string, durationMs: real)
    ensures Bump(m, key, durationMs).Keys == m.Keys + {key}
    ensures |Bump(m, key, durationMs)| == |m| + if key in m then 0 else 1
  {
    var m' := Bump(m, key, durationMs);
    assert m'.Keys == m.Keys + {key};
    if key in m {
      assert m'.Keys == m.Keys;
    }
  }

  /** Adding a key that is nobody's home changes no recount of the others. */
  lemma {:induction false} RecountStable(keys: set<string>, keys': set<string>, history: seq<Hit>, key: string)
    requires forall h :: h in history ==> Home(keys', h) == Home(keys, h)
    ensures Recount(keys', history, key) == Recount(keys, history, key)
  {
    if history != [] {
      RecountStable(keys, keys', history[..|history| - 1], key);
    }
  }

  /** Counting as requests come, with the entries there happen to be at that moment, gives for every key what counting
      afterwards, with the final entries, gives: so every request with its own entry was counted there from the first
      one on, and every other under its method's overflow entry. */
  lemma {:induction false} IncrementalIsRecount(history: seq<Hit>)
    requires Tokens(history)
    ensures forall key :: Recount(RoutesOf(history).Keys, history, key) ==
                          if key in RoutesOf(history) then RoutesOf(history)[key] else RouteStat(0, 0.0)
  {
    if history != [] {
      var front, h := history[..|history| - 1], history[|history| - 1];
      var m, m' := RoutesOf(front), RoutesOf(history);
      var target := Target(m, h);
      IncrementalIsRecount(front);
      BumpGrows(m, target, h.durationMs);
      HomesStable(front, h);
      forall key ensures Recount(m'.Keys, history, key) == if key in m' then m'[key] else RouteStat(0, 0.0) {
        RecountStable(m.Keys, m'.Keys, front, key);
      }
    }
  }

  lemma HomesStable(front: seq<Hit>, h: Hit)
    requires Tokens(front + [h])
    ensures var keys' := RoutesOf(front).Keys + {Target(RoutesOf(front), h)};
            && Home(keys', h) == Target(RoutesOf(front), h)
            && forall g :: g in front ==> Home(keys', g) == Home(RoutesOf(front).Keys, g)
  {
    var m := RoutesOf(front);
    var keys' := m.Keys + {Target(m, h)};
    EveryHitHasHome(front);
    forall g | g in front ensures Home(keys', g) == Home(m.Keys, g) {
      assert g in front + [h] && h in front + [h];
      if RouteKey(g) !in m && RouteKey(g) == Target(m, h) {
        SameMethod(g, h);
      }
    }
    assert h in front + [h];
  }

  /** No method's overflow key. */
  ghost predicate Ordinary(key: string) {
    forall verb: string :: key != verb + " /OTHER"
  }

  function CountOf(history: seq<Hit>, key: string): RouteStat {
    if history == [] then RouteStat(0, 0.0)
    else
      var before, h := CountOf(history[..|history| - 1], key), history[|history| - 1];
      if RouteKey(h) == key then RouteStat(before.count + 1, before.totalDurationMs + h.durationMs) else before
  }

  /** All or nothing, with no assumption on methods: an ordinary key's entry holds every request with that key; if it
      has none, the key never got an entry. */
  lemma {:induction false} AllOrNothing(history: seq<Hit>, key: string)
    requires Ordinary(key)
    ensures key in RoutesOf(history) ==> RoutesOf(history)[key] == CountOf(history, key)
    ensures key !in RoutesOf(history) && CountOf(history, key).count > 0 ==> |RoutesOf(history)| >= 300
    ensures CountOf(history, key).count == 0 ==> key !in RoutesOf(history) && CountOf(history, key) == RouteStat(0, 0.0)
  {
    if history != [] {
      var front, h := history[..|history| - 1], history[|history| - 1];
      AllOrNothing(front, key);
      BumpGrows(RoutesOf(front), Target(RoutesOf(front), h), h.durationMs);
      assert OtherKey(h) != key;
    }
  }

  // --------------------------------------------------------------- totals and bounds

  ghost function SumCounts(m: Routes, keys: set<string>): nat
    requires keys <= m.Keys
  {
    if keys == {} then 0
    else
      var k :| k in keys;
      m[k].count + SumCounts(m, keys - {k})
  }

  lemma {:induction false} SumCountsRemove(m: Routes, keys: set<string>, k: string)
    requires keys <= m.Keys && k in keys
    ensures SumCounts(m, keys) == m[k].count + SumCounts(m, keys - {k})
    decreases |keys|
  {
    var j :| j in keys && SumCounts(m, keys) == m[j].count + SumCounts(m, keys - {j});
    if j != k {
      SumCountsRemove(m, keys - {j}, k);
      SumCountsRemove(m, keys - {k}, j);
      assert keys - {j} - {k} == keys - {k} - {j};
    }
  }

  lemma {:induction false} SumCountsSame(m: Routes, m': Routes, keys: set<string>)
    requires keys <= m.Keys && keys <= m'.Keys
    requires forall k :: k in keys ==> m[k] == m'[k]
    ensures SumCounts(m, keys) == SumCounts(m', keys)
    decreases |keys|
  {
    if keys != {} {
      var k :| k in keys;
      SumCountsRemove(m, keys, k);
      SumCountsRemove(m', keys, k);
      SumCountsSame(m, m', keys - {k});
    }
  }

  lemma BumpedElsewhere(m: Routes, key: string, durationMs: real)
    ensures var m' := Bump(m, key, durationMs);
            && key in m' && m'.Keys - {key} == m.Keys - {key}
            && m'[key].count == (if key in m then m[key].count else 0) + 1
            && SumCounts(m', m'.Keys - {key}) == SumCounts(m, m.Keys - {key})
  {
    var m' := Bump(m, key, durationMs);
    BumpGrows(m, key, durationMs);
    assert m'.Keys - {key} == m.Keys - {key};
    SumCountsSame(m, m', m.Keys - {key});
  }

  lemma BumpAddsOne(m: Routes, key: string, durationMs: real)
    ensures SumCounts(Bump(m, key, durationMs), Bump(m, key, durationMs).Keys) == SumCounts(m, m.Keys) + 1
  {
    var m' := Bump(m, key, durationMs);
    BumpedElsewhere(m, key, durationMs);
    SumCountsRemove(m', m'.Keys, key);
    if key in m {
      SumCountsRemove(m, m.Keys, key);
    } else {
      assert m.Keys - {key} == m.Keys;
    }
  }

  /** No request is lost and none is counted twice. */
  lemma {:induction false} CountsSumToTotal(history: seq<Hit>)
    ensures SumCounts(RoutesOf(history), RoutesOf(history).Keys) == |history|
  {
    if history != [] {
      var front, h := history[..|history| - 1], history[|history| - 1];
      CountsSumToTotal(front);
      BumpAddsOne(RoutesOf(front), Target(RoutesOf(front), h), h.durationMs);
    }
  }

  function Methods(history: seq<Hit>): set<string> {
    set h | h in history :: h.verb
  }

  function OtherKeys(methods: set<string>): set<string> {
    set m | m in methods :: m + " /OTHER"
  }

  lemma {:induction false} OtherKeysSize(methods: set<string>)
    ensures |OtherKeys(methods)| <= |methods|
    decreases |methods|
  {
    if methods != {} {
      var m :| m in methods;
      OtherKeysSize(methods - {m});
      assert OtherKeys(methods) == OtherKeys(methods - {m}) + {m + " /OTHER"};
    }
  }

  /** The map never holds more than 300 entries plus one per distinct method. */
  lemma {:induction false} RoutesBounded(history: seq<Hit>)
    ensures |RoutesOf(history).Keys - OtherKeys(Methods(history))| <= 300
    ensures |RoutesOf(history)| <= 300 + |Methods(history)|
  {
    var others := OtherKeys(Methods(history));
    if history == [] {
      assert RoutesOf(history).Keys - others == {};
    } else {
      var front, h := history[..|history| - 1], history[|history| - 1];
      RoutesBounded(front);
      var m, m' := RoutesOf(front), RoutesOf(history);
      var target := Target(m, h);
      BumpGrows(m, target, h.durationMs);
      assert forall g :: g in history <==> g in front || g == h;
      assert Methods(history) == Methods(front) + {h.verb};
      assert OtherKey(h) in others;
      assert OtherKeys(Methods(front)) <= others;
      if |m| < MAX_TRACKED_ROUTES {
        Subset(m'.Keys - others, m'.Keys);
      } else {
        assert target in m || target in others;
        assert m'.Keys - others <= m.Keys - OtherKeys(Methods(front));
        Subset(m'.Keys - others, m.Keys - OtherKeys(Methods(front)));
      }
    }
    var keys := RoutesOf(history).Keys;
    OtherKeysSize(Methods(history));
    assert keys <= (keys - others) + others;
    Subset(keys, (keys - others) + others);
  }

  lemma Subset(a: set<string>, b: set<string>)
    requires a <= b
    ensures |a| <= |b|
  {
    assert b == a + (b - a);
  }

  // -------------------------------------------------------------------- the service

  /** A recorded request, a recorded query. */
  datatype Request = Request(hit: Hit, status: int)

  datatype Query = Query(durationMs: real, slow: bool)

  datatype StatusCodes = StatusCodes(c2xx: nat, c3xx: nat, c4xx: nat, c5xx: nat)

  function Hits(log: seq<Request>): (hits: seq<Hit>)
    ensures |hits| == |log|
  {
    seq(|log|, i requires 0 <= i < |log| => log[i].hit)
  }

  function Durations(log: seq<Request>): (ds: seq<real>)
    ensures |ds| == |log|
  {
    seq(|log|, i requires 0 <= i < |log| => log[i].hit.durationMs)
  }

  function QueryDurations(log: seq<Query>): (ds: seq<real>)
    ensures |ds| == |log|
  {
    seq(|log|, i requires 0 <= i < |log| => log[i].durationMs)
  }

  function SlowCount(log: seq<Query>): nat {
    if log == [] then 0 else SlowCount(log[..|log| - 1]) + if log[|log| - 1].slow then 1 else 0
  }

  /** How many requests had a status from lo up to but not including hi. */
  function StatusCount(log: seq<Request>, lo: int, hi: int): nat {
    if log == [] then 0
    else StatusCount(log[..|log| - 1], lo, hi) + if lo <= log[|log| - 1].status < hi then 1 else 0
  }

  /** The counters after a log. Every status from 500 on is a 5xx; none below 200 is counted. */
  ghost predicate CountsStatuses(c: StatusCodes, log: seq<Request>) {
    && c.c2xx == StatusCount(log, 200, 300)
    && c.c3xx == StatusCount(log, 300, 400)
    && c.c4xx == StatusCount(log, 400, 500)
    && forall top :: (forall r :: r in log ==> r.status < top) ==> c.c5xx == StatusCount(log, 500, top)
  }

  function CountStatus(c: StatusCodes, status: int): StatusCodes {
    if 200 <= status < 300 then c.(c2xx := c.c2xx + 1)
    else if 300 <= status < 400 then c.(c3xx := c.c3xx + 1)
    else if 400 <= status < 500 then c.(c4xx := c.c4xx + 1)
    else if status >= 500 then c.(c5xx := c.c5xx + 1)
    else c
  }

  lemma CountStatusCounts(c: StatusCodes, log: seq<Request>, r: Request)
    requires CountsStatuses(c, log)
    ensures CountsStatuses(CountStatus(c, r.status), log + [r])
  {
    assert (log + [r])[..|log|] == log;
    forall top | forall q :: q in log + [r] ==> q.status < top
      ensures CountStatus(c, r.status).c5xx == StatusCount(log + [r], 500, top)
    {
      assert forall q :: q in log ==> q in log + [r];
      assert r in log + [r];
    }
  }

  /** What the request counters and buffers hold after a log. */
  ghost predicate HoldsRequests(total: nat, codes: StatusCodes, routes: Routes, buffer: Ring, log: seq<Request>) {
    && total == |log|
    && CountsStatuses(codes, log)
    && routes == RoutesOf(Hits(log))
    && buffer == RingOf(MAX_LATENCY_SAMPLES, Durations(log))
  }

  ghost predicate HoldsQueries(total: nat, slow: nat, buffer: Ring, log: seq<Query>) {
    && total == |log|
    && slow == SlowCount(log)
    && buffer == RingOf(MAX_DB_SAMPLES, QueryDurations(log))
  }

  lemma RequestHeld(total: nat, codes: StatusCodes, routes: Routes, buffer: Ring, log: seq<Request>, r: Request)
    requires HoldsRequests(total, codes, routes, buffer, log)
    ensures HoldsRequests(total + 1, CountStatus(codes, r.status),
                          Bump(routes, Target(routes, r.hit), r.hit.durationMs),
                          Push(buffer, MAX_LATENCY_SAMPLES, r.hit.durationMs), log + [r])
    ensures |buffer.samples| < MAX_LATENCY_SAMPLES || buffer.next < |buffer.samples| == MAX_LATENCY_SAMPLES
  {
    CountStatusCounts(codes, log, r);
    RoutesSnoc(log, r);
    RingSnoc(MAX_LATENCY_SAMPLES, Durations(log), r.hit.durationMs);
    assert Durations(log + [r]) == Durations(log) + [r.hit.durationMs];
  }

  lemma RoutesSnoc(log: seq<Request>, r: Request)
    ensures RoutesOf(Hits(log + [r])) == Bump(RoutesOf(Hits(log)), Target(RoutesOf(Hits(log)), r.hit), r.hit.durationMs)
  {
    assert Hits(log + [r])[..|log|] == Hits(log);
  }

  lemma RingSnoc(cap: nat, history: seq<real>, x: real)
    requires cap > 0
    ensures RingOf(cap, history + [x]) == Push(RingOf(cap, history), cap, x)
    ensures var r := RingOf(cap, history); |r.samples| < cap || r.next < |r.samples| == cap
  {
    RingIsRotatedWindow(cap, history);
    assert (history + [x])[..|history|] == history;
  }

  lemma QueryHeld(total: nat, slow: nat, buffer: Ring, log: seq<Query>, q: Query)
    requires HoldsQueries(total, slow, buffer, log)
    ensures HoldsQueries(total + 1, slow + if q.slow then 1 else 0,
                         Push(buffer, MAX_DB_SAMPLES, q.durationMs), log + [q])
    ensures |buffer.samples| < MAX_DB_SAMPLES || buffer.next < |buffer.samples| == MAX_DB_SAMPLES
  {
    RingSnoc(MAX_DB_SAMPLES, QueryDurations(log), q.durationMs);
    assert QueryDurations(log + [q]) == QueryDurations(log) + [q.durationMs];
    assert (log + [q])[..|log|] == log;
  }

  class MetricsService {
    var totalRequests: nat
    var statusCodes: StatusCodes
    var routeStats: Routes
    var httpDurations: seq<real>
    var httpIndex: nat
    var totalDbQueries: nat
    var slowDbQueries: nat
    var dbDurations: seq<real>
    var dbIndex: nat
    const upper: string -> string
    const sanitize: string -> string
    const round: real -> real

    // Everything recorded since the last reset.
    ghost var requests: seq<Request>
    ghost var queries: seq<Query>

    ghost predicate ValidRequests()
      reads this`totalRequests, this`statusCodes, this`routeStats, this`httpDurations, this`httpIndex, this`requests
    {
      HoldsRequests(totalRequests, statusCodes, routeStats, Ring(httpDurations, httpIndex), requests)
    }

    ghost predicate ValidQueries()
      reads this`totalDbQueries, this`slowDbQueries, this`dbDurations, this`dbIndex, this`queries
    {
      HoldsQueries(totalDbQueries, slowDbQueries, Ring(dbDurations, dbIndex), queries)
    }

    constructor (upper: string -> string, sanitize: string -> string, round: real -> real)
      ensures ValidRequests() && ValidQueries() && requests == [] && queries == []
      ensures this.upper == upper && this.sanitize == sanitize && this.round == round
    {
      totalRequests, statusCodes, routeStats := 0, StatusCodes(0, 0, 0, 0), map[];
      httpDurations, httpIndex := [], 0;
      totalDbQueries, slowDbQueries := 0, 0;
      dbDurations, dbIndex := [], 0;
      this.upper, this.sanitize, this.round := upper, sanitize, round;
      requests, queries := [], [];
    }

    method CountStatusClass(statusCode: int)
      modifies this`statusCodes
      ensures statusCodes == CountStatus(old(statusCodes), statusCode)
    {
      if statusCode >= 200 && statusCode < 300 {
        statusCodes := statusCodes.(c2xx := statusCodes.c2xx + 1);
      } else if statusCode >= 300 && statusCode < 400 {
        statusCodes := statusCodes.(c3xx := statusCodes.c3xx + 1);
      } else if statusCode >= 400 && statusCode < 500 {
        statusCodes := statusCodes.(c4xx := statusCodes.c4xx + 1);
      } else if statusCode >= 500 {
        statusCodes := statusCodes.(c5xx := statusCodes.c5xx + 1);
      }
    }

    /** Append while there is room, else overwrite the oldest sample. */
    method PushHttpSample(durationMs: real)
      requires |httpDurations| < MAX_LATENCY_SAMPLES || httpIndex < |httpDurations| == MAX_LATENCY_SAMPLES
      modifies this`httpDurations, this`httpIndex
      ensures Ring(httpDurations, httpIndex) ==
              Push(Ring(old(httpDurations), old(httpIndex)), MAX_LATENCY_SAMPLES, durationMs)
    {
      if |httpDurations| < MAX_LATENCY_SAMPLES {
        httpDurations := httpDurations + [durationMs];
      } else {
        httpDurations := httpDurations[httpIndex := durationMs];
        httpIndex := (httpIndex + 1) % MAX_LATENCY_SAMPLES;
      }
    }

    /** Count under the route's own key while there is room, else under the method's overflow key. */
    method TrackRoute(verb: string, cleanRoute: string, durationMs: real)
      modifies this`routeStats
      ensures var h := Hit(verb, cleanRoute, durationMs);
              routeStats == Bump(old(routeStats), Target(old(routeStats), h), durationMs)
    {
      var routeKey := verb + " " + cleanRoute;
      if routeKey in routeStats || |routeStats| < MAX_TRACKED_ROUTES {
        var current := if routeKey in routeStats then routeStats[routeKey] else RouteStat(0, 0.0);
        routeStats := routeStats[routeKey := RouteStat(current.count + 1, current.totalDurationMs + durationMs)];
      } else {
        var otherKey := verb + " /OTHER";
        var current := if otherKey in routeStats then routeStats[otherKey] else RouteStat(0, 0.0);
        routeStats := routeStats[otherKey := RouteStat(current.count + 1, current.totalDurationMs + durationMs)];
      }
    }

    method RecordHttpRequest(verb: string, route: string, statusCode: int, durationMs: real)
      requires ValidRequests()
      modifies this`totalRequests, this`statusCodes, this`routeStats, this`httpDurations, this`httpIndex, this`requests
      ensures ValidRequests()
      ensures requests == old(requests) + [Request(Hit(upper(verb), sanitize(route), durationMs), statusCode)]
    {
      ghost var r := Request(Hit(upper(verb), sanitize(route), durationMs), statusCode);
      RequestHeld(totalRequests, statusCodes, routeStats, Ring(httpDurations, httpIndex), requests, r);
      totalRequests := totalRequests + 1;
      CountStatusClass(statusCode);
      TrackRoute(upper(verb), sanitize(route), durationMs);
      PushHttpSample(durationMs);
      requests := requests + [r];
    }

    method RecordDbQuery(durationMs: real, isSlow: bool)
      requires ValidQueries()
      modifies this`totalDbQueries, this`slowDbQueries, this`dbDurations, this`dbIndex, this`queries
      ensures ValidQueries()
      ensures queries == old(queries) + [Query(durationMs, isSlow)]
    {
      QueryHeld(totalDbQueries, slowDbQueries, Ring(dbDurations, dbIndex), queries, Query(durationMs, isSlow));
      totalDbQueries := totalDbQueries + 1;
      if isSlow {
        slowDbQueries := slowDbQueries + 1;
      }
      if |dbDurations| < MAX_DB_SAMPLES {
        dbDurations := dbDurations + [durationMs];
      } else {
        dbDurations := dbDurations[dbIndex := durationMs];
        dbIndex := (dbIndex + 1) % MAX_DB_SAMPLES;
      }
      assert Ring(dbDurations, dbIndex) == Push(Ring(old(dbDurations), old(dbIndex)), MAX_DB_SAMPLES, durationMs);
      queries := queries + [Query(durationMs, isSlow)];
    }

    method ComputeStats(samples: seq<real>) returns (s: LatencyStats)
      ensures s == StatsOf(samples, round)
      ensures Summarizes(s, samples, round)
    {
      if |samples| == 0 {
        return LatencyStats(0, 0.0, 0.0, 0.0, 0.0, 0.0, 0.0);
      }
      var sorted := Sort(samples);
      SortSorts(samples);
      var count := |sorted|;
      var total := 0.0;
      for i := 0 to count
        invariant total == Sum(sorted[..i])
      {
        total := total + sorted[i];
        assert sorted[..i + 1][..i] == sorted[..i];
      }
      assert sorted[..count] == sorted;
      IndexesInOrder(50, 90, count);
      IndexesInOrder(90, 99, count);
      s := LatencyStats(
        count,
        round(sorted[0]),
        round(sorted[count - 1]),
        round(total / count as real),
        round(sorted[PercentileIndex(50, count)]),
        round(sorted[PercentileIndex(90, count)]),
        round(sorted[PercentileIndex(99, count)]));
      assert s == StatsOf(samples, round);
      StatsSummarize(samples, round);
    }

    /** The two latency blocks of the snapshot: statistics over the latest recorded durations, wherever in the
        buffers they lie. */
    method LatencySnapshot() returns (http: LatencyStats, db: LatencyStats)
      requires ValidRequests() && ValidQueries()
      ensures http == StatsOf(Window(Durations(requests), 5000), round)
      ensures db == StatsOf(Window(QueryDurations(queries), 2000), round)
      ensures Summarizes(http, Window(Durations(requests), 5000), round)
      ensures Summarizes(db, Window(QueryDurations(queries), 2000), round)
    {
      StatsSummarize(Window(Durations(requests), 5000), round);
      StatsSummarize(Window(QueryDurations(queries), 2000), round);
      http := ComputeStats(httpDurations);
      db := ComputeStats(dbDurations);
      StatsOfHistory(MAX_LATENCY_SAMPLES, Durations(requests), round);
      StatsOfHistory(MAX_DB_SAMPLES, QueryDurations(queries), round);
    }

    method Reset()
      modifies this
      ensures ValidRequests() && ValidQueries() && requests == [] && queries == []
    {
      totalRequests, statusCodes, routeStats := 0, StatusCodes(0, 0, 0, 0), map[];
      httpDurations, httpIndex := [], 0;
      totalDbQueries, slowDbQueries := 0, 0;
      dbDurations, dbIndex := [], 0;
      requests, queries := [], [];
    }
  }
}
