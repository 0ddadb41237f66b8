/**
  `calc_stats`: the dashboard statistics over a list of licences, built in a
  single pass that bumps dictionary counters, then sorts the per-month
  expiry counts and computes the SLA ratios.

  The source reads the clock twice: once in `calc_stats` (the `today`
  parameter) and once in `months_window` (the `windowDay` parameter of
  `CalcStats`, whose months are `Dates.MonthsWindow(windowDay, 12)`).
*/
module Stats {
  import opened Wrappers
  import opened Text
  import opened Dates
  import opened Licenses
  import Thresholds

  // ---------------------------------------------------------------------
  // Counter dictionaries
  // ---------------------------------------------------------------------

  /** `d[k] = d.get(k, 0) + 1`. */
  function Bump<K>(m: map<K, nat>, k: K): map<K, nat> {
    m[k := (if k in m then m[k] else 0) + 1]
  }

  /** The counter dictionary obtained by bumping every value of xs in turn. */
  function Tally<K>(xs: seq<K>): map<K, nat> {
    if xs == [] then map[] else Bump(Tally(xs[..|xs| - 1]), xs[|xs| - 1])
  }

  lemma TallySnoc<K>(xs: seq<K>, x: K)
    ensures Tally(xs + [x]) == Bump(Tally(xs), x)
  {
    assert (xs + [x])[..|xs|] == xs;
  }

  /**
    A counter dictionary holds exactly the values that occur, each with the
    number of times it occurs.
  */
  lemma {:induction false} TallyMeaning<K>(xs: seq<K>, k: K)
    ensures k in Tally(xs) <==> k in xs
    ensures k in Tally(xs) ==> Tally(xs)[k] == multiset(xs)[k]
  {
    if xs != [] {
      var n := |xs| - 1;
      TallyMeaning(xs[..n], k);
      assert xs == xs[..n] + [xs[n]];
      assert multiset(xs) == multiset(xs[..n]) + multiset{xs[n]};
    }
  }

  /** The sum of a dictionary's counts (`sum(d.values())`). */
  ghost function SumValues<K>(m: map<K, nat>): nat
    decreases |m.Keys|
  {
    if m == map[] then 0
    else
      var k :| k in m;
      m[k] + SumValues(m - {k})
  }

  lemma {:induction false} SumRemove<K>(m: map<K, nat>, k: K)
    requires k in m
    ensures SumValues(m) == m[k] + SumValues(m - {k})
    decreases |m.Keys|
  {
    var x :| x in m && SumValues(m) == m[x] + SumValues(m - {x});
    if x != k {
      assert (m - {x}).Keys == m.Keys - {x};
      assert (m - {k}).Keys == m.Keys - {k};
      SumRemove(m - {x}, k);
      SumRemove(m - {k}, x);
      assert m - {x} - {k} == m - {k} - {x};
    }
  }

  lemma SumBump<K>(m: map<K, nat>, k: K)
    ensures SumValues(Bump(m, k)) == SumValues(m) + 1
  {
    var r := Bump(m, k);
    SumRemove(r, k);
    assert r - {k} == m - {k};
    if k in m {
      SumRemove(m, k);
    } else {
      assert m - {k} == m;
    }
  }

  /** The counts of a counter dictionary add up to the number of values counted. */
  lemma {:induction false} TallySum<K>(xs: seq<K>)
    ensures SumValues(Tally(xs)) == |xs|
  {
    if xs == [] {
      assert Tally(xs) == map[];
    } else {
      TallySum(xs[..|xs| - 1]);
      SumBump(Tally(xs[..|xs| - 1]), xs[|xs| - 1]);
    }
  }

  // ---------------------------------------------------------------------
  // What is counted
  // ---------------------------------------------------------------------

  function Statuses(items: seq<License>): seq<Option<string>> {
    seq(|items|, k requires 0 <= k < |items| => items[k].status)
  }

  function Authorities(items: seq<License>): seq<string> {
    seq(|items|, k requires 0 <= k < |items| => items[k].authority)
  }

  function TypeKeys(items: seq<License>): seq<string> {
    seq(|items|, k requires 0 <= k < |items| => TypeKey(items[k].licenseType))
  }

  /** The month of every licence that has an expiry date. */
  function ExpiryMonths(items: seq<License>): seq<MonthKey> {
    if items == [] then []
    else
      var lic := items[|items| - 1];
      ExpiryMonths(items[..|items| - 1]) + (if lic.expiry.Some? then [MonthOf(lic.expiry.value)] else [])
  }

  /** The type keys of the licences expiring in month mo. */
  function TypesIn(items: seq<License>, mo: MonthKey): seq<string> {
    if items == [] then []
    else
      var lic := items[|items| - 1];
      TypesIn(items[..|items| - 1], mo)
        + (if lic.expiry.Some? && MonthOf(lic.expiry.value) == mo then [TypeKey(lic.licenseType)] else [])
  }

  /** The days of month of the licences expiring in month mo. */
  function DaysIn(items: seq<License>, mo: MonthKey): seq<int> {
    if items == [] then []
    else
      var lic := items[|items| - 1];
      DaysIn(items[..|items| - 1], mo)
        + (if lic.expiry.Some? && MonthOf(lic.expiry.value) == mo then [lic.expiry.value.day] else [])
  }

  /** The number of licences expiring strictly after the day with ordinal `bound`. */
  function CountAfter(items: seq<License>, bound: int): nat {
    if items == [] then 0
    else
      var lic := items[|items| - 1];
      CountAfter(items[..|items| - 1], bound)
        + (if lic.expiry.Some? && Ordinal(lic.expiry.value) > bound then 1 else 0)
  }

  predicate HasExpiry(items: seq<License>) {
    exists k :: 0 <= k < |items| && items[k].expiry.Some?
  }

  /** `by_type_per_month`: one type counter per window month, nothing for other months. */
  function TypesPerMonth(months: seq<MonthKey>, items: seq<License>): map<MonthKey, map<string, nat>> {
    map mo | mo in months :: Tally(TypesIn(items, mo))
  }

  /** `heatmap`: one day-of-month counter per window month, nothing for other months. */
  function DaysPerMonth(months: seq<MonthKey>, items: seq<License>): map<MonthKey, map<int, nat>> {
    map mo | mo in months :: Tally(DaysIn(items, mo))
  }

  // ---------------------------------------------------------------------
  // Sorting the per-month counts
  // ---------------------------------------------------------------------

  /** Months numbered consecutively, so that month order is integer order. */
  function MonthIndex(k: MonthKey): int {
    k.year * 12 + (k.month - 1)
  }

  function MonthAt(i: int): (k: MonthKey)
    ensures ValidMonth(k) && MonthIndex(k) == i
  {
    MonthKey(i / 12, i % 12 + 1)
  }

  lemma MonthIndexOrder(a: MonthKey, b: MonthKey)
    requires ValidMonth(a) && ValidMonth(b)
    ensures Earlier(a, b) <==> MonthIndex(a) < MonthIndex(b)
    ensures a == b <==> MonthIndex(a) == MonthIndex(b)
  {
  }

  function Indexes(keys: seq<MonthKey>): (r: seq<int>)
    ensures |r| == |keys|
    ensures forall i :: 0 <= i < |keys| ==> r[i] == MonthIndex(keys[i])
  {
    if keys == [] then [] else Indexes(keys[..|keys| - 1]) + [MonthIndex(keys[|keys| - 1])]
  }

  /** `sorted(keys)` for distinct month keys. */
  function SortMonths(keys: seq<MonthKey>): (r: seq<MonthKey>)
    ensures |r| == |Thresholds.SortedDistinct(Indexes(keys))|
  {
    var order := Thresholds.SortedDistinct(Indexes(keys));
    seq(|order|, i requires 0 <= i < |order| => MonthAt(order[i]))
  }

  /** `dict(sorted(d.items()))` for the month counter d, as its list of items. */
  function SortedCounts(keys: seq<MonthKey>, counts: map<MonthKey, nat>): seq<(MonthKey, nat)> {
    var sorted := SortMonths(keys);
    seq(|sorted|, i requires 0 <= i < |sorted| => (sorted[i], if sorted[i] in counts then counts[sorted[i]] else 0))
  }

  predicate MonthsAscending(pairs: seq<(MonthKey, nat)>) {
    forall i, j :: 0 <= i < j < |pairs| ==> Earlier(pairs[i].0, pairs[j].0)
  }

  /** The months of an ordered dictionary's items. */
  function MonthsOf(pairs: seq<(MonthKey, nat)>): (r: seq<MonthKey>)
    ensures |r| == |pairs|
    ensures forall i :: 0 <= i < |pairs| ==> r[i] == pairs[i].0
  {
    if pairs == [] then [] else MonthsOf(pairs[..|pairs| - 1]) + [pairs[|pairs| - 1].0]
  }

  lemma SortMonthsMeaning(keys: seq<MonthKey>)
    requires forall i :: 0 <= i < |keys| ==> ValidMonth(keys[i])
    ensures forall i, j :: 0 <= i < j < |SortMonths(keys)| ==> Earlier(SortMonths(keys)[i], SortMonths(keys)[j])
    ensures forall k :: ValidMonth(k) ==> (k in SortMonths(keys) <==> k in keys)
  {
    var ix := Indexes(keys);
    var order := Thresholds.SortedDistinct(ix);
    var r := SortMonths(keys);
    forall i, j | 0 <= i < j < |r| ensures Earlier(r[i], r[j]) {
      MonthIndexOrder(r[i], r[j]);
    }
    forall k | ValidMonth(k) ensures k in r <==> k in keys {
      if k in r {
        var i :| 0 <= i < |r| && r[i] == k;
        assert order[i] in ix;
        var m :| 0 <= m < |keys| && ix[m] == order[i];
        MonthIndexOrder(keys[m], k);
      }
      if k in keys {
        var m :| 0 <= m < |keys| && keys[m] == k;
        assert ix[m] in order;
        var i :| 0 <= i < |order| && order[i] == ix[m];
        MonthIndexOrder(r[i], k);
      }
    }
  }

  lemma SortMonthsSameSet(a: seq<MonthKey>, b: seq<MonthKey>)
    requires forall k :: k in a <==> k in b
    ensures SortMonths(a) == SortMonths(b)
  {
    var ia, ib := Indexes(a), Indexes(b);
    forall v ensures v in ia <==> v in ib {
      if v in ia {
        var m :| 0 <= m < |a| && ia[m] == v;
        assert a[m] in b;
        var m' :| 0 <= m' < |b| && b[m'] == a[m];
        assert ib[m'] == v;
      }
      if v in ib {
        var m :| 0 <= m < |b| && ib[m] == v;
        assert b[m] in a;
        var m' :| 0 <= m' < |a| && a[m'] == b[m];
        assert ia[m'] == v;
      }
    }
    Thresholds.AscendingUnique(Thresholds.SortedDistinct(ia), Thresholds.SortedDistinct(ib));
  }

  lemma SortedCountsSameSet(a: seq<MonthKey>, b: seq<MonthKey>, counts: map<MonthKey, nat>)
    requires forall k :: k in a <==> k in b
    ensures SortedCounts(a, counts) == SortedCounts(b, counts)
  {
    SortMonthsSameSet(a, b);
  }

  /**
    Sorting the per-month dictionary built in insertion order gives the
    sorted counts of all expiry months.
  */
  lemma SortedExpiries(items: seq<License>, order: seq<MonthKey>)
    requires forall k :: k in order <==> k in Tally(ExpiryMonths(items))
    ensures SortedCounts(order, Tally(ExpiryMonths(items)))
         == SortedCounts(ExpiryMonths(items), Tally(ExpiryMonths(items)))
  {
    forall k ensures k in order <==> k in ExpiryMonths(items) {
      TallyMeaning(ExpiryMonths(items), k);
    }
    SortedCountsSameSet(order, ExpiryMonths(items), Tally(ExpiryMonths(items)));
  }

  lemma SortedCountsMeaning(keys: seq<MonthKey>, counts: map<MonthKey, nat>)
    requires forall i :: 0 <= i < |keys| ==> ValidMonth(keys[i])
    ensures var pairs := SortedCounts(keys, counts);
      MonthsAscending(pairs)
      && (forall k :: ValidMonth(k) ==> (k in MonthsOf(pairs) <==> k in keys))
      && (forall i :: 0 <= i < |pairs| ==>
            (ValidMonth(pairs[i].0) && pairs[i].1 == if pairs[i].0 in counts then counts[pairs[i].0] else 0))
  {
    SortMonthsMeaning(keys);
    var pairs := SortedCounts(keys, counts);
    var sorted := SortMonths(keys);
    assert MonthsOf(pairs) == sorted;
  }

  /**
    `expiries_per_month` lists every month in which some licence expires,
    once, in ascending order, with the number of licences expiring in it.
  */
  lemma ExpiriesPerMonthMeaning(items: seq<License>)
    ensures var pairs := SortedCounts(ExpiryMonths(items), Tally(ExpiryMonths(items)));
      MonthsAscending(pairs)
      && (forall k :: ValidMonth(k) ==> (k in MonthsOf(pairs) <==> k in ExpiryMonths(items)))
      && (forall i :: 0 <= i < |pairs| ==> pairs[i].1 == multiset(ExpiryMonths(items))[pairs[i].0])
  {
    var xs := ExpiryMonths(items);
    ExpiryMonthsValid(items);
    SortedCountsMeaning(xs, Tally(xs));
    var pairs := SortedCounts(xs, Tally(xs));
    forall i | 0 <= i < |pairs| ensures pairs[i].1 == multiset(xs)[pairs[i].0] {
      assert pairs[i].0 in MonthsOf(pairs);
      TallyMeaning(xs, pairs[i].0);
    }
  }

  lemma {:induction false} ExpiryMonthsValid(items: seq<License>)
    ensures forall i :: 0 <= i < |ExpiryMonths(items)| ==> ValidMonth(ExpiryMonths(items)[i])
  {
    if items != [] {
      ExpiryMonthsValid(items[..|items| - 1]);
    }
  }

  // ---------------------------------------------------------------------
  // The statistics
  // ---------------------------------------------------------------------

  /** `data["sla"]`: percentages of licences expiring after 30 and 60 days. */
  datatype Sla = Sla(ok30Ratio: real, ok60Ratio: real, total: nat)

  /** The dictionary returned by `calc_stats`, one field per key. */
  datatype StatsData = StatsData(
    byStatus: map<Option<string>, nat>,
    byAuthority: map<string, nat>,
    byType: map<string, nat>,
    expiriesPerMonth: seq<(MonthKey, nat)>,
    byTypePerMonth: map<MonthKey, map<string, nat>>,
    heatmap: map<MonthKey, map<int, nat>>,
    sla: Sla,
    months: seq<MonthKey>)

  /** `(ok / total) * 100 if total else 0.0`, in exact arithmetic. */
  function Ratio(ok: nat, total: nat): real {
    if total == 0 then 0.0 else (ok as real / total as real) * 100.0
  }

  /**
    What `calc_stats(items)` returns on day `today`, or None when it raises
    `OverflowError`: `today + timedelta(days=30)` and `today + timedelta(days=60)`
    are evaluated for each licence that has an expiry date.
  */
  function Statistics(items: seq<License>, today: CalendarDate, months: seq<MonthKey>): Option<StatsData> {
    if HasExpiry(items) && !AddDaysInRange(today, 60) then None
    else
      var expiries := ExpiryMonths(items);
      Some(StatsData(
        Tally(Statuses(items)),
        Tally(Authorities(items)),
        Tally(TypeKeys(items)),
        SortedCounts(expiries, Tally(expiries)),
        TypesPerMonth(months, items),
        DaysPerMonth(months, items),
        Sla(Ratio(CountAfter(items, Ordinal(today) + 30), |items|),
            Ratio(CountAfter(items, Ordinal(today) + 60), |items|),
            |items|),
        months))
  }

  lemma PrefixStep<T>(items: seq<T>, i: int)
    requires 0 <= i < |items|
    ensures items[..i + 1][..i] == items[..i]
    ensures items[..i + 1][i] == items[i]
    ensures |items[..i + 1]| == i + 1
  {
  }

  lemma TypesInStep(items: seq<License>, i: int, mo: MonthKey)
    requires 0 <= i < |items|
    ensures var lic := items[i];
      Tally(TypesIn(items[..i + 1], mo)) ==
        if lic.expiry.Some? && MonthOf(lic.expiry.value) == mo
        then Bump(Tally(TypesIn(items[..i], mo)), TypeKey(lic.licenseType))
        else Tally(TypesIn(items[..i], mo))
  {
    PrefixStep(items, i);
    var lic := items[i];
    if lic.expiry.Some? && MonthOf(lic.expiry.value) == mo {
      TallySnoc(TypesIn(items[..i], mo), TypeKey(lic.licenseType));
    } else {
      var xs := items[..i + 1];
      assert xs[..|xs| - 1] == items[..i];
      assert TypesIn(xs, mo) == TypesIn(items[..i], mo) + [];
      assert TypesIn(items[..i], mo) + [] == TypesIn(items[..i], mo);
    }
  }

  lemma DaysInStep(items: seq<License>, i: int, mo: MonthKey)
    requires 0 <= i < |items|
    ensures var lic := items[i];
      Tally(DaysIn(items[..i + 1], mo)) ==
        if lic.expiry.Some? && MonthOf(lic.expiry.value) == mo
        then Bump(Tally(DaysIn(items[..i], mo)), lic.expiry.value.day)
        else Tally(DaysIn(items[..i], mo))
  {
    PrefixStep(items, i);
    var lic := items[i];
    if lic.expiry.Some? && MonthOf(lic.expiry.value) == mo {
      TallySnoc(DaysIn(items[..i], mo), lic.expiry.value.day);
    } else {
      var xs := items[..i + 1];
      assert xs[..|xs| - 1] == items[..i];
      assert DaysIn(xs, mo) == DaysIn(items[..i], mo) + [];
      assert DaysIn(items[..i], mo) + [] == DaysIn(items[..i], mo);
    }
  }

  lemma TypesPerMonthStep(months: seq<MonthKey>, items: seq<License>, i: int)
    requires 0 <= i < |items|
    ensures var lic := items[i];
      var before := TypesPerMonth(months, items[..i]);
      TypesPerMonth(months, items[..i + 1]) ==
        if lic.expiry.Some? && MonthOf(lic.expiry.value) in before
        then before[MonthOf(lic.expiry.value) := Bump(before[MonthOf(lic.expiry.value)], TypeKey(lic.licenseType))]
        else before
  {
    var lic := items[i];
    var before := TypesPerMonth(months, items[..i]);
    var after := TypesPerMonth(months, items[..i + 1]);
    if lic.expiry.Some? && MonthOf(lic.expiry.value) in before {
      var key := MonthOf(lic.expiry.value);
      var expected := before[key := Bump(before[key], TypeKey(lic.licenseType))];
      assert after.Keys == expected.Keys;
      forall mo | mo in after ensures after[mo] == expected[mo] {
        TypesInStep(items, i, mo);
      }
      assert after == expected;
    } else {
      assert after.Keys == before.Keys;
      forall mo | mo in after ensures after[mo] == before[mo] {
        TypesInStep(items, i, mo);
      }
      assert after == before;
    }
  }

  lemma DaysPerMonthStep(months: seq<MonthKey>, items: seq<License>, i: int)
    requires 0 <= i < |items|
    ensures var lic := items[i];
      var before := DaysPerMonth(months, items[..i]);
      DaysPerMonth(months, items[..i + 1]) ==
        if lic.expiry.Some? && MonthOf(lic.expiry.value) in before
        then before[MonthOf(lic.expiry.value) := Bump(before[MonthOf(lic.expiry.value)], lic.expiry.value.day)]
        else before
  {
    var lic := items[i];
    var before := DaysPerMonth(months, items[..i]);
    var after := DaysPerMonth(months, items[..i + 1]);
    if lic.expiry.Some? && MonthOf(lic.expiry.value) in before {
      var key := MonthOf(lic.expiry.value);
      var expected := before[key := Bump(before[key], lic.expiry.value.day)];
      assert after.Keys == expected.Keys;
      forall mo | mo in after ensures after[mo] == expected[mo] {
        DaysInStep(items, i, mo);
      }
      assert after == expected;
    } else {
      assert after.Keys == before.Keys;
      forall mo | mo in after ensures after[mo] == before[mo] {
        DaysInStep(items, i, mo);
      }
      assert after == before;
    }
  }

  /** One more licence bumps the status, authority and type counters by its own values. */
  lemma ProjectionsStep(items: seq<License>, i: int)
    requires 0 <= i < |items|
    ensures var lic := items[i];
      Tally(Statuses(items[..i + 1])) == Bump(Tally(Statuses(items[..i])), lic.status)
      && Tally(Authorities(items[..i + 1])) == Bump(Tally(Authorities(items[..i])), lic.authority)
      && Tally(TypeKeys(items[..i + 1])) == Bump(Tally(TypeKeys(items[..i])), TypeKey(lic.licenseType))
  {
    PrefixStep(items, i);
    var lic := items[i];
    assert Statuses(items[..i + 1]) == Statuses(items[..i]) + [lic.status];
    assert Authorities(items[..i + 1]) == Authorities(items[..i]) + [lic.authority];
    assert TypeKeys(items[..i + 1]) == TypeKeys(items[..i]) + [TypeKey(lic.licenseType)];
    TallySnoc(Statuses(items[..i]), lic.status);
    TallySnoc(Authorities(items[..i]), lic.authority);
    TallySnoc(TypeKeys(items[..i]), TypeKey(lic.licenseType));
  }

  /** One more licence adds its expiry month to the month counter, if it has an expiry. */
  lemma ExpiryMonthsStep(items: seq<License>, i: int)
    requires 0 <= i < |items|
    ensures var lic := items[i];
      (lic.expiry.None? ==> ExpiryMonths(items[..i + 1]) == ExpiryMonths(items[..i]))
      && Tally(ExpiryMonths(items[..i + 1])) ==
           (if lic.expiry.Some? then Bump(Tally(ExpiryMonths(items[..i])), MonthOf(lic.expiry.value))
            else Tally(ExpiryMonths(items[..i])))
  {
    PrefixStep(items, i);
    var lic := items[i];
    var xs := items[..i + 1];
    assert xs[..|xs| - 1] == items[..i] && xs[|xs| - 1] == lic;
    if lic.expiry.Some? {
      assert ExpiryMonths(xs) == ExpiryMonths(items[..i]) + [MonthOf(lic.expiry.value)];
      TallySnoc(ExpiryMonths(items[..i]), MonthOf(lic.expiry.value));
    } else {
      assert ExpiryMonths(xs) == ExpiryMonths(items[..i]) + [];
      assert ExpiryMonths(items[..i]) + [] == ExpiryMonths(items[..i]);
    }
  }

  /** One more licence counts after a bound exactly when it expires after it. */
  lemma CountAfterStep(items: seq<License>, i: int, bound: int)
    requires 0 <= i < |items|
    ensures var lic := items[i];
      CountAfter(items[..i + 1], bound) ==
        CountAfter(items[..i], bound) + (if lic.expiry.Some? && Ordinal(lic.expiry.value) > bound then 1 else 0)
  {
    PrefixStep(items, i);
    var xs := items[..i + 1];
    assert xs[..|xs| - 1] == items[..i] && xs[|xs| - 1] == items[i];
  }

  /** What one more licence adds to each counter of the pass. */
  lemma CountersStep(items: seq<License>, i: int, bound30: int, bound60: int)
    requires 0 <= i < |items|
    ensures var lic := items[i];
      Tally(Statuses(items[..i + 1])) == Bump(Tally(Statuses(items[..i])), lic.status)
      && Tally(Authorities(items[..i + 1])) == Bump(Tally(Authorities(items[..i])), lic.authority)
      && Tally(TypeKeys(items[..i + 1])) == Bump(Tally(TypeKeys(items[..i])), TypeKey(lic.licenseType))
      && (lic.expiry.None? ==> ExpiryMonths(items[..i + 1]) == ExpiryMonths(items[..i]))
      && Tally(ExpiryMonths(items[..i + 1])) ==
           (if lic.expiry.Some? then Bump(Tally(ExpiryMonths(items[..i])), MonthOf(lic.expiry.value))
            else Tally(ExpiryMonths(items[..i])))
      && CountAfter(items[..i + 1], bound30) ==
           CountAfter(items[..i], bound30) + (if lic.expiry.Some? && Ordinal(lic.expiry.value) > bound30 then 1 else 0)
      && CountAfter(items[..i + 1], bound60) ==
           CountAfter(items[..i], bound60) + (if lic.expiry.Some? && Ordinal(lic.expiry.value) > bound60 then 1 else 0)
  {
    ProjectionsStep(items, i);
    ExpiryMonthsStep(items, i);
    CountAfterStep(items, i, bound30);
    CountAfterStep(items, i, bound60);
  }

  /**
    The month-keyed counters bumped for one licence expiring on e: the
    expiry count of its month (recording the month in `order` when it is
    new to the dictionary), and, when the month is in the window, its type
    and day-of-month counters.
  */
  method CountExpiry(e: CalendarDate, ltype: string, perMonth: map<MonthKey, nat>, order: seq<MonthKey>,
                     byTypePerMonth: map<MonthKey, map<string, nat>>, heatmap: map<MonthKey, map<int, nat>>)
    returns (perMonth': map<MonthKey, nat>, order': seq<MonthKey>,
             byTypePerMonth': map<MonthKey, map<string, nat>>, heatmap': map<MonthKey, map<int, nat>>)
    requires forall k :: k in order <==> k in perMonth
    ensures perMonth' == Bump(perMonth, MonthOf(e))
    ensures forall k :: k in order' <==> k in perMonth'
    ensures order' == if MonthOf(e) in perMonth then order else order + [MonthOf(e)]
    ensures byTypePerMonth' == if MonthOf(e) in byTypePerMonth
      then byTypePerMonth[MonthOf(e) := Bump(byTypePerMonth[MonthOf(e)], ltype)] else byTypePerMonth
    ensures heatmap' == if MonthOf(e) in heatmap
      then heatmap[MonthOf(e) := Bump(heatmap[MonthOf(e)], e.day)] else heatmap
  {
    var key := MonthOf(e);
    order' := order;
    if key !in perMonth {
      order' := order + [key];
    }
    perMonth' := Bump(perMonth, key);
    byTypePerMonth' := byTypePerMonth;
    if key in byTypePerMonth {
      byTypePerMonth' := byTypePerMonth[key := Bump(byTypePerMonth[key], ltype)];
    }
    heatmap' := heatmap;
    if key in heatmap {
      heatmap' := heatmap[key := Bump(heatmap[key], e.day)];
    }
  }

  /** The counters of `data` the loop of `calc_stats` fills, with `ok_30` and `ok_60`. */
  datatype Counters = Counters(
    byStatus: map<Option<string>, nat>,
    byAuthority: map<string, nat>,
    byType: map<string, nat>,
    perMonth: map<MonthKey, nat>,
    order: seq<MonthKey>,
    byTypePerMonth: map<MonthKey, map<string, nat>>,
    heatmap: map<MonthKey, map<int, nat>>,
    ok30: nat,
    ok60: nat)

  /**
    The counters after counting the licences `done`: each one the tally of
    its projection of `done`, and `order` holding the keys of the per-month
    dictionary.
  */
  ghost predicate Counted(c: Counters, done: seq<License>, today: CalendarDate, months: seq<MonthKey>) {
    c.byStatus == Tally(Statuses(done))
    && c.byAuthority == Tally(Authorities(done))
    && c.byType == Tally(TypeKeys(done))
    && c.perMonth == Tally(ExpiryMonths(done))
    && (forall k :: k in c.order <==> k in c.perMonth)
    && c.byTypePerMonth == TypesPerMonth(months, done)
    && c.heatmap == DaysPerMonth(months, done)
    && c.ok30 == CountAfter(done, Ordinal(today) + 30)
    && c.ok60 == CountAfter(done, Ordinal(today) + 60)
  }

  /**
    One iteration of the loop of `calc_stats`: bumps every counter for the
    licence items[i], or None when comparing its expiry date with
    `today + timedelta(...)` raises.
  */
  method CountLicence(c: Counters, items: seq<License>, i: nat, today: CalendarDate, months: seq<MonthKey>)
    returns (next: Option<Counters>)
    requires i < |items| && Counted(c, items[..i], today, months)
    ensures next.None? <==> items[i].expiry.Some? && !AddDaysInRange(today, 60)
    ensures next.Some? ==> Counted(next.value, items[..i + 1], today, months)
  {
    var lic := items[i];
    CountersStep(items, i, Ordinal(today) + 30, Ordinal(today) + 60);
    TypesPerMonthStep(months, items, i);
    DaysPerMonthStep(months, items, i);
    var ltype := TypeKey(lic.licenseType);
    var byStatus := Bump(c.byStatus, lic.status);
    var byAuthority := Bump(c.byAuthority, lic.authority);
    var byType := Bump(c.byType, ltype);
    if lic.expiry.None? {
      return Some(c.(byStatus := byStatus, byAuthority := byAuthority, byType := byType));
    }
    var e := lic.expiry.value;
    var perMonth, order, byTypePerMonth, heatmap := CountExpiry(e, ltype, c.perMonth, c.order, c.byTypePerMonth, c.heatmap);
    if !AddDaysInRange(today, 30) {
      OverflowAt(items, today, i);
      return None;
    }
    var ok30 := c.ok30;
    if Ordinal(e) > Ordinal(today) + 30 {
      ok30 := ok30 + 1;
    }
    if !AddDaysInRange(today, 60) {
      return None;
    }
    var ok60 := c.ok60;
    if Ordinal(e) > Ordinal(today) + 60 {
      ok60 := ok60 + 1;
    }
    return Some(Counters(byStatus, byAuthority, byType, perMonth, order, byTypePerMonth, heatmap, ok30, ok60));
  }

  /**
    The loop of `calc_stats` over the licences: every counter ends as the
    tally of its projection of the licences (`order` holding the keys of the
    per-month dictionary in insertion order), or None when a comparison with
    `today + timedelta(...)` raises.
  */
  method CountAll(items: seq<License>, today: CalendarDate, months: seq<MonthKey>) returns (c: Option<Counters>)
    ensures c.None? <==> HasExpiry(items) && !AddDaysInRange(today, 60)
    ensures c.Some? ==> Counted(c.value, items, today, months)
  {
    var counters := Counters(map[], map[], map[], map[], [], map mo | mo in months :: map[], map mo | mo in months :: map[], 0, 0);
    assert counters.byTypePerMonth == TypesPerMonth(months, items[..0]);
    assert counters.heatmap == DaysPerMonth(months, items[..0]);
    for i := 0 to |items|
      invariant Counted(counters, items[..i], today, months)
      invariant AddDaysInRange(today, 60) || ExpiryMonths(items[..i]) == []
    {
      var next := CountLicence(counters, items, i, today, months);
      if next.None? {
        OverflowAt(items, today, i);
        return None;
      }
      CountersStep(items, i, Ordinal(today) + 30, Ordinal(today) + 60);
      counters := next.value;
    }
    assert items[..|items|] == items;
    if HasExpiry(items) {
      var k :| 0 <= k < |items| && items[k].expiry.Some?;
      ExpiryMonthsMembers(items, MonthOf(items[k].expiry.value));
    }
    c := Some(counters);
  }

  /**
    `calc_stats`: the counting loop, then the per-month expiry counts sorted
    by month and the SLA ratios. Its result is the specification
    `Statistics`, OverflowError included.
  */
  method CalcStats(items: seq<License>, today: CalendarDate, windowDay: CalendarDate) returns (r: Option<StatsData>)
    ensures r == Statistics(items, today, Window(MonthOf(windowDay), 12))
  {
    var months := MonthsWindow(windowDay, 12);
    var counted := CountAll(items, today, months);
    if counted.None? {
      return None;
    }
    var c := counted.value;
    var total := |items|;
    SortedExpiries(items, c.order);
    var expiriesPerMonth := SortedCounts(c.order, c.perMonth);
    var sla := Sla(Ratio(c.ok30, total), Ratio(c.ok60, total), total);
    r := Some(StatsData(c.byStatus, c.byAuthority, c.byType, expiriesPerMonth, c.byTypePerMonth, c.heatmap, sla, months));
  }

  /**
    A licence with an expiry date makes the source evaluate both
    `today + timedelta(days=30)` and `today + timedelta(days=60)`; the run
    raises exactly when the second leaves the calendar (the first can only
    overflow when the second does).
  */
  lemma OverflowAt(items: seq<License>, today: CalendarDate, k: int)
    requires 0 <= k < |items| && items[k].expiry.Some?
    ensures HasExpiry(items)
    ensures !AddDaysInRange(today, 30) ==> !AddDaysInRange(today, 60)
    ensures AddDaysInRange(today, 60) ==> AddDaysInRange(today, 30)
  {
    OrdinalRange(today);
  }

  // ---------------------------------------------------------------------
  // What the statistics mean
  // ---------------------------------------------------------------------

  lemma {:induction false} ExpiryMonthsMembers(items: seq<License>, mo: MonthKey)
    ensures mo in ExpiryMonths(items) <==>
      exists k :: 0 <= k < |items| && items[k].expiry.Some? && MonthOf(items[k].expiry.value) == mo
  {
    if items != [] {
      var n := |items| - 1;
      ExpiryMonthsMembers(items[..n], mo);
      if exists k :: 0 <= k < |items| && items[k].expiry.Some? && MonthOf(items[k].expiry.value) == mo {
        var k :| 0 <= k < |items| && items[k].expiry.Some? && MonthOf(items[k].expiry.value) == mo;
        if k < n {
          assert items[..n][k] == items[k];
        }
      }
    }
  }

  lemma {:induction false} TypesInSound(items: seq<License>, mo: MonthKey, t: string)
    requires t in TypesIn(items, mo)
    ensures exists k :: 0 <= k < |items| && items[k].expiry.Some? && MonthOf(items[k].expiry.value) == mo
                 && TypeKey(items[k].licenseType) == t
  {
    var n := |items| - 1;
    if t in TypesIn(items[..n], mo) {
      TypesInSound(items[..n], mo, t);
      var k :| 0 <= k < n && items[..n][k].expiry.Some? && MonthOf(items[..n][k].expiry.value) == mo
        && TypeKey(items[..n][k].licenseType) == t;
      assert items[..n][k] == items[k];
    } else {
      assert items[n].expiry.Some? && MonthOf(items[n].expiry.value) == mo && TypeKey(items[n].licenseType) == t;
    }
  }

  lemma {:induction false} TypesInComplete(items: seq<License>, mo: MonthKey, k: int)
    requires 0 <= k < |items| && items[k].expiry.Some? && MonthOf(items[k].expiry.value) == mo
    ensures TypeKey(items[k].licenseType) in TypesIn(items, mo)
  {
    var n := |items| - 1;
    if k < n {
      assert items[..n][k] == items[k];
      TypesInComplete(items[..n], mo, k);
    }
  }

  lemma TypesInMembers(items: seq<License>, mo: MonthKey, t: string)
    ensures t in TypesIn(items, mo) <==>
      exists k :: 0 <= k < |items| && items[k].expiry.Some? && MonthOf(items[k].expiry.value) == mo
        && TypeKey(items[k].licenseType) == t
  {
    if t in TypesIn(items, mo) {
      TypesInSound(items, mo, t);
    }
    if exists k :: 0 <= k < |items| && items[k].expiry.Some? && MonthOf(items[k].expiry.value) == mo
        && TypeKey(items[k].licenseType) == t {
      var k :| 0 <= k < |items| && items[k].expiry.Some? && MonthOf(items[k].expiry.value) == mo
        && TypeKey(items[k].licenseType) == t;
      TypesInComplete(items, mo, k);
    }
  }

  lemma {:induction false} DaysInMembers(items: seq<License>, mo: MonthKey, d: int)
    ensures d in DaysIn(items, mo) <==>
      exists k :: 0 <= k < |items| && items[k].expiry.Some? && MonthOf(items[k].expiry.value) == mo
        && items[k].expiry.value.day == d
  {
    if items != [] {
      var n := |items| - 1;
      DaysInMembers(items[..n], mo, d);
      if exists k :: 0 <= k < |items| && items[k].expiry.Some? && MonthOf(items[k].expiry.value) == mo
          && items[k].expiry.value.day == d {
        var k :| 0 <= k < |items| && items[k].expiry.Some? && MonthOf(items[k].expiry.value) == mo
          && items[k].expiry.value.day == d;
        if k < n {
          assert items[..n][k] == items[k];
        }
      }
    }
  }

  lemma {:induction false} CountAfterBounds(items: seq<License>, b1: int, b2: int)
    requires b1 <= b2
    ensures CountAfter(items, b2) <= CountAfter(items, b1) <= |items|
  {
    if items != [] {
      CountAfterBounds(items[..|items| - 1], b1, b2);
    }
  }

  lemma {:induction false} CountAfterAll(items: seq<License>, bound: int)
    ensures CountAfter(items, bound) == |items| <==>
      forall k :: 0 <= k < |items| ==> items[k].expiry.Some? && Ordinal(items[k].expiry.value) > bound
  {
    if items != [] {
      var n := |items| - 1;
      CountAfterAll(items[..n], bound);
      CountAfterBounds(items[..n], bound, bound);
      if CountAfter(items, bound) == |items| {
        forall k | 0 <= k < |items| ensures items[k].expiry.Some? && Ordinal(items[k].expiry.value) > bound {
          if k < n {
            assert items[..n][k] == items[k];
          }
        }
      }
      if forall k :: 0 <= k < |items| ==> items[k].expiry.Some? && Ordinal(items[k].expiry.value) > bound {
        forall k | 0 <= k < n ensures items[..n][k].expiry.Some? && Ordinal(items[..n][k].expiry.value) > bound {
          assert items[..n][k] == items[k];
        }
      }
    }
  }

  lemma RatioBounds(ok: nat, total: nat)
    requires ok <= total
    ensures 0.0 <= Ratio(ok, total) <= 100.0
    ensures Ratio(ok, total) == 100.0 <==> total > 0 && ok == total
  {
    if total > 0 {
      var q := ok as real / total as real;
      assert q * total as real == ok as real;
      assert 0.0 <= q <= 1.0;
      if q * 100.0 == 100.0 {
        assert q == 1.0;
      }
    }
  }

  lemma RatioMonotone(a: nat, b: nat, total: nat)
    requires a <= b
    ensures Ratio(a, total) <= Ratio(b, total)
  {
    if total > 0 {
      var qa, qb := a as real / total as real, b as real / total as real;
      assert qa * total as real == a as real;
      assert qb * total as real == b as real;
      assert qa <= qb;
    }
  }

  /**
    Every counter dictionary counts each licence once: the counts of
    `by_status`, `by_authority` and `by_type` each add up to `sla.total`,
    which is the number of licences.
  */
  lemma CountsAddUp(items: seq<License>, today: CalendarDate, months: seq<MonthKey>)
    requires Statistics(items, today, months).Some?
    ensures var d := Statistics(items, today, months).value;
      d.sla.total == |items|
      && SumValues(d.byStatus) == |items|
      && SumValues(d.byAuthority) == |items|
      && SumValues(d.byType) == |items|
  {
    assert Statistics(items, today, months).value.byStatus == Tally(Statuses(items));
    assert Statistics(items, today, months).value.byAuthority == Tally(Authorities(items));
    assert Statistics(items, today, months).value.byType == Tally(TypeKeys(items));
    TallySum(Statuses(items));
    TallySum(Authorities(items));
    TallySum(TypeKeys(items));
  }

  /**
    `by_status`: a status is a key exactly when some licence has it, and
    its count is the number of licences having it.
  */
  lemma ByStatusMeaning(items: seq<License>, today: CalendarDate, months: seq<MonthKey>, s: Option<string>)
    requires Statistics(items, today, months).Some?
    ensures var d := Statistics(items, today, months).value;
      (s in d.byStatus <==> exists k :: 0 <= k < |items| && items[k].status == s)
      && (s in d.byStatus ==> d.byStatus[s] == multiset(Statuses(items))[s])
  {
    assert Statistics(items, today, months).value.byStatus == Tally(Statuses(items));
    TallyMeaning(Statuses(items), s);
    if s in Statuses(items) {
      var k :| 0 <= k < |items| && Statuses(items)[k] == s;
    }
    if exists k :: 0 <= k < |items| && items[k].status == s {
      var k :| 0 <= k < |items| && items[k].status == s;
      assert Statuses(items)[k] == s;
    }
  }

  /** `by_authority`: likewise, keyed by the issuing authority. */
  lemma ByAuthorityMeaning(items: seq<License>, today: CalendarDate, months: seq<MonthKey>, a: string)
    requires Statistics(items, today, months).Some?
    ensures var d := Statistics(items, today, months).value;
      (a in d.byAuthority <==> exists k :: 0 <= k < |items| && items[k].authority == a)
      && (a in d.byAuthority ==> d.byAuthority[a] == multiset(Authorities(items))[a])
  {
    assert Statistics(items, today, months).value.byAuthority == Tally(Authorities(items));
    TallyMeaning(Authorities(items), a);
    if a in Authorities(items) {
      var k :| 0 <= k < |items| && Authorities(items)[k] == a;
    }
    if exists k :: 0 <= k < |items| && items[k].authority == a {
      var k :| 0 <= k < |items| && items[k].authority == a;
      assert Authorities(items)[k] == a;
    }
  }

  /** `by_type`: likewise, keyed by the normalised type ("OUTROS" when blank). */
  lemma ByTypeMeaning(items: seq<License>, today: CalendarDate, months: seq<MonthKey>, t: string)
    requires Statistics(items, today, months).Some?
    ensures var d := Statistics(items, today, months).value;
      (t in d.byType <==> exists k :: 0 <= k < |items| && TypeKey(items[k].licenseType) == t)
      && (t in d.byType ==> d.byType[t] == multiset(TypeKeys(items))[t])
  {
    assert Statistics(items, today, months).value.byType == Tally(TypeKeys(items));
    TallyMeaning(TypeKeys(items), t);
    if t in TypeKeys(items) {
      var k :| 0 <= k < |items| && TypeKeys(items)[k] == t;
    }
    if exists k :: 0 <= k < |items| && TypeKey(items[k].licenseType) == t {
      var k :| 0 <= k < |items| && TypeKey(items[k].licenseType) == t;
      assert TypeKeys(items)[k] == t;
    }
  }

  /**
    The share, in percent, of licences expiring after the day with ordinal
    `bound`: between 0 and 100, 0.0 with no licences, and 100.0 exactly
    when every licence expires after it.
  */
  lemma ShareAfter(items: seq<License>, bound: int)
    ensures var r := Ratio(CountAfter(items, bound), |items|);
      0.0 <= r <= 100.0
      && (items == [] ==> r == 0.0)
      && (r == 100.0 <==>
            (items != [] && forall k :: 0 <= k < |items| ==>
               items[k].expiry.Some? && Ordinal(items[k].expiry.value) > bound))
  {
    CountAfterBounds(items, bound, bound);
    CountAfterAll(items, bound);
    RatioBounds(CountAfter(items, bound), |items|);
  }

  /** A later bound leaves no more licences after it, so a smaller share. */
  lemma ShareAfterMonotone(items: seq<License>, b1: int, b2: int)
    requires b1 <= b2
    ensures Ratio(CountAfter(items, b2), |items|) <= Ratio(CountAfter(items, b1), |items|)
  {
    CountAfterBounds(items, b1, b2);
    RatioMonotone(CountAfter(items, b2), CountAfter(items, b1), |items|);
  }

  /**
    The SLA ratios are percentages, the 60-day one never above the 30-day
    one, both 0.0 with no licences, and a ratio is 100.0 exactly when every
    licence expires after that many days.
  */
  lemma SlaMeaning(items: seq<License>, today: CalendarDate, months: seq<MonthKey>)
    requires Statistics(items, today, months).Some?
    ensures var sla := Statistics(items, today, months).value.sla;
      0.0 <= sla.ok60Ratio <= sla.ok30Ratio <= 100.0
      && (items == [] ==> sla.ok30Ratio == 0.0 && sla.ok60Ratio == 0.0)
      && (sla.ok30Ratio == 100.0 <==>
            (items != [] && forall k :: 0 <= k < |items| ==>
               items[k].expiry.Some? && Ordinal(items[k].expiry.value) > Ordinal(today) + 30))
      && (sla.ok60Ratio == 100.0 <==>
            (items != [] && forall k :: 0 <= k < |items| ==>
               items[k].expiry.Some? && Ordinal(items[k].expiry.value) > Ordinal(today) + 60))
  {
    var b30, b60 := Ordinal(today) + 30, Ordinal(today) + 60;
    assert Statistics(items, today, months).value.sla
      == Sla(Ratio(CountAfter(items, b30), |items|), Ratio(CountAfter(items, b60), |items|), |items|);
    ShareAfter(items, b30);
    ShareAfter(items, b60);
    ShareAfterMonotone(items, b30, b60);
  }

  /**
    `months` is the twelve months starting with the month of the day
    `months_window` read, ascending, and `by_type_per_month` and `heatmap`
    have exactly those months as keys: an expiry outside the window is
    counted in no per-month breakdown.
  */
  lemma WindowKeys(items: seq<License>, today: CalendarDate, windowDay: CalendarDate)
    requires Statistics(items, today, Window(MonthOf(windowDay), 12)).Some?
    ensures var d := Statistics(items, today, Window(MonthOf(windowDay), 12)).value;
      |d.months| == 12 && d.months[0] == MonthOf(windowDay)
      && (forall i, j :: 0 <= i < j < |d.months| ==> Earlier(d.months[i], d.months[j]))
      && (forall mo :: mo in d.byTypePerMonth <==> mo in d.months)
      && (forall mo :: mo in d.heatmap <==> mo in d.months)
  {
    var months := Window(MonthOf(windowDay), 12);
    assert Statistics(items, today, months).value.months == months;
    WindowShape(MonthOf(windowDay), 12);
  }

  /**
    For a window month, `by_type_per_month` counts the normalised types of
    the licences expiring in that month, and `heatmap` counts their days of
    month, which are always 1..31.
  */
  lemma PerMonthMeaning(items: seq<License>, today: CalendarDate, months: seq<MonthKey>, mo: MonthKey, t: string, day: int)
    requires Statistics(items, today, months).Some?
    requires mo in Statistics(items, today, months).value.months
    ensures var d := Statistics(items, today, months).value;
      mo in d.byTypePerMonth && mo in d.heatmap
      && (t in d.byTypePerMonth[mo] <==>
            exists k :: 0 <= k < |items| && items[k].expiry.Some? && MonthOf(items[k].expiry.value) == mo
              && TypeKey(items[k].licenseType) == t)
      && (t in d.byTypePerMonth[mo] ==> d.byTypePerMonth[mo][t] == multiset(TypesIn(items, mo))[t])
      && (day in d.heatmap[mo] <==>
            exists k :: 0 <= k < |items| && items[k].expiry.Some? && MonthOf(items[k].expiry.value) == mo
              && items[k].expiry.value.day == day)
      && (day in d.heatmap[mo] ==> 1 <= day <= 31 && d.heatmap[mo][day] == multiset(DaysIn(items, mo))[day])
  {
    assert Statistics(items, today, months).value.byTypePerMonth == TypesPerMonth(months, items);
    assert Statistics(items, today, months).value.heatmap == DaysPerMonth(months, items);
    TallyMeaning(TypesIn(items, mo), t);
    TypesInMembers(items, mo, t);
    TallyMeaning(DaysIn(items, mo), day);
    DaysInMembers(items, mo, day);
    if day in DaysIn(items, mo) {
      var k :| 0 <= k < |items| && items[k].expiry.Some? && MonthOf(items[k].expiry.value) == mo
        && items[k].expiry.value.day == day;
      assert items[k].expiry.value.Valid();
    }
  }

  /**
    `expiries_per_month` lists, in ascending order and once each, exactly
    the months in which some licence expires, each with how many do.
  */
  lemma ExpiriesMeaning(items: seq<License>, today: CalendarDate, months: seq<MonthKey>, mo: MonthKey)
    requires Statistics(items, today, months).Some?
    requires ValidMonth(mo)
    ensures var pairs := Statistics(items, today, months).value.expiriesPerMonth;
      MonthsAscending(pairs)
      && (mo in MonthsOf(pairs) <==>
            exists k :: 0 <= k < |items| && items[k].expiry.Some? && MonthOf(items[k].expiry.value) == mo)
      && (forall i :: 0 <= i < |pairs| ==> pairs[i].1 == multiset(ExpiryMonths(items))[pairs[i].0])
  {
    assert Statistics(items, today, months).value.expiriesPerMonth == SortedCounts(ExpiryMonths(items), Tally(ExpiryMonths(items)));
    ExpiriesPerMonthMeaning(items);
    ExpiryMonthsMembers(items, mo);
  }

  /** With no licence the statistics are empty counters over the window. */
  lemma NoLicences(today: CalendarDate, months: seq<MonthKey>)
    ensures Statistics([], today, months).Some?
    ensures var d := Statistics([], today, months).value;
      d.byStatus == map[] && d.byAuthority == map[] && d.byType == map[]
      && d.expiriesPerMonth == [] && d.sla == Sla(0.0, 0.0, 0)
      && (forall mo :: mo in d.byTypePerMonth ==> d.byTypePerMonth[mo] == map[])
      && (forall mo :: mo in d.heatmap ==> d.heatmap[mo] == map[])
  {
    assert !HasExpiry([]);
  }

  /** calc_stats raises exactly when some licence has an expiry date and today is within 60 days of the calendar's end. */
  lemma RaisesOnlyNearCalendarEnd(items: seq<License>, today: CalendarDate, months: seq<MonthKey>)
    ensures Statistics(items, today, months).None? <==> HasExpiry(items) && Ordinal(today) + 60 > MaxOrdinal
  {
    OrdinalRange(today);
  }
}
