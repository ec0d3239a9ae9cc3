/**
 * Release trends of the films table: films per release year, per decade and
 * per month, stacked into one (type, period, count) table.
 */
module ReleaseTrends {
  import opened Wrappers
  import opened Calendar
  import opened Grouping

  datatype BucketType = Year | Decade | Month

  /** One output row: `type`, `period`, `count`. */
  datatype TrendRow = TrendRow(bucketType: BucketType, period: int, count: int)

  /**
   * The RELEASE_DATE column after coercing parse failures to NULL and dropping
   * the NULL rows: every parsed date is kept as often as it occurs, and nothing else.
   */
  function ParsedDates(dates: seq<Option<Date>>): (kept: seq<Date>)
    ensures |kept| <= |dates|
    ensures forall d :: multiset(kept)[d] == multiset(dates)[Some(d)]
  {
    if dates == [] then []
    else
      assert dates == [dates[0]] + dates[1..];
      (if dates[0].Some? then [dates[0].value] else []) + ParsedDates(dates[1..])
  }

  /** `(year // 10) * 10`: the first year of the year's decade. */
  function DecadeOf(year: int): (decade: int)
    ensures decade % 10 == 0
    ensures decade <= year < decade + 10
  {
    (year / 10) * 10
  }

  /** The period a date falls in, for each kind of bucket. */
  function PeriodOf(t: BucketType, d: Date): int
  {
    match t
    case Year => d.year
    case Decade => DecadeOf(d.year)
    case Month => d.month
  }

  /** The `year`, `decade` or `month` column of the kept rows. */
  function Periods(t: BucketType, kept: seq<Date>): seq<int>
  {
    seq(|kept|, i requires 0 <= i < |kept| => PeriodOf(t, kept[i]))
  }

  const IntLess: (int, int) -> bool := (a: int, b: int) => a < b

  /** Every row weighs one. */
  function Ones(keys: seq<int>): seq<(int, int)>
  {
    seq(|keys|, i requires 0 <= i < |keys| => (keys[i], 1))
  }

  /** `groupby(key).size()`: the distinct keys in ascending order, each with its row count. */
  function CountBy(keys: seq<int>): seq<Group<int>>
  {
    GroupSum(Ones(keys), IntLess)
  }

  /** Tags the groups with their type and renames them to (period, count). */
  function Tagged(t: BucketType, gs: seq<Group<int>>): seq<TrendRow>
  {
    seq(|gs|, i requires 0 <= i < |gs| => TrendRow(t, gs[i].key, gs[i].total))
  }

  /** `analyze_release_trends` over the RELEASE_DATE column. */
  function AnalyzeReleaseTrends(dates: seq<Option<Date>>): seq<TrendRow>
  {
    var kept := ParsedDates(dates);
    Tagged(Year, CountBy(Periods(Year, kept)))
      + Tagged(Decade, CountBy(Periods(Decade, kept)))
      + Tagged(Month, CountBy(Periods(Month, kept)))
  }

  // ---------------------------------------------------------------------------
  // Reading the output back

  /** The rows of one type, in output order. */
  function OfType(rows: seq<TrendRow>, t: BucketType): seq<TrendRow>
  {
    if rows == [] then []
    else (if rows[0].bucketType == t then [rows[0]] else []) + OfType(rows[1..], t)
  }

  function SumCounts(rows: seq<TrendRow>): int
  {
    if rows == [] then 0 else rows[0].count + SumCounts(rows[1..])
  }

  /** Position of a type in the stacked output. */
  function TypeRank(t: BucketType): nat
  {
    match t
    case Year => 0
    case Decade => 1
    case Month => 2
  }

  ghost predicate HasPeriod(rows: seq<TrendRow>, p: int)
  {
    exists i :: 0 <= i < |rows| && rows[i].period == p
  }

  // ---------------------------------------------------------------------------
  // Counting

  lemma IntLessIsStrictTotal()
    ensures StrictTotalOrder(IntLess)
  {
  }

  /** Counting with unit weights counts occurrences. */
  lemma {:induction false} OnesCount(keys: seq<int>, k: int)
    ensures SumFor(Ones(keys), k) == multiset(keys)[k]
  {
    if keys != [] {
      var init := keys[..|keys| - 1];
      assert Ones(keys)[..|keys| - 1] == Ones(init);
      assert keys == init + [keys[|keys| - 1]];
      OnesCount(init, k);
    }
  }

  lemma {:induction false} OnesWeight(keys: seq<int>)
    ensures SumWeights(Ones(keys)) == |keys|
  {
    if keys != [] {
      var init := keys[..|keys| - 1];
      assert Ones(keys)[..|keys| - 1] == Ones(init);
      OnesWeight(init);
    }
  }

  /**
   * `groupby(key).size()`: keys strictly ascending, exactly the keys present,
   * each with its number of occurrences, and the counts add up to the row count.
   */
  lemma CountByCorrect(keys: seq<int>)
    ensures forall i, j :: 0 <= i < j < |CountBy(keys)| ==> CountBy(keys)[i].key < CountBy(keys)[j].key
    ensures forall i :: 0 <= i < |CountBy(keys)| ==>
      CountBy(keys)[i].total == multiset(keys)[CountBy(keys)[i].key] >= 1
    ensures forall k :: k in keys <==> k in KeySet(CountBy(keys))
    ensures SumTotals(CountBy(keys)) == |keys|
  {
    var gs := CountBy(keys);
    IntLessIsStrictTotal();
    GroupSumCorrect(Ones(keys), IntLess);
    forall i | 0 <= i < |gs| ensures gs[i].total == multiset(keys)[gs[i].key] >= 1 {
      OnesCount(keys, gs[i].key);
      assert gs[i].key in KeySet(gs);
      var j :| 0 <= j < |Ones(keys)| && Ones(keys)[j].0 == gs[i].key;
      assert keys[j] in multiset(keys);
    }
    forall k ensures k in keys <==> k in ItemKeys(Ones(keys)) {
      if k in keys {
        var j :| 0 <= j < |keys| && keys[j] == k;
        assert Ones(keys)[j].0 == k;
      }
    }
    OnesWeight(keys);
  }

  // ---------------------------------------------------------------------------
  // The stacked table

  lemma {:induction false} OfTypeAppend(a: seq<TrendRow>, b: seq<TrendRow>, t: BucketType)
    ensures OfType(a + b, t) == OfType(a, t) + OfType(b, t)
  {
    if a != [] {
      assert (a + b)[1..] == a[1..] + b;
      OfTypeAppend(a[1..], b, t);
    } else {
      assert a + b == b;
    }
  }

  lemma {:induction false} OfTypeTagged(u: BucketType, gs: seq<Group<int>>, t: BucketType)
    ensures OfType(Tagged(u, gs), t) == if t == u then Tagged(u, gs) else []
  {
    if gs != [] {
      assert Tagged(u, gs)[1..] == Tagged(u, gs[1..]);
      OfTypeTagged(u, gs[1..], t);
    }
  }

  lemma {:induction false} SumCountsTagged(u: BucketType, gs: seq<Group<int>>)
    ensures SumCounts(Tagged(u, gs)) == SumTotals(gs)
  {
    if gs != [] {
      assert Tagged(u, gs)[1..] == Tagged(u, gs[1..]);
      SumCountsTagged(u, gs[1..]);
    }
  }

  /** The rows of type t are exactly the tagged counts of the t-periods of the kept rows. */
  lemma TypeRows(dates: seq<Option<Date>>, t: BucketType)
    ensures OfType(AnalyzeReleaseTrends(dates), t) == Tagged(t, CountBy(Periods(t, ParsedDates(dates))))
  {
    var kept := ParsedDates(dates);
    var y := Tagged(Year, CountBy(Periods(Year, kept)));
    var d := Tagged(Decade, CountBy(Periods(Decade, kept)));
    var m := Tagged(Month, CountBy(Periods(Month, kept)));
    OfTypeAppend(y + d, m, t);
    OfTypeAppend(y, d, t);
    OfTypeTagged(Year, CountBy(Periods(Year, kept)), t);
    OfTypeTagged(Decade, CountBy(Periods(Decade, kept)), t);
    OfTypeTagged(Month, CountBy(Periods(Month, kept)), t);
  }

  /** Year rows, then decade rows, then month rows: the type rank never decreases along the stack. */
  lemma StackedRanks(y: seq<TrendRow>, d: seq<TrendRow>, m: seq<TrendRow>)
    requires forall i :: 0 <= i < |y| ==> y[i].bucketType == Year
    requires forall i :: 0 <= i < |d| ==> d[i].bucketType == Decade
    requires forall i :: 0 <= i < |m| ==> m[i].bucketType == Month
    ensures forall i, j :: 0 <= i < j < |y + d + m| ==>
      TypeRank((y + d + m)[i].bucketType) <= TypeRank((y + d + m)[j].bucketType)
  {
    var out := y + d + m;
    forall i | 0 <= i < |out|
      ensures TypeRank(out[i].bucketType) == if i < |y| then 0 else if i < |y| + |d| then 1 else 2
    {
      if i < |y| {
        assert out[i] == y[i];
      } else if i < |y| + |d| {
        assert out[i] == d[i - |y|];
      } else {
        assert out[i] == m[i - |y| - |d|];
      }
    }
  }

  /** All year rows come first, then all decade rows, then all month rows. */
  lemma TrendsTypeOrder(dates: seq<Option<Date>>)
    ensures forall i, j :: 0 <= i < j < |AnalyzeReleaseTrends(dates)| ==>
      TypeRank(AnalyzeReleaseTrends(dates)[i].bucketType) <= TypeRank(AnalyzeReleaseTrends(dates)[j].bucketType)
    ensures AnalyzeReleaseTrends(dates) ==
      OfType(AnalyzeReleaseTrends(dates), Year) + OfType(AnalyzeReleaseTrends(dates), Decade)
        + OfType(AnalyzeReleaseTrends(dates), Month)
  {
    var kept := ParsedDates(dates);
    var y := Tagged(Year, CountBy(Periods(Year, kept)));
    var d := Tagged(Decade, CountBy(Periods(Decade, kept)));
    var m := Tagged(Month, CountBy(Periods(Month, kept)));
    StackedRanks(y, d, m);
    TypeRows(dates, Year);
    TypeRows(dates, Decade);
    TypeRows(dates, Month);
  }

  /**
   * `rows` is the count table of `keys` tagged with type t: periods strictly
   * ascending, one row exactly for each key present, each count the number of
   * occurrences of its key (so at least one), and the counts adding up to |keys|.
   */
  ghost predicate CountTable(rows: seq<TrendRow>, t: BucketType, keys: seq<int>)
  {
    && (forall i :: 0 <= i < |rows| ==> rows[i].bucketType == t)
    && (forall i, j :: 0 <= i < j < |rows| ==> rows[i].period < rows[j].period)
    && (forall p :: p in keys <==> HasPeriod(rows, p))
    && (forall i :: 0 <= i < |rows| ==> rows[i].count == multiset(keys)[rows[i].period] >= 1)
    && SumCounts(rows) == |keys|
  }

  lemma TaggedCountTable(t: BucketType, keys: seq<int>)
    ensures CountTable(Tagged(t, CountBy(keys)), t, keys)
  {
    var gs := CountBy(keys);
    var rows := Tagged(t, gs);
    CountByCorrect(keys);
    SumCountsTagged(t, gs);
    forall p ensures p in KeySet(gs) <==> HasPeriod(rows, p) {
      if p in KeySet(gs) {
        var i :| 0 <= i < |gs| && gs[i].key == p;
        assert rows[i].period == p;
      }
      if HasPeriod(rows, p) {
        var i :| 0 <= i < |rows| && rows[i].period == p;
        assert gs[i].key == p;
      }
    }
  }

  /**
   * Within each type: periods strictly ascending, one row exactly for each
   * period present among the kept rows, each count the number of kept rows in
   * that period (so at least one), and the counts add up to the kept rows.
   */
  lemma TypeRowsCorrect(dates: seq<Option<Date>>, t: BucketType)
    ensures CountTable(OfType(AnalyzeReleaseTrends(dates), t), t, Periods(t, ParsedDates(dates)))
  {
    TypeRows(dates, t);
    TaggedCountTable(t, Periods(t, ParsedDates(dates)));
  }

  /** Month periods are months 1..12; decade periods are multiples of ten. */
  lemma PeriodRanges(dates: seq<Option<Date>>)
    ensures var months := OfType(AnalyzeReleaseTrends(dates), Month);
      forall i :: 0 <= i < |months| ==> 1 <= months[i].period <= 12
    ensures var decades := OfType(AnalyzeReleaseTrends(dates), Decade);
      forall i :: 0 <= i < |decades| ==> decades[i].period % 10 == 0
  {
    var kept := ParsedDates(dates);
    TypeRowsCorrect(dates, Month);
    TypeRowsCorrect(dates, Decade);
    var months := OfType(AnalyzeReleaseTrends(dates), Month);
    var decades := OfType(AnalyzeReleaseTrends(dates), Decade);
    forall i | 0 <= i < |months| ensures 1 <= months[i].period <= 12 {
      assert HasPeriod(months, months[i].period);
      var j :| 0 <= j < |kept| && Periods(Month, kept)[j] == months[i].period;
    }
    forall i | 0 <= i < |decades| ensures decades[i].period % 10 == 0 {
      assert HasPeriod(decades, decades[i].period);
      var j :| 0 <= j < |kept| && Periods(Decade, kept)[j] == decades[i].period;
    }
  }

  lemma CountThree(a: int, b: int, c: int)
    ensures CountBy([a, b, c]) == GroupSum([(a, 1), (b, 1), (c, 1)], IntLess)
    ensures GroupSum([(a, 1), (b, 1), (c, 1)], IntLess) ==
      Insert(Insert(Insert([], a, 1, IntLess), b, 1, IntLess), c, 1, IntLess)
  {
    assert Ones([a, b, c]) == [(a, 1), (b, 1), (c, 1)];
    var items: seq<(int, int)> := [(a, 1), (b, 1), (c, 1)];
    var two: seq<(int, int)> := [(a, 1), (b, 1)];
    var one: seq<(int, int)> := [(a, 1)];
    assert items[..2] == two && two[..1] == one && one[..0] == [];
    assert GroupSum(one, IntLess) == Insert([], a, 1, IntLess);
    assert GroupSum(two, IntLess) == Insert(GroupSum(one, IntLess), b, 1, IntLess);
    assert GroupSum(items, IntLess) == Insert(GroupSum(two, IntLess), c, 1, IntLess);
  }

  lemma CountExampleYears()
    ensures CountBy([1994, 1994, 2004]) == [Group(1994, 2), Group(2004, 1)]
  {
    CountThree(1994, 1994, 2004);
  }

  lemma CountExampleDecades()
    ensures CountBy([1990, 1990, 2000]) == [Group(1990, 2), Group(2000, 1)]
  {
    CountThree(1990, 1990, 2000);
  }

  lemma CountExampleMonths()
    ensures CountBy([1, 6, 3]) == [Group(1, 1), Group(3, 1), Group(6, 1)]
  {
    CountThree(1, 6, 3);
    assert Insert([Group(1, 1), Group(6, 1)], 3, 1, IntLess) == [Group(1, 1)] + Insert([Group(6, 1)], 3, 1, IntLess);
  }

  lemma ParsedExample()
    ensures ParsedDates([Some(Date(1994, 1, 1)), None, Some(Date(1994, 6, 15)), Some(Date(2004, 3, 1))])
      == [Date(1994, 1, 1), Date(1994, 6, 15), Date(2004, 3, 1)]
  {
    var dates := [Some(Date(1994, 1, 1)), None, Some(Date(1994, 6, 15)), Some(Date(2004, 3, 1))];
    assert dates[1..][1..][1..][1..] == [];
  }

  lemma PeriodsExample()
    ensures Periods(Year, [Date(1994, 1, 1), Date(1994, 6, 15), Date(2004, 3, 1)]) == [1994, 1994, 2004]
    ensures Periods(Decade, [Date(1994, 1, 1), Date(1994, 6, 15), Date(2004, 3, 1)]) == [1990, 1990, 2000]
    ensures Periods(Month, [Date(1994, 1, 1), Date(1994, 6, 15), Date(2004, 3, 1)]) == [1, 6, 3]
  {
    assert DecadeOf(1994) == 1990;
    assert DecadeOf(2004) == 2000;
  }

  lemma TaggedTwo(t: BucketType, g: Group<int>, h: Group<int>)
    ensures Tagged(t, [g, h]) == [TrendRow(t, g.key, g.total), TrendRow(t, h.key, h.total)]
  {
  }

  lemma TaggedThree(t: BucketType, g: Group<int>, h: Group<int>, k: Group<int>)
    ensures Tagged(t, [g, h, k]) ==
      [TrendRow(t, g.key, g.total), TrendRow(t, h.key, h.total), TrendRow(t, k.key, k.total)]
  {
  }

  /** The output built from the kept rows, once the parse step is known. */
  lemma AnalyzeFromKept(dates: seq<Option<Date>>, kept: seq<Date>, y: seq<Group<int>>, d: seq<Group<int>>, m: seq<Group<int>>)
    requires ParsedDates(dates) == kept
    requires CountBy(Periods(Year, kept)) == y
    requires CountBy(Periods(Decade, kept)) == d
    requires CountBy(Periods(Month, kept)) == m
    ensures AnalyzeReleaseTrends(dates) == Tagged(Year, y) + Tagged(Decade, d) + Tagged(Month, m)
  {
  }

  lemma ExampleCounts(dates: seq<Option<Date>>)
    requires dates == [Some(Date(1994, 1, 1)), None, Some(Date(1994, 6, 15)), Some(Date(2004, 3, 1))]
    ensures AnalyzeReleaseTrends(dates) ==
      Tagged(Year, [Group(1994, 2), Group(2004, 1)]) + Tagged(Decade, [Group(1990, 2), Group(2000, 1)])
        + Tagged(Month, [Group(1, 1), Group(3, 1), Group(6, 1)])
  {
    ParsedExample();
    PeriodsExample();
    CountExampleYears();
    CountExampleDecades();
    CountExampleMonths();
    AnalyzeFromKept(dates, [Date(1994, 1, 1), Date(1994, 6, 15), Date(2004, 3, 1)],
      [Group(1994, 2), Group(2004, 1)], [Group(1990, 2), Group(2000, 1)], [Group(1, 1), Group(3, 1), Group(6, 1)]);
  }

  lemma ExampleRows()
    ensures Tagged(Year, [Group(1994, 2), Group(2004, 1)]) + Tagged(Decade, [Group(1990, 2), Group(2000, 1)])
        + Tagged(Month, [Group(1, 1), Group(3, 1), Group(6, 1)])
      == [TrendRow(Year, 1994, 2), TrendRow(Year, 2004, 1),
          TrendRow(Decade, 1990, 2), TrendRow(Decade, 2000, 1),
          TrendRow(Month, 1, 1), TrendRow(Month, 3, 1), TrendRow(Month, 6, 1)]
  {
    TaggedTwo(Year, Group(1994, 2), Group(2004, 1));
    TaggedTwo(Decade, Group(1990, 2), Group(2000, 1));
    TaggedThree(Month, Group(1, 1), Group(3, 1), Group(6, 1));
  }

  /** Three films released 1994-01-01, 1994-06-15 and 2004-03-01, and one whose date did not parse. */
  lemma TrendsExample(dates: seq<Option<Date>>)
    requires dates == [Some(Date(1994, 1, 1)), None, Some(Date(1994, 6, 15)), Some(Date(2004, 3, 1))]
    ensures AnalyzeReleaseTrends(dates)
      == [TrendRow(Year, 1994, 2), TrendRow(Year, 2004, 1),
          TrendRow(Decade, 1990, 2), TrendRow(Decade, 2000, 1),
          TrendRow(Month, 1, 1), TrendRow(Month, 3, 1), TrendRow(Month, 6, 1)]
  {
    ExampleCounts(dates);
    ExampleRows();
  }
}
