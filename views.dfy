/**
 * The tables behind the dashboard's charts: the percentage column, the
 * industry and geography views, the heatmap pivot, and the five business
 * use-case tables (investment, skill gap, gender, dependency risk and
 * urban/rural).
 */
module Views {
  import opened Seqs
  import opened Reshape
  import opened Groups
  import opened Filters

  function CountOf(o: Observation): real
  {
    o.count as real
  }

  /** `rows["Count"].sum()`. */
  function TotalCount(rows: seq<Observation>): real
  {
    SumOf(rows, CountOf)
  }

  // ---------------------------------------------------------------------------
  // The value column (HR_Visual.py lines 165-173)
  // ---------------------------------------------------------------------------

  /** `Count / total * 100` for one row. */
  function Percent(count: int, total: real): real
    requires total != 0.0
  {
    (count as real / total) * 100.0
  }

  /** The `Count` column as reals. */
  function Raw(rows: seq<Observation>): (r: seq<real>)
    ensures |r| == |rows|
  {
    if rows == [] then [] else [CountOf(rows[0])] + Raw(rows[1..])
  }

  /** Every row's count as a percentage of `total`. */
  function Scaled(rows: seq<Observation>, total: real): (r: seq<real>)
    requires total != 0.0
    ensures |r| == |rows|
  {
    if rows == [] then [] else [Percent(rows[0].count, total)] + Scaled(rows[1..], total)
  }

  /** `value_col`: the `Value` percentage column when percentages are shown, else `Count`. */
  function Values(rows: seq<Observation>, showPct: bool): (r: seq<real>)
    requires showPct && rows != [] ==> TotalCount(rows) != 0.0
    ensures |r| == |rows|
  {
    if showPct && rows != [] then Scaled(rows, TotalCount(rows)) else Raw(rows)
  }

  lemma RawSum(rows: seq<Observation>)
    ensures SumOf(Raw(rows), Itself) == TotalCount(rows)
  {
    if rows != [] {
      RawSum(rows[1..]);
    }
  }

  lemma PercentAdd(a: real, b: real, t: real)
    requires t != 0.0
    ensures (a / t) * 100.0 + (b / t) * 100.0 == ((a + b) / t) * 100.0
  {
    assert a / t + b / t == (a + b) / t;
  }

  lemma {:induction false} ScaledSum(rows: seq<Observation>, total: real)
    requires total != 0.0
    ensures SumOf(Scaled(rows, total), Itself) == (TotalCount(rows) / total) * 100.0
  {
    if rows != [] {
      ScaledSum(rows[1..], total);
      PercentAdd(CountOf(rows[0]), TotalCount(rows[1..]), total);
    }
  }

  /** The percentage column of a non-empty selection adds up to 100; the count column adds up to the total count. */
  lemma ValuesSum(rows: seq<Observation>, showPct: bool)
    requires showPct && rows != [] ==> TotalCount(rows) != 0.0
    ensures showPct && rows != [] ==> SumOf(Values(rows, showPct), Itself) == 100.0
    ensures !showPct ==> SumOf(Values(rows, showPct), Itself) == TotalCount(rows)
  {
    if showPct && rows != [] {
      var t := TotalCount(rows);
      ScaledSum(rows, t);
      assert t / t == 1.0;
    } else {
      RawSum(rows);
    }
  }

  // ---------------------------------------------------------------------------
  // Keyed values
  // ---------------------------------------------------------------------------

  /** The rows' values, each with the row's group key. */
  function Pairs<K>(rows: seq<Observation>, vals: seq<real>, key: Observation -> Option<K>): (r: seq<Keyed<K>>)
    requires |vals| == |rows|
    ensures |r| == |rows|
  {
    if rows == [] then [] else [Keyed(key(rows[0]), vals[0])] + Pairs(rows[1..], vals[1..], key)
  }

  /** The rows whose key is `k`. */
  function HasKey<K(==)>(key: Observation -> Option<K>, k: K): Observation -> bool
  {
    (o: Observation) => key(o) == Some(k)
  }

  /** The rows with a non-null key. */
  function KeyPresent<K>(key: Observation -> Option<K>): Observation -> bool
  {
    (o: Observation) => key(o).Some?
  }

  /** The distinct non-null keys of the rows. */
  function RowKeys<K>(rows: seq<Observation>, key: Observation -> Option<K>): set<K>
  {
    set o | o in rows && key(o).Some? :: key(o).value
  }

  /** The count of a key's group is the total count of the rows with that key. */
  lemma {:induction false} SumForCounts<K>(rows: seq<Observation>, key: Observation -> Option<K>, k: K)
    ensures SumFor(Pairs(rows, Raw(rows), key), k) == TotalCount(Where(rows, HasKey(key, k)))
  {
    if rows != [] {
      SumForCounts(rows[1..], key, k);
      assert Raw(rows)[1..] == Raw(rows[1..]);
    }
  }

  /** The grouped counts add up to the total count of the rows with a non-null key. */
  lemma {:induction false} SumKeyedCounts<K>(rows: seq<Observation>, key: Observation -> Option<K>)
    ensures SumKeyed(Pairs(rows, Raw(rows), key)) == TotalCount(Where(rows, KeyPresent(key)))
  {
    if rows != [] {
      SumKeyedCounts(rows[1..], key);
      assert Raw(rows)[1..] == Raw(rows[1..]);
    }
  }

  /** When every key is non-null the grouped values add up to the whole column. */
  lemma {:induction false} SumKeyedAll<K>(rows: seq<Observation>, vals: seq<real>, key: Observation -> Option<K>)
    requires |vals| == |rows|
    requires forall o :: o in rows ==> key(o).Some?
    ensures SumKeyed(Pairs(rows, vals, key)) == SumOf(vals, Itself)
  {
    if rows != [] {
      SumKeyedAll(rows[1..], vals[1..], key);
    }
  }

  lemma {:induction false} PairsKeys<K>(rows: seq<Observation>, vals: seq<real>, key: Observation -> Option<K>)
    requires |vals| == |rows|
    ensures KeysOf(Pairs(rows, vals, key)) == RowKeys(rows, key)
  {
    if rows != [] {
      PairsKeys(rows[1..], vals[1..], key);
      var p := Pairs(rows, vals, key);
      assert p == [p[0]] + Pairs(rows[1..], vals[1..], key);
      assert forall q :: q in p <==> q == p[0] || q in Pairs(rows[1..], vals[1..], key);
      assert forall o :: o in rows <==> o == rows[0] || o in rows[1..];
      assert KeysOf(p) == KeysOf(p[1..]) + (if p[0].key.Some? then {p[0].key.value} else {});
      assert RowKeys(rows, key) == RowKeys(rows[1..], key) + (if key(rows[0]).Some? then {key(rows[0]).value} else {});
    }
  }

  /** Grouped counts: one group per distinct non-null key, each the total count of its rows. */
  lemma CountGroupsSpec<K>(rows: seq<Observation>, key: Observation -> Option<K>)
    ensures DistinctBy(GroupSum(Pairs(rows, Raw(rows), key)), KeyOf)
    ensures GroupKeys(GroupSum(Pairs(rows, Raw(rows), key))) == RowKeys(rows, key)
    ensures forall k :: TotalOf(GroupSum(Pairs(rows, Raw(rows), key)), k) == TotalCount(Where(rows, HasKey(key, k)))
    ensures forall g :: g in GroupSum(Pairs(rows, Raw(rows), key)) ==> g.total == TotalCount(Where(rows, HasKey(key, g.key)))
    ensures Total(GroupSum(Pairs(rows, Raw(rows), key))) == TotalCount(Where(rows, KeyPresent(key)))
  {
    var pairs := Pairs(rows, Raw(rows), key);
    GroupSumSpec(pairs);
    GroupSumMembers(pairs);
    PairsKeys(rows, Raw(rows), key);
    SumKeyedCounts(rows, key);
    forall k ensures SumFor(pairs, k) == TotalCount(Where(rows, HasKey(key, k))) {
      SumForCounts(rows, key, k);
    }
    forall g | g in GroupSum(pairs) ensures g.total == TotalCount(Where(rows, HasKey(key, g.key))) {
      SumForCounts(rows, key, g.key);
    }
  }

  // ---------------------------------------------------------------------------
  // Industry and geography views (HR_Visual.py lines 190-195, 207-214)
  // ---------------------------------------------------------------------------

  function IndustryKey(o: Observation): Cell
  {
    o.industry
  }

  function DistrictKey(o: Observation): Cell
  {
    o.district
  }

  function StateKey(o: Observation): Cell
  {
    o.state
  }

  /** `geo_col`: District in the district-wise view, State in the state-wise view. */
  function GeoKey(level: ViewLevel): Observation -> Cell
  {
    if level == DistrictWise then DistrictKey else StateKey
  }

  function IndustryView(rows: seq<Observation>, showPct: bool): seq<Group<string>>
    requires showPct && rows != [] ==> TotalCount(rows) != 0.0
  {
    View(Pairs(rows, Values(rows, showPct), IndustryKey))
  }

  function GeoView(rows: seq<Observation>, level: ViewLevel, showPct: bool): seq<Group<string>>
    requires showPct && rows != [] ==> TotalCount(rows) != 0.0
  {
    View(Pairs(rows, Values(rows, showPct), GeoKey(level)))
  }

  /**
   * The industry view of counts lists every non-null industry once, from the
   * largest total down, each with the total count of its rows, and its
   * totals add up to the total count of the rows with an industry.
   */
  lemma IndustryViewSpec(rows: seq<Observation>)
    ensures SortedDesc(IndustryView(rows, false), GroupTotal)
    ensures DistinctBy(IndustryView(rows, false), KeyOf)
    ensures GroupKeys(IndustryView(rows, false)) == RowKeys(rows, IndustryKey)
    ensures forall g :: g in IndustryView(rows, false) ==> g.total == TotalCount(Where(rows, HasKey(IndustryKey, g.key)))
    ensures Total(IndustryView(rows, false)) == TotalCount(Where(rows, KeyPresent(IndustryKey)))
  {
    KeyedViewSpec(rows, IndustryKey);
  }

  /** The geography view of counts: the same, keyed by district or state. */
  lemma GeoViewSpec(rows: seq<Observation>, level: ViewLevel)
    ensures SortedDesc(GeoView(rows, level, false), GroupTotal)
    ensures DistinctBy(GeoView(rows, level, false), KeyOf)
    ensures GroupKeys(GeoView(rows, level, false)) == RowKeys(rows, GeoKey(level))
    ensures forall g :: g in GeoView(rows, level, false) ==> g.total == TotalCount(Where(rows, HasKey(GeoKey(level), g.key)))
    ensures Total(GeoView(rows, level, false)) == TotalCount(Where(rows, KeyPresent(GeoKey(level))))
  {
    KeyedViewSpec(rows, GeoKey(level));
  }

  lemma KeyedViewSpec(rows: seq<Observation>, key: Observation -> Cell)
    ensures SortedDesc(View(Pairs(rows, Raw(rows), key)), GroupTotal)
    ensures DistinctBy(View(Pairs(rows, Raw(rows), key)), KeyOf)
    ensures GroupKeys(View(Pairs(rows, Raw(rows), key))) == RowKeys(rows, key)
    ensures forall g :: g in View(Pairs(rows, Raw(rows), key)) ==> g.total == TotalCount(Where(rows, HasKey(key, g.key)))
    ensures Total(View(Pairs(rows, Raw(rows), key))) == TotalCount(Where(rows, KeyPresent(key)))
  {
    var pairs := Pairs(rows, Raw(rows), key);
    ViewSpec(pairs);
    PairsKeys(rows, Raw(rows), key);
    SumKeyedCounts(rows, key);
    forall g | g in View(pairs) ensures g.total == TotalCount(Where(rows, HasKey(key, g.key))) {
      SumForCounts(rows, key, g.key);
    }
  }

  /** In percentage mode a key's value is its rows' share of `total`, in percent. */
  lemma {:induction false} SumForScaled<K>(rows: seq<Observation>, key: Observation -> Option<K>, k: K, total: real)
    requires total != 0.0
    ensures SumFor(Pairs(rows, Scaled(rows, total), key), k) == (TotalCount(Where(rows, HasKey(key, k))) / total) * 100.0
  {
    if rows == [] {
      assert 0.0 / total == 0.0;
    } else {
      SumForScaled(rows[1..], key, k, total);
      ScaledHead(rows, key, k, total);
      PercentStep(SumFor(Pairs(rows, Scaled(rows, total), key), k),
                  SumFor(Pairs(rows[1..], Scaled(rows[1..], total), key), k),
                  if key(rows[0]) == Some(k) then CountOf(rows[0]) else 0.0,
                  TotalCount(Where(rows[1..], HasKey(key, k))),
                  TotalCount(Where(rows, HasKey(key, k))), total);
    }
  }

  /** The first row adds its own percentage, and only to its own key. */
  lemma ScaledHead<K>(rows: seq<Observation>, key: Observation -> Option<K>, k: K, total: real)
    requires total != 0.0 && rows != []
    ensures SumFor(Pairs(rows, Scaled(rows, total), key), k) ==
            ((if key(rows[0]) == Some(k) then CountOf(rows[0]) else 0.0) / total) * 100.0 +
            SumFor(Pairs(rows[1..], Scaled(rows[1..], total), key), k)
    ensures TotalCount(Where(rows, HasKey(key, k))) ==
            (if key(rows[0]) == Some(k) then CountOf(rows[0]) else 0.0) + TotalCount(Where(rows[1..], HasKey(key, k)))
  {
    var tail := rows[1..];
    assert Scaled(rows, total)[1..] == Scaled(tail, total);
    if key(rows[0]) == Some(k) {
      assert Where(rows, HasKey(key, k)) == [rows[0]] + Where(tail, HasKey(key, k));
    } else {
      assert Where(rows, HasKey(key, k)) == Where(tail, HasKey(key, k));
      assert (0.0 / total) * 100.0 == 0.0;
    }
  }

  /** One step of a sum of percentages of the same total. */
  lemma PercentStep(sum: real, tailSum: real, x: real, y: real, whole: real, t: real)
    requires t != 0.0 && sum == (x / t) * 100.0 + tailSum && tailSum == (y / t) * 100.0 && whole == x + y
    ensures sum == (whole / t) * 100.0
  {
    PercentAdd(x, y, t);
  }

  /**
   * A view of percentages lists every non-null key once, from the largest
   * value down, each with its rows' share of the selection's total count.
   */
  lemma KeyedPercentViewSpec(rows: seq<Observation>, key: Observation -> Cell)
    requires TotalCount(rows) != 0.0
    ensures SortedDesc(View(Pairs(rows, Values(rows, true), key)), GroupTotal)
    ensures DistinctBy(View(Pairs(rows, Values(rows, true), key)), KeyOf)
    ensures GroupKeys(View(Pairs(rows, Values(rows, true), key))) == RowKeys(rows, key)
    ensures forall g :: g in View(Pairs(rows, Values(rows, true), key)) ==>
              g.total == (TotalCount(Where(rows, HasKey(key, g.key))) / TotalCount(rows)) * 100.0
  {
    assert rows != [];
    var t := TotalCount(rows);
    var pairs := Pairs(rows, Scaled(rows, t), key);
    ViewSpec(pairs);
    PairsKeys(rows, Scaled(rows, t), key);
    forall g | g in View(pairs) ensures g.total == (TotalCount(Where(rows, HasKey(key, g.key))) / t) * 100.0 {
      SumForScaled(rows, key, g.key, t);
    }
  }

  /** The industry view of percentages: each industry's share of the selection, largest first. */
  lemma IndustryPercentViewSpec(rows: seq<Observation>)
    requires TotalCount(rows) != 0.0
    ensures SortedDesc(IndustryView(rows, true), GroupTotal)
    ensures DistinctBy(IndustryView(rows, true), KeyOf)
    ensures GroupKeys(IndustryView(rows, true)) == RowKeys(rows, IndustryKey)
    ensures forall g :: g in IndustryView(rows, true) ==>
              g.total == (TotalCount(Where(rows, HasKey(IndustryKey, g.key))) / TotalCount(rows)) * 100.0
  {
    KeyedPercentViewSpec(rows, IndustryKey);
  }

  /** The geography view of percentages: the same, keyed by district or state. */
  lemma GeoPercentViewSpec(rows: seq<Observation>, level: ViewLevel)
    requires TotalCount(rows) != 0.0
    ensures SortedDesc(GeoView(rows, level, true), GroupTotal)
    ensures DistinctBy(GeoView(rows, level, true), KeyOf)
    ensures GroupKeys(GeoView(rows, level, true)) == RowKeys(rows, GeoKey(level))
    ensures forall g :: g in GeoView(rows, level, true) ==>
              g.total == (TotalCount(Where(rows, HasKey(GeoKey(level), g.key))) / TotalCount(rows)) * 100.0
  {
    KeyedPercentViewSpec(rows, GeoKey(level));
  }

  /** In percentage mode, when every row has a key, a view's percentages add up to 100. */
  lemma PercentViewTotal(rows: seq<Observation>, key: Observation -> Cell)
    requires rows != [] && TotalCount(rows) != 0.0
    requires forall o :: o in rows ==> key(o).Some?
    ensures Total(View(Pairs(rows, Values(rows, true), key))) == 100.0
  {
    var vals := Values(rows, true);
    ViewSpec(Pairs(rows, vals, key));
    SumKeyedAll(rows, vals, key);
    ValuesSum(rows, true);
  }

  // ---------------------------------------------------------------------------
  // Heatmap pivot (HR_Visual.py lines 230-236)
  // ---------------------------------------------------------------------------

  /** The (industry, geography) cell of a row, or null when either is null. */
  function CellKey(level: ViewLevel): Observation -> Option<(string, string)>
  {
    (o: Observation) =>
      var g := GeoKey(level)(o);
      if o.industry.Some? && g.Some? then Some((o.industry.value, g.value)) else None
  }

  /** `pivot_table(values, index=Industry_Category, columns=geo_col, aggfunc="sum", fill_value=0)`. */
  datatype Pivot = Pivot(industries: set<string>, geos: set<string>, sums: seq<Group<(string, string)>>)

  function PivotView(rows: seq<Observation>, level: ViewLevel, showPct: bool): Pivot
    requires showPct && rows != [] ==> TotalCount(rows) != 0.0
  {
    var keys := RowKeys(rows, CellKey(level));
    Pivot(set k | k in keys :: k.0, set k | k in keys :: k.1,
          GroupSum(Pairs(rows, Values(rows, showPct), CellKey(level))))
  }

  /** One cell of the pivot; a combination with no rows reads 0. */
  function PivotCell(p: Pivot, industry: string, geo: string): real
  {
    TotalOf(p.sums, (industry, geo))
  }

  /**
   * The pivot has a row for exactly the industries and a column for exactly
   * the geographies that occur together in some row.
   */
  lemma PivotAxes(rows: seq<Observation>, level: ViewLevel, showPct: bool)
    requires showPct && rows != [] ==> TotalCount(rows) != 0.0
    ensures forall i :: i in PivotView(rows, level, showPct).industries <==>
              exists o :: o in rows && o.industry == Some(i) && GeoKey(level)(o).Some?
    ensures forall g :: g in PivotView(rows, level, showPct).geos <==>
              exists o :: o in rows && o.industry.Some? && GeoKey(level)(o) == Some(g)
  {
    var p := PivotView(rows, level, showPct);
    var keys := RowKeys(rows, CellKey(level));
    forall i ensures i in p.industries <==> exists o :: o in rows && o.industry == Some(i) && GeoKey(level)(o).Some? {
      if i in p.industries {
        var k :| k in keys && k.0 == i;
        var o :| o in rows && CellKey(level)(o).Some? && CellKey(level)(o).value == k;
        assert o.industry == Some(i) && GeoKey(level)(o).Some?;
      }
      if exists o :: o in rows && o.industry == Some(i) && GeoKey(level)(o).Some? {
        var o :| o in rows && o.industry == Some(i) && GeoKey(level)(o).Some?;
        assert CellKey(level)(o) == Some((i, GeoKey(level)(o).value));
        assert (i, GeoKey(level)(o).value) in keys;
      }
    }
    forall g ensures g in p.geos <==> exists o :: o in rows && o.industry.Some? && GeoKey(level)(o) == Some(g) {
      if g in p.geos {
        var k :| k in keys && k.1 == g;
        var o :| o in rows && CellKey(level)(o).Some? && CellKey(level)(o).value == k;
        assert o.industry.Some? && GeoKey(level)(o) == Some(g);
      }
      if exists o :: o in rows && o.industry.Some? && GeoKey(level)(o) == Some(g) {
        var o :| o in rows && o.industry.Some? && GeoKey(level)(o) == Some(g);
        assert CellKey(level)(o) == Some((o.industry.value, g));
        assert (o.industry.value, g) in keys;
      }
    }
  }

  /**
   * The pivot of counts has a row for exactly the industries and a column
   * for exactly the geographies that occur together in some row, every cell
   * holds the total count of the rows of that industry and geography (0 for
   * a combination with no rows), and the cells of the heatmap add up to the
   * total count of the rows with both keys.
   */
  lemma PivotSpec(rows: seq<Observation>, level: ViewLevel)
    ensures forall i :: i in PivotView(rows, level, false).industries <==>
              exists o :: o in rows && o.industry == Some(i) && GeoKey(level)(o).Some?
    ensures forall g :: g in PivotView(rows, level, false).geos <==>
              exists o :: o in rows && o.industry.Some? && GeoKey(level)(o) == Some(g)
    ensures forall i, g :: PivotCell(PivotView(rows, level, false), i, g) ==
              TotalCount(Where(rows, HasKey(CellKey(level), (i, g))))
    ensures Total(PivotView(rows, level, false).sums) == TotalCount(Where(rows, KeyPresent(CellKey(level))))
  {
    CountGroupsSpec(rows, CellKey(level));
    PivotAxes(rows, level, false);
  }

  /**
   * The pivot of percentages has the same rows and columns, and every cell
   * holds its combination's share of the selection's total count, in percent.
   */
  lemma PivotPercentSpec(rows: seq<Observation>, level: ViewLevel)
    requires TotalCount(rows) != 0.0
    ensures forall i :: i in PivotView(rows, level, true).industries <==>
              exists o :: o in rows && o.industry == Some(i) && GeoKey(level)(o).Some?
    ensures forall g :: g in PivotView(rows, level, true).geos <==>
              exists o :: o in rows && o.industry.Some? && GeoKey(level)(o) == Some(g)
    ensures forall i, g :: PivotCell(PivotView(rows, level, true), i, g) ==
              (TotalCount(Where(rows, HasKey(CellKey(level), (i, g)))) / TotalCount(rows)) * 100.0
  {
    PivotAxes(rows, level, true);
    var t := TotalCount(rows);
    var pairs := Pairs(rows, Scaled(rows, t), CellKey(level));
    assert rows != [];
    GroupSumSpec(pairs);
    forall i, g ensures PivotCell(PivotView(rows, level, true), i, g) ==
                        (TotalCount(Where(rows, HasKey(CellKey(level), (i, g)))) / t) * 100.0 {
      SumForScaled(rows, CellKey(level), (i, g), t);
    }
  }

  // ---------------------------------------------------------------------------
  // Investment opportunity (HR_Visual.py lines 264-278)
  // ---------------------------------------------------------------------------

  /** One row of `invest_df`. */
  datatype Investment = Investment(district: string, totalWorkers: real, industryCount: nat, score: Option<real>)

  /** The distinct non-null industries of one district's rows. */
  function DistrictIndustries(rows: seq<Observation>, d: string): set<string>
  {
    set o | o in rows && o.district == Some(d) && o.industry.Some? :: o.industry.value
  }

  /** `Total_Workers / Industry_Count`; no finite score when the district has no non-null industry. */
  function Score(total: real, industries: nat): (r: Option<real>)
    ensures r.Some? <==> industries > 0
  {
    if industries == 0 then None else Some(total / industries as real)
  }

  /** A score times the district's industry count gives back its total. */
  lemma ScoreTimesCount(total: real, industries: nat)
    requires industries > 0
    ensures Score(total, industries).value * industries as real == total
  {
  }

  /** One row of `invest_df` from one district's summed count. */
  function InvestmentOf(rows: seq<Observation>, g: Group<string>): Investment
  {
    var n := |DistrictIndustries(rows, g.key)|;
    Investment(g.key, g.total, n, Score(g.total, n))
  }

  function InvestmentRows(rows: seq<Observation>, gs: seq<Group<string>>): (r: seq<Investment>)
    ensures |r| == |gs|
    ensures forall i :: 0 <= i < |gs| ==> r[i] == InvestmentOf(rows, gs[i])
  {
    if gs == [] then [] else [InvestmentOf(rows, gs[0])] + InvestmentRows(rows, gs[1..])
  }

  /** `invest_df` before sorting: one row per non-null district. */
  function InvestmentTable(rows: seq<Observation>): seq<Investment>
  {
    InvestmentRows(rows, GroupSum(Pairs(rows, Raw(rows), DistrictKey)))
  }

  predicate Scored(e: Investment)
  {
    e.score.Some?
  }

  function ScoreRank(e: Investment): real
  {
    if e.score.Some? then e.score.value else 0.0
  }

  /** `invest_df.sort_values("Investment_Score", ascending=False)`, districts without a finite score last. */
  function InvestmentView(rows: seq<Observation>): seq<Investment>
  {
    var t := InvestmentTable(rows);
    SortDesc(Where(t, Scored), ScoreRank) + Where(t, Not(Scored))
  }

  function InvestmentDistrict(e: Investment): string
  {
    e.district
  }

  /**
   * A row of the investment table is right for its district: the total
   * count of the district's rows, the number of distinct non-null industries
   * among them, and a score, present exactly when that number is not 0,
   * that is the total divided by that number.
   */
  predicate InvestmentEntry(rows: seq<Observation>, e: Investment)
  {
    && e.totalWorkers == TotalCount(Where(rows, HasKey(DistrictKey, e.district)))
    && e.industryCount == |DistrictIndustries(rows, e.district)|
    && (e.score.Some? <==> e.industryCount > 0)
    && (e.score.Some? ==> e.score.value == e.totalWorkers / e.industryCount as real)
  }

  /**
   * The investment table lists each non-null district once, with the total
   * count of its rows, the number of distinct non-null industries among
   * them, and a score that is the total divided by that number.
   */
  lemma InvestmentTableSpec(rows: seq<Observation>)
    ensures DistinctBy(InvestmentTable(rows), InvestmentDistrict)
    ensures forall e :: e in InvestmentTable(rows) ==> e.district in RowKeys(rows, DistrictKey)
    ensures forall d :: d in RowKeys(rows, DistrictKey) ==> exists e :: e in InvestmentTable(rows) && e.district == d
    ensures forall e :: e in InvestmentTable(rows) ==> InvestmentEntry(rows, e)
  {
    var gs := GroupSum(Pairs(rows, Raw(rows), DistrictKey));
    CountGroupsSpec(rows, DistrictKey);
    InvestmentRowsSpec(rows, gs);
  }

  lemma InvestmentRowsSpec(rows: seq<Observation>, gs: seq<Group<string>>)
    requires DistinctBy(gs, KeyOf)
    requires GroupKeys(gs) == RowKeys(rows, DistrictKey)
    requires forall g :: g in gs ==> g.total == TotalCount(Where(rows, HasKey(DistrictKey, g.key)))
    ensures DistinctBy(InvestmentRows(rows, gs), InvestmentDistrict)
    ensures forall e :: e in InvestmentRows(rows, gs) ==> e.district in RowKeys(rows, DistrictKey)
    ensures forall d :: d in RowKeys(rows, DistrictKey) ==> exists e :: e in InvestmentRows(rows, gs) && e.district == d
    ensures forall e :: e in InvestmentRows(rows, gs) ==> InvestmentEntry(rows, e)
  {
    InvestmentRowsDistinct(rows, gs);
    InvestmentRowsCover(rows, gs);
    InvestmentRowsEntries(rows, gs);
  }

  lemma InvestmentRowsDistinct(rows: seq<Observation>, gs: seq<Group<string>>)
    requires DistinctBy(gs, KeyOf)
    ensures DistinctBy(InvestmentRows(rows, gs), InvestmentDistrict)
  {
    var t := InvestmentRows(rows, gs);
    forall i, j | 0 <= i < j < |t| ensures InvestmentDistrict(t[i]) != InvestmentDistrict(t[j]) {
      assert KeyOf(gs[i]) != KeyOf(gs[j]);
    }
  }

  lemma InvestmentRowsCover(rows: seq<Observation>, gs: seq<Group<string>>)
    requires GroupKeys(gs) == RowKeys(rows, DistrictKey)
    ensures forall e :: e in InvestmentRows(rows, gs) ==> e.district in RowKeys(rows, DistrictKey)
    ensures forall d :: d in RowKeys(rows, DistrictKey) ==> exists e :: e in InvestmentRows(rows, gs) && e.district == d
  {
    var t := InvestmentRows(rows, gs);
    forall e | e in t ensures e.district in RowKeys(rows, DistrictKey) {
      var i :| 0 <= i < |t| && t[i] == e;
      assert gs[i] in gs;
    }
    forall d | d in RowKeys(rows, DistrictKey) ensures exists e :: e in t && e.district == d {
      assert d in GroupKeys(gs);
      var g :| g in gs && g.key == d;
      var i :| 0 <= i < |gs| && gs[i] == g;
      assert t[i] in t;
    }
  }

  lemma InvestmentRowsEntries(rows: seq<Observation>, gs: seq<Group<string>>)
    requires forall g :: g in gs ==> g.total == TotalCount(Where(rows, HasKey(DistrictKey, g.key)))
    ensures forall e :: e in InvestmentRows(rows, gs) ==> InvestmentEntry(rows, e)
  {
    var t := InvestmentRows(rows, gs);
    forall i | 0 <= i < |t| ensures InvestmentEntry(rows, t[i]) {
      assert gs[i] in gs;
      InvestmentOfEntry(rows, gs[i]);
    }
  }

  lemma InvestmentOfEntry(rows: seq<Observation>, g: Group<string>)
    requires g.total == TotalCount(Where(rows, HasKey(DistrictKey, g.key)))
    ensures InvestmentEntry(rows, InvestmentOf(rows, g))
  {
    var n := |DistrictIndustries(rows, g.key)|;
    var sc := Score(g.total, n);
    assert InvestmentOf(rows, g) == Investment(g.key, g.total, n, sc);
  }

  /** The sorted investment table is a reordering of the table with the scored districts first, from the highest score down. */
  lemma InvestmentOrder(rows: seq<Observation>)
    ensures multiset(InvestmentView(rows)) == multiset(InvestmentTable(rows))
    ensures forall i, j :: 0 <= i < j < |InvestmentView(rows)| && Scored(InvestmentView(rows)[j]) ==>
              Scored(InvestmentView(rows)[i]) && InvestmentView(rows)[i].score.value >= InvestmentView(rows)[j].score.value
  {
    var t := InvestmentTable(rows);
    var sorted := SortDesc(Where(t, Scored), ScoreRank);
    var rest := Where(t, Not(Scored));
    WherePartition(t, Scored);
    var v := InvestmentView(rows);
    assert v == sorted + rest;
    ScoredFirst(sorted, rest);
  }

  lemma ScoredFirst(sorted: seq<Investment>, rest: seq<Investment>)
    requires SortedDesc(sorted, ScoreRank)
    requires forall x :: x in multiset(sorted) ==> Scored(x)
    requires forall x :: x in rest ==> !Scored(x)
    ensures forall i, j :: 0 <= i < j < |sorted + rest| && Scored((sorted + rest)[j]) ==>
              Scored((sorted + rest)[i]) && (sorted + rest)[i].score.value >= (sorted + rest)[j].score.value
  {
    var v := sorted + rest;
    forall i, j | 0 <= i < j < |v| && Scored(v[j])
      ensures Scored(v[i]) && v[i].score.value >= v[j].score.value
    {
      assert v[i] == sorted[i] && v[j] == sorted[j];
      assert sorted[i] in multiset(sorted);
      assert ScoreRank(sorted[i]) >= ScoreRank(sorted[j]);
    }
  }

  // ---------------------------------------------------------------------------
  // Skill gap and dependency risk (HR_Visual.py lines 290-294, 331-340)
  // ---------------------------------------------------------------------------

  /** The (district, industry) of a row, or null when either is null. */
  function DistrictIndustryKey(o: Observation): Option<(string, string)>
  {
    if o.district.Some? && o.industry.Some? then Some((o.district.value, o.industry.value)) else None
  }

  /** `groupby(["District", "Industry_Category"])["Count"].sum()` (`skill_df` and `dep_df`). */
  function DistrictIndustryTotals(rows: seq<Observation>): seq<Group<(string, string)>>
  {
    GroupSum(Pairs(rows, Raw(rows), DistrictIndustryKey))
  }

  /**
   * The skill-gap table lists each (district, industry) pair that occurs in
   * the rows once, with the total count of its rows, and nothing else.
   */
  lemma SkillGapSpec(rows: seq<Observation>)
    ensures DistinctBy(DistrictIndustryTotals(rows), KeyOf)
    ensures GroupKeys(DistrictIndustryTotals(rows)) ==
            set o | o in rows && o.district.Some? && o.industry.Some? :: (o.district.value, o.industry.value)
    ensures forall g :: g in DistrictIndustryTotals(rows) ==>
              g.total == TotalCount(Where(rows, HasKey(DistrictIndustryKey, g.key)))
  {
    CountGroupsSpec(rows, DistrictIndustryKey);
    assert RowKeys(rows, DistrictIndustryKey) ==
           set o | o in rows && o.district.Some? && o.industry.Some? :: (o.district.value, o.industry.value);
  }

  /** One row of `dep_df` with its `Share`. */
  datatype Dependency = Dependency(district: string, industry: string, count: real, share: Option<real>)

  /** The sum of the counts of one district's groups: `groupby("District")["Count"]` before `x / x.sum()`. */
  function DistrictSum(gs: seq<Group<(string, string)>>, d: string): real
  {
    if gs == [] then 0.0
    else (if gs[0].key.0 == d then gs[0].total else 0.0) + DistrictSum(gs[1..], d)
  }

  /**
   * `x / x.sum()`; no share when the district's sum is 0. With non-negative
   * counts pandas then computes 0 / 0, NaN, which never exceeds 0.6
   * (`NoShareMeansZeroCounts`).
   */
  function Share(count: real, districtSum: real): Option<real>
  {
    if districtSum == 0.0 then None else Some(count / districtSum)
  }

  function DependencyRows(all: seq<Group<(string, string)>>, gs: seq<Group<(string, string)>>): (r: seq<Dependency>)
    ensures |r| == |gs|
    ensures forall i :: 0 <= i < |gs| ==>
              r[i] == Dependency(gs[i].key.0, gs[i].key.1, gs[i].total, Share(gs[i].total, DistrictSum(all, gs[i].key.0)))
  {
    if gs == [] then []
    else
      [Dependency(gs[0].key.0, gs[0].key.1, gs[0].total, Share(gs[0].total, DistrictSum(all, gs[0].key.0)))]
      + DependencyRows(all, gs[1..])
  }

  /** `dep_df` with its `Share` column. */
  function DependencyTable(rows: seq<Observation>): seq<Dependency>
  {
    var gs := DistrictIndustryTotals(rows);
    DependencyRows(gs, gs)
  }

  predicate AtRisk(e: Dependency)
  {
    AtRiskShare(e.share)
  }

  /** `risk_df = dep_df[dep_df["Share"] > 0.6]`. */
  function RiskView(rows: seq<Observation>): (r: seq<Dependency>)
    ensures forall e :: e in r ==> e in DependencyTable(rows) && e.share.Some? && e.share.value > 0.6
    ensures forall e :: e in DependencyTable(rows) && AtRisk(e) ==> e in r
  {
    Where(DependencyTable(rows), AtRisk)
  }

  function ShareValue(e: Dependency): real
  {
    if e.share.Some? then e.share.value else 0.0
  }

  /** The entries of district `d`. */
  function InDistrict(d: string): Dependency -> bool
  {
    (e: Dependency) => e.district == d
  }

  lemma DivAdd(x: real, y: real, t: real)
    requires t != 0.0
    ensures x / t + y / t == (x + y) / t
  {
  }

  /** One step of a sum of fractions over the same denominator. */
  lemma DivStep(sum: real, tailSum: real, x: real, y: real, whole: real, t: real)
    requires t != 0.0 && sum == x / t + tailSum && tailSum == y / t && whole == x + y
    ensures sum == whole / t
  {
    DivAdd(x, y, t);
  }

  lemma {:induction false} SharesOfDistrict(all: seq<Group<(string, string)>>, gs: seq<Group<(string, string)>>, d: string)
    requires DistrictSum(all, d) != 0.0
    ensures SumOf(Where(DependencyRows(all, gs), InDistrict(d)), ShareValue) == DistrictSum(gs, d) / DistrictSum(all, d)
  {
    var t := DistrictSum(all, d);
    if gs == [] {
      assert DependencyRows(all, gs) == [];
    } else {
      SharesOfDistrict(all, gs[1..], d);
      ShareHead(all, gs, d);
      DivStep(SumOf(Where(DependencyRows(all, gs), InDistrict(d)), ShareValue),
              SumOf(Where(DependencyRows(all, gs[1..]), InDistrict(d)), ShareValue),
              if gs[0].key.0 == d then gs[0].total else 0.0, DistrictSum(gs[1..], d), DistrictSum(gs, d), t);
    }
  }

  /** The first group contributes its own share, and only to its own district. */
  lemma ShareHead(all: seq<Group<(string, string)>>, gs: seq<Group<(string, string)>>, d: string)
    requires DistrictSum(all, d) != 0.0 && gs != []
    ensures SumOf(Where(DependencyRows(all, gs), InDistrict(d)), ShareValue) ==
            (if gs[0].key.0 == d then gs[0].total else 0.0) / DistrictSum(all, d) +
            SumOf(Where(DependencyRows(all, gs[1..]), InDistrict(d)), ShareValue)
    ensures DistrictSum(gs, d) == (if gs[0].key.0 == d then gs[0].total else 0.0) + DistrictSum(gs[1..], d)
  {
    var r := DependencyRows(all, gs);
    var tail := DependencyRows(all, gs[1..]);
    assert r == [r[0]] + tail;
    var w := Where(tail, InDistrict(d));
    if gs[0].key.0 == d {
      assert Where(r, InDistrict(d)) == [r[0]] + w;
      assert ShareValue(r[0]) == gs[0].total / DistrictSum(all, d);
    } else {
      assert Where(r, InDistrict(d)) == w;
      assert 0.0 / DistrictSum(all, d) == 0.0;
    }
  }

  lemma DivSelf(t: real)
    requires t != 0.0
    ensures t / t == 1.0
  {
  }

  /** Within every district whose counts do not sum to 0, the shares sum to 1. */
  lemma SharesSumToOne(rows: seq<Observation>, d: string)
    requires DistrictSum(DistrictIndustryTotals(rows), d) != 0.0
    ensures SumOf(Where(DependencyTable(rows), InDistrict(d)), ShareValue) == 1.0
  {
    var gs := DistrictIndustryTotals(rows);
    SharesOfDistrict(gs, gs, d);
    DivSelf(DistrictSum(gs, d));
  }

  /** Two different groups of one district together hold no more than the district's sum. */
  lemma {:induction false} TwoWithinSum(gs: seq<Group<(string, string)>>, a: nat, b: nat)
    requires a < b < |gs| && gs[a].key.0 == gs[b].key.0
    requires forall g :: g in gs ==> g.total >= 0.0
    ensures gs[a].total + gs[b].total <= DistrictSum(gs, gs[a].key.0)
  {
    var d := gs[a].key.0;
    if a == 0 {
      OneWithinSum(gs[1..], b - 1, d);
    } else {
      TwoWithinSum(gs[1..], a - 1, b - 1);
    }
  }

  lemma {:induction false} OneWithinSum(gs: seq<Group<(string, string)>>, a: nat, d: string)
    requires a < |gs| && gs[a].key.0 == d
    requires forall g :: g in gs ==> g.total >= 0.0
    ensures gs[a].total <= DistrictSum(gs, d)
  {
    NonNegSum(gs[1..], d);
    if a > 0 {
      OneWithinSum(gs[1..], a - 1, d);
    }
  }

  lemma {:induction false} NonNegSum(gs: seq<Group<(string, string)>>, d: string)
    requires forall g :: g in gs ==> g.total >= 0.0
    ensures DistrictSum(gs, d) >= 0.0
  {
    if gs != [] {
      NonNegSum(gs[1..], d);
    }
  }

  lemma {:induction false} NonNegCounts(rows: seq<Observation>, p: Observation -> bool)
    requires forall o :: o in rows ==> o.count >= 0
    ensures TotalCount(Where(rows, p)) >= 0.0
  {
    if rows != [] {
      NonNegCounts(rows[1..], p);
    }
  }

  /** Two groups of one district cannot both take more than 0.6 of the district's non-negative sum. */
  lemma NotBothAtRisk(gs: seq<Group<(string, string)>>, a: nat, b: nat)
    requires a < b < |gs| && gs[a].key.0 == gs[b].key.0
    requires forall g :: g in gs ==> g.total >= 0.0
    ensures var s := DistrictSum(gs, gs[a].key.0);
            !(AtRiskShare(Share(gs[a].total, s)) && AtRiskShare(Share(gs[b].total, s)))
  {
    var s := DistrictSum(gs, gs[a].key.0);
    TwoWithinSum(gs, a, b);
    NonNegSum(gs, gs[a].key.0);
    if s != 0.0 && gs[a].total / s > 0.6 && gs[b].total / s > 0.6 {
      AboveShare(gs[a].total, s);
      AboveShare(gs[b].total, s);
    }
  }

  lemma AboveShare(x: real, s: real)
    requires s > 0.0 && x / s > 0.6
    ensures x > 0.6 * s
  {
    var q := x / s;
    assert x == q * s;
    assert (q - 0.6) * s > 0.0;
  }

  /** `Share > 0.6`; a missing share never passes. */
  predicate AtRiskShare(share: Option<real>)
  {
    share.Some? && share.value > 0.6
  }

  /**
   * With non-negative counts, no district has two industries in the risk
   * table: two shares above 0.6 would need more than the whole district.
   */
  lemma AtMostOneRiskPerDistrict(rows: seq<Observation>)
    requires forall o :: o in rows ==> o.count >= 0
    ensures forall i, j :: 0 <= i < j < |RiskView(rows)| ==> RiskView(rows)[i].district != RiskView(rows)[j].district
  {
    var gs := DistrictIndustryTotals(rows);
    GroupSumSpec(Pairs(rows, Raw(rows), DistrictIndustryKey));
    NonNegGroups(rows);
    RiskDistricts(gs);
    assert RiskView(rows) == Where(DependencyRows(gs, gs), AtRisk);
  }

  /** With non-negative counts every (district, industry) total is non-negative. */
  lemma NonNegGroups(rows: seq<Observation>)
    requires forall o :: o in rows ==> o.count >= 0
    ensures forall g :: g in DistrictIndustryTotals(rows) ==> g.total >= 0.0
  {
    var pairs := Pairs(rows, Raw(rows), DistrictIndustryKey);
    GroupSumMembers(pairs);
    NonNegPairs(rows, DistrictIndustryKey);
    forall g | g in DistrictIndustryTotals(rows) ensures g.total >= 0.0 {
      NonNegSumFor(pairs, g.key);
    }
  }

  /** Non-negative totals that sum to 0 within a district are all 0. */
  lemma {:induction false} ZeroDistrictSum(gs: seq<Group<(string, string)>>, d: string)
    requires forall g :: g in gs ==> g.total >= 0.0
    requires DistrictSum(gs, d) == 0.0
    ensures forall g :: g in gs && g.key.0 == d ==> g.total == 0.0
  {
    if gs != [] {
      NonNegSum(gs[1..], d);
      ZeroDistrictSum(gs[1..], d);
      assert forall g :: g in gs ==> g == gs[0] || g in gs[1..];
    }
  }

  /**
   * With non-negative counts, a district gets no share only when every one
   * of its (district, industry) counts is 0, where `x / x.sum()` is 0 / 0,
   * NaN in pandas, which never exceeds 0.6.
   */
  lemma NoShareMeansZeroCounts(rows: seq<Observation>, d: string)
    requires forall o :: o in rows ==> o.count >= 0
    requires DistrictSum(DistrictIndustryTotals(rows), d) == 0.0
    ensures forall e :: e in DependencyTable(rows) && e.district == d ==> e.share.None? && e.count == 0.0
  {
    var gs := DistrictIndustryTotals(rows);
    NonNegGroups(rows);
    ZeroDistrictSum(gs, d);
    var t := DependencyTable(rows);
    forall e | e in t && e.district == d ensures e.share.None? && e.count == 0.0 {
      var i :| 0 <= i < |t| && t[i] == e;
      assert gs[i] in gs;
    }
  }

  lemma {:induction false} NonNegPairs<K>(rows: seq<Observation>, key: Observation -> Option<K>)
    requires forall o :: o in rows ==> o.count >= 0
    ensures forall p :: p in Pairs(rows, Raw(rows), key) ==> p.value >= 0.0
  {
    if rows != [] {
      NonNegPairs(rows[1..], key);
      assert Raw(rows)[1..] == Raw(rows[1..]);
      assert Pairs(rows, Raw(rows), key) == [Keyed(key(rows[0]), CountOf(rows[0]))] + Pairs(rows[1..], Raw(rows[1..]), key);
    }
  }

  lemma {:induction false} NonNegSumFor<K>(pairs: seq<Keyed<K>>, k: K)
    requires forall p :: p in pairs ==> p.value >= 0.0
    ensures SumFor(pairs, k) >= 0.0
  {
    if pairs != [] {
      NonNegSumFor(pairs[1..], k);
    }
  }

  lemma DependencyDistinct(gs: seq<Group<(string, string)>>)
    requires DistinctBy(gs, KeyOf)
    ensures DistinctBy(DependencyRows(gs, gs), EntryKey)
  {
    var t := DependencyRows(gs, gs);
    forall i, j | 0 <= i < j < |t| ensures EntryKey(t[i]) != EntryKey(t[j]) {
      assert KeyOf(gs[i]) != KeyOf(gs[j]);
    }
  }

  lemma RiskDistricts(gs: seq<Group<(string, string)>>)
    requires DistinctBy(gs, KeyOf)
    requires forall g :: g in gs ==> g.total >= 0.0
    ensures var risk := Where(DependencyRows(gs, gs), AtRisk);
            forall i, j :: 0 <= i < j < |risk| ==> risk[i].district != risk[j].district
  {
    var t := DependencyRows(gs, gs);
    var risk := Where(t, AtRisk);
    DependencyDistinct(gs);
    WhereDistinct(t, AtRisk, EntryKey);
    forall i, j | 0 <= i < j < |risk| ensures risk[i].district != risk[j].district {
      if risk[i].district == risk[j].district {
        assert EntryKey(risk[i]) != EntryKey(risk[j]);
        assert risk[i] in risk && risk[j] in risk;
        var a :| 0 <= a < |t| && t[a] == risk[i];
        var b :| 0 <= b < |t| && t[b] == risk[j];
        RiskPair(gs, a, b);
      }
    }
  }

  lemma RiskPair(gs: seq<Group<(string, string)>>, a: nat, b: nat)
    requires forall g :: g in gs ==> g.total >= 0.0
    requires a < |gs| && b < |gs| && a != b
    requires gs[a].key.0 == gs[b].key.0
    ensures !(AtRisk(DependencyRows(gs, gs)[a]) && AtRisk(DependencyRows(gs, gs)[b]))
  {
    var t := DependencyRows(gs, gs);
    assert t[a] == Dependency(gs[a].key.0, gs[a].key.1, gs[a].total, Share(gs[a].total, DistrictSum(gs, gs[a].key.0)));
    assert t[b] == Dependency(gs[b].key.0, gs[b].key.1, gs[b].total, Share(gs[b].total, DistrictSum(gs, gs[b].key.0)));
    if a < b {
      NotBothAtRisk(gs, a, b);
    } else {
      NotBothAtRisk(gs, b, a);
    }
  }

  function EntryKey(e: Dependency): (string, string)
  {
    (e.district, e.industry)
  }

  // ---------------------------------------------------------------------------
  // Gender participation (HR_Visual.py lines 307-315)
  // ---------------------------------------------------------------------------

  /** The (industry, gender) of a row, or null when either is null. */
  function IndustryGenderKey(o: Observation): Option<(string, string)>
  {
    if o.industry.Some? && o.gender.Some? then Some((o.industry.value, o.gender.value)) else None
  }

  /** The rows of `long_data` in the selected states with the selected worker class: no district, area or industry filter. */
  function GenderRows(long: seq<Observation>, sel: Selection): seq<Observation>
  {
    Where(long, Both(InStates(sel.states), WorkerIs(sel.workerType)))
  }

  /** `gender_df`. */
  function GenderView(long: seq<Observation>, sel: Selection): seq<Group<(string, string)>>
  {
    GroupSum(Pairs(GenderRows(long, sel), Raw(GenderRows(long, sel)), IndustryGenderKey))
  }

  /**
   * Each bar segment of the gender chart is the total count of the rows of
   * `long_data` in the selected states with the selected worker class and
   * that industry and gender, whatever their district or area.
   */
  lemma GenderViewSpec(long: seq<Observation>, sel: Selection)
    ensures DistinctBy(GenderView(long, sel), KeyOf)
    ensures forall i, g :: TotalOf(GenderView(long, sel), (i, g)) ==
              TotalCount(Where(long, Both(Both(InStates(sel.states), WorkerIs(sel.workerType)),
                                          HasKey(IndustryGenderKey, (i, g)))))
  {
    var rows := GenderRows(long, sel);
    CountGroupsSpec(rows, IndustryGenderKey);
    forall i, g ensures TotalCount(Where(rows, HasKey(IndustryGenderKey, (i, g)))) ==
        TotalCount(Where(long, Both(Both(InStates(sel.states), WorkerIs(sel.workerType)), HasKey(IndustryGenderKey, (i, g)))))
    {
      WhereWhere(long, Both(InStates(sel.states), WorkerIs(sel.workerType)), HasKey(IndustryGenderKey, (i, g)));
    }
  }

  // ---------------------------------------------------------------------------
  // Urban and rural (HR_Visual.py lines 354-368)
  // ---------------------------------------------------------------------------

  /** `ur_data`: the chain's filters on `long_data` except the area filter. */
  function UrbanRuralRows(long: seq<Observation>, sel: Selection): seq<Observation>
  {
    var byMask := Where(long, Both(Both(Both(InStates(sel.states), InIndustries(sel.industries)),
                                       WorkerIs(sel.workerType)), GenderIs(sel.gender)));
    if DistrictFilterOn(sel) then Where(byMask, InDistricts(sel.districts)) else byMask
  }

  function AreaKey(o: Observation): Cell
  {
    o.area
  }

  /** `ur_df = ur_data.groupby("Area")["Count"].sum()`. */
  function UrbanRural(long: seq<Observation>, sel: Selection): seq<Group<string>>
  {
    GroupSum(Pairs(UrbanRuralRows(long, sel), Raw(UrbanRuralRows(long, sel)), AreaKey))
  }

  /**
   * The urban/rural view ignores the area selection: its slice for area `a`
   * is the total count the filter chain selects when `a` is the chosen area,
   * so the pie shows every area side by side.
   */
  lemma UrbanRuralSlice(long: seq<Observation>, sel: Selection, a: string)
    ensures TotalOf(UrbanRural(long, sel), a) == TotalCount(Selected(long, sel.(area := Some(a))))
  {
    var ur := UrbanRuralRows(long, sel);
    var sel' := sel.(area := Some(a));
    CountGroupsSpec(ur, AreaKey);
    assert Where(ur, HasKey(AreaKey, a)) == Selected(long, sel') by {
      UrbanRuralRowsAre(long, sel, a);
    }
  }

  lemma UrbanRuralRowsAre(long: seq<Observation>, sel: Selection, a: string)
    ensures Where(UrbanRuralRows(long, sel), HasKey(AreaKey, a)) == Selected(long, sel.(area := Some(a)))
  {
    if DistrictFilterOn(sel) {
      UrbanRuralRowsByDistrict(long, sel, a);
    } else {
      UrbanRuralRowsByState(long, sel, a);
    }
  }

  /** The masks of both sides in one, when the district stage applies. */
  lemma UrbanRuralRowsByDistrict(long: seq<Observation>, sel: Selection, a: string)
    requires DistrictFilterOn(sel)
    ensures Where(UrbanRuralRows(long, sel), HasKey(AreaKey, a)) == Selected(long, sel.(area := Some(a)))
  {
    var mask := Both(Both(Both(InStates(sel.states), InIndustries(sel.industries)),
                          WorkerIs(sel.workerType)), GenderIs(sel.gender));
    var cat := Category(sel.workerType, Some(a), sel.gender);
    forall o | o in long
      ensures (mask(o) && InDistricts(sel.districts)(o) && HasKey(AreaKey, a)(o)) ==
              (InStates(sel.states)(o) && InDistricts(sel.districts)(o) && cat(o) && InIndustries(sel.industries)(o))
    {
      assert mask(o) == (o.state in sel.states && o.industry in sel.industries &&
                         Matches(o.workerType, sel.workerType) && Matches(o.gender, sel.gender));
      assert cat(o) == (Matches(o.workerType, sel.workerType) && o.area == Some(a) && Matches(o.gender, sel.gender));
      assert HasKey(AreaKey, a)(o) == (AreaKey(o) == Some(a));
    }
    ThreeMasksAreFour(long, mask, InDistricts(sel.districts), HasKey(AreaKey, a),
                      InStates(sel.states), InDistricts(sel.districts), cat, InIndustries(sel.industries));
  }

  /** The masks of both sides in one, when the district stage is skipped. */
  lemma UrbanRuralRowsByState(long: seq<Observation>, sel: Selection, a: string)
    requires !DistrictFilterOn(sel)
    ensures Where(UrbanRuralRows(long, sel), HasKey(AreaKey, a)) == Selected(long, sel.(area := Some(a)))
  {
    var mask := Both(Both(Both(InStates(sel.states), InIndustries(sel.industries)),
                          WorkerIs(sel.workerType)), GenderIs(sel.gender));
    var cat := Category(sel.workerType, Some(a), sel.gender);
    forall o | o in long
      ensures (mask(o) && HasKey(AreaKey, a)(o)) == (InStates(sel.states)(o) && cat(o) && InIndustries(sel.industries)(o))
    {
      assert mask(o) == (o.state in sel.states && o.industry in sel.industries &&
                         Matches(o.workerType, sel.workerType) && Matches(o.gender, sel.gender));
      assert cat(o) == (Matches(o.workerType, sel.workerType) && o.area == Some(a) && Matches(o.gender, sel.gender));
      assert HasKey(AreaKey, a)(o) == (AreaKey(o) == Some(a));
    }
    TwoMasksAreThree(long, mask, HasKey(AreaKey, a), InStates(sel.states), cat, InIndustries(sel.industries));
  }

  /** Three masks in a row select what four others do when their conjunctions agree. */
  lemma ThreeMasksAreFour<T>(s: seq<T>, p: T -> bool, q: T -> bool, r: T -> bool,
                             a: T -> bool, b: T -> bool, c: T -> bool, d: T -> bool)
    requires forall x :: x in s ==> (p(x) && q(x) && r(x)) == (a(x) && b(x) && c(x) && d(x))
    ensures Where(Where(Where(s, p), q), r) == Where(Where(Where(Where(s, a), b), c), d)
  {
    WhereWhere(s, p, q);
    WhereWhere(s, Both(p, q), r);
    WhereWhere(s, a, b);
    WhereWhere(s, Both(a, b), c);
    WhereWhere(s, Both(Both(a, b), c), d);
    WhereExt(s, Both(Both(p, q), r), Both(Both(Both(a, b), c), d));
  }

  /** Two masks in a row select what three others do when their conjunctions agree. */
  lemma TwoMasksAreThree<T>(s: seq<T>, p: T -> bool, q: T -> bool, a: T -> bool, b: T -> bool, c: T -> bool)
    requires forall x :: x in s ==> (p(x) && q(x)) == (a(x) && b(x) && c(x))
    ensures Where(Where(s, p), q) == Where(Where(Where(s, a), b), c)
  {
    WhereWhere(s, p, q);
    WhereWhere(s, a, b);
    WhereWhere(s, Both(a, b), c);
    WhereExt(s, Both(p, q), Both(Both(a, b), c));
  }
}
