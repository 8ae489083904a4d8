/**
 * The per-date aggregate of the process stage: group the working rows by `date`
 * (keys in sorted order), then take the means of the temperatures, the rounded mean
 * humidity and the distinct descriptions joined by ", ".
 */
module Daily {
  import opened Transform
  import opened TextOrder
  import opened Stats

  /** One row of the aggregated dataset. */
  datatype DailyAggregate = DailyAggregate(
    date: string,
    minTemperature: real,
    maxTemperature: real,
    averageTemperature: real,
    humidity: int,
    description: string)

  predicate HasDate(rows: seq<WorkRow>, d: string) {
    exists i :: 0 <= i < |rows| && rows[i].date == d
  }

  /** The group keys: every date of the input once, in sorted order. */
  function GroupKeys(rows: seq<WorkRow>): (keys: seq<string>)
    ensures StrictlySorted(keys)
    ensures forall d :: d in keys <==> HasDate(rows, d)
    ensures |keys| <= |rows|
  {
    if |rows| == 0 then []
    else
      var prefix := rows[..|rows| - 1];
      var keys := GroupKeys(prefix);
      assert forall d :: HasDate(rows, d) <==> HasDate(prefix, d) || d == rows[|rows| - 1].date by {
        forall d | HasDate(rows, d) && d != rows[|rows| - 1].date ensures HasDate(prefix, d) {
          var i :| 0 <= i < |rows| && rows[i].date == d;
          assert prefix[i].date == d;
        }
        forall d | HasDate(prefix, d) ensures HasDate(rows, d) {
          var i :| 0 <= i < |prefix| && prefix[i].date == d;
          assert rows[i].date == d;
        }
      }
      Insert(keys, rows[|rows| - 1].date)
  }

  /** The dates of the rows, in order. */
  function Dates(rows: seq<WorkRow>): seq<string> {
    seq(|rows|, i requires 0 <= i < |rows| => rows[i].date)
  }

  /** The positions holding `d`: each one with that date, increasing, and none left out. */
  function Positions(dates: seq<string>, d: string): (idx: seq<nat>)
    ensures forall k :: 0 <= k < |idx| ==> idx[k] < |dates| && dates[idx[k]] == d
    ensures forall k, l :: 0 <= k < l < |idx| ==> idx[k] < idx[l]
    ensures forall i :: 0 <= i < |dates| && dates[i] == d ==> i in idx
  {
    if |dates| == 0 then []
    else
      var n := |dates| - 1;
      var p := Positions(dates[..n], d);
      if dates[n] == d then p + [n] else p
  }

  /** The elements at the given positions, in the order of the positions. */
  function Pick<T>(xs: seq<T>, idx: seq<nat>): (ys: seq<T>)
    requires forall k :: 0 <= k < |idx| ==> idx[k] < |xs|
    ensures |ys| == |idx| && forall k :: 0 <= k < |idx| ==> ys[k] == xs[idx[k]]
  {
    seq(|idx|, k requires 0 <= k < |idx| => xs[idx[k]])
  }

  /** The rows of one date, in input order. */
  function Group(rows: seq<WorkRow>, d: string): (g: seq<WorkRow>)
    ensures forall w :: w in g <==> w in rows && w.date == d
    ensures |g| > 0 <==> HasDate(rows, d)
  {
    if |rows| == 0 then []
    else
      var n := |rows| - 1;
      var prefix := rows[..n];
      var last := rows[n];
      assert rows == prefix + [last];
      var g := Group(prefix, d);
      assert HasDate(rows, d) ==> HasDate(prefix, d) || last.date == d by {
        if HasDate(rows, d) && last.date != d {
          var i :| 0 <= i < |rows| && rows[i].date == d;
          assert prefix[i].date == d;
        }
      }
      assert HasDate(prefix, d) ==> HasDate(rows, d) by {
        if HasDate(prefix, d) {
          var i :| 0 <= i < |prefix| && prefix[i].date == d;
          assert rows[i].date == d;
        }
      }
      assert last.date == d ==> HasDate(rows, d) by {
        assert rows[n] == last;
      }
      if last.date == d then g + [last] else g
  }

  /**
   * A group is exactly the rows at the positions of its date, in input order, so every
   * row of that date appears as often as it does in the input.
   */
  lemma {:induction false} GroupAtPositions(rows: seq<WorkRow>, d: string)
    ensures Group(rows, d) == Pick(rows, Positions(Dates(rows), d))
  {
    if |rows| > 0 {
      var n := |rows| - 1;
      var prefix := rows[..n];
      assert Dates(rows)[..n] == Dates(prefix);
      GroupAtPositions(prefix, d);
      var p := Positions(Dates(prefix), d);
      PickPrefix(rows, n, p);
      if rows[n].date == d {
        assert Positions(Dates(rows), d) == p + [n];
        assert Pick(rows, p + [n]) == Pick(rows, p) + [rows[n]];
      } else {
        assert Positions(Dates(rows), d) == p;
      }
    }
  }

  lemma PickPrefix<T>(xs: seq<T>, n: nat, idx: seq<nat>)
    requires n <= |xs|
    requires forall k :: 0 <= k < |idx| ==> idx[k] < n
    ensures Pick(xs, idx) == Pick(xs[..n], idx)
  {
  }

  function MinColumn(g: seq<WorkRow>): seq<real> {
    seq(|g|, i requires 0 <= i < |g| => g[i].minTemperature)
  }

  function MaxColumn(g: seq<WorkRow>): seq<real> {
    seq(|g|, i requires 0 <= i < |g| => g[i].maxTemperature)
  }

  function AverageColumn(g: seq<WorkRow>): seq<real> {
    seq(|g|, i requires 0 <= i < |g| => g[i].averageTemperature)
  }

  function HumidityColumn(g: seq<WorkRow>): seq<real> {
    seq(|g|, i requires 0 <= i < |g| => g[i].humidity as real)
  }

  function DescriptionColumn(g: seq<WorkRow>): seq<string> {
    seq(|g|, i requires 0 <= i < |g| => g[i].description)
  }

  /** `', '.join(x.unique())`. */
  function Describe(descriptions: seq<string>): string {
    Join(", ", Unique(descriptions))
  }

  /**
   * The aggregation of one non-empty group: each mean, and the rounded mean humidity,
   * lies between the group's least and greatest value of that column.
   */
  function Summarize(d: string, g: seq<WorkRow>): (s: DailyAggregate)
    requires |g| > 0
    ensures s.date == d
    ensures Least(MinColumn(g)) <= s.minTemperature <= Greatest(MinColumn(g))
    ensures Least(MaxColumn(g)) <= s.maxTemperature <= Greatest(MaxColumn(g))
    ensures Least(AverageColumn(g)) <= s.averageTemperature <= Greatest(AverageColumn(g))
    ensures Least(HumidityColumn(g)) <= s.humidity as real <= Greatest(HumidityColumn(g))
  {
    MeanBounds(MinColumn(g), Least(MinColumn(g)), Greatest(MinColumn(g)));
    MeanBounds(MaxColumn(g), Least(MaxColumn(g)), Greatest(MaxColumn(g)));
    MeanBounds(AverageColumn(g), Least(AverageColumn(g)), Greatest(AverageColumn(g)));
    var hs := HumidityColumn(g);
    MeanBounds(hs, Least(hs), Greatest(hs));
    var lo :| 0 <= lo < |g| && hs[lo] == Least(hs);
    var hi :| 0 <= hi < |g| && hs[hi] == Greatest(hs);
    RoundWithin(Mean(hs), g[lo].humidity, g[hi].humidity);
    DailyAggregate(
      d,
      Mean(MinColumn(g)),
      Mean(MaxColumn(g)),
      Mean(AverageColumn(g)),
      RoundHalfEven(Mean(HumidityColumn(g))),
      Describe(DescriptionColumn(g)))
  }

  /** `groupby('date').agg(...).reset_index()`. */
  function Aggregate(rows: seq<WorkRow>): (agg: seq<DailyAggregate>)
    ensures |agg| == |GroupKeys(rows)|
  {
    var keys := GroupKeys(rows);
    seq(|keys|, i requires 0 <= i < |keys| => Summarize(keys[i], Group(rows, keys[i])))
  }

  /** Exactly one aggregate row per distinct date, in increasing date order. */
  lemma AggregateOnePerDate(rows: seq<WorkRow>)
    ensures var agg := Aggregate(rows);
      && (forall i, j :: 0 <= i < j < |agg| ==> Before(agg[i].date, agg[j].date))
      && (forall i, j :: 0 <= i < j < |agg| ==> agg[i].date != agg[j].date)
      && (forall d :: HasDate(rows, d) <==> exists i :: 0 <= i < |agg| && agg[i].date == d)
  {
    var agg := Aggregate(rows);
    var keys := GroupKeys(rows);
    assert forall i :: 0 <= i < |agg| ==> agg[i].date == keys[i];
    forall i, j | 0 <= i < j < |agg| ensures agg[i].date != agg[j].date {
      SortedHasNoDuplicates(keys, i, j);
    }
    forall d | HasDate(rows, d) ensures exists i :: 0 <= i < |agg| && agg[i].date == d {
      var i :| 0 <= i < |keys| && keys[i] == d;
      assert agg[i].date == d;
    }
  }

  /**
   * Row i of the aggregate, in terms of the input rows of its date taken in input
   * order with repeats: the means of their temperatures, the rounded mean of their
   * humidities, and their distinct descriptions joined by ", ".
   */
  lemma AggregateRow(rows: seq<WorkRow>, i: nat)
    requires i < |Aggregate(rows)|
    ensures var a := Aggregate(rows)[i];
      var idx := Positions(Dates(rows), a.date);
      && a.date == GroupKeys(rows)[i]
      && |idx| > 0
      && a.minTemperature == Mean(Pick(MinColumn(rows), idx))
      && a.maxTemperature == Mean(Pick(MaxColumn(rows), idx))
      && a.averageTemperature == Mean(Pick(AverageColumn(rows), idx))
      && a.humidity == RoundHalfEven(Mean(Pick(HumidityColumn(rows), idx)))
      && a.description == Join(", ", Unique(Pick(DescriptionColumn(rows), idx)))
  {
    var d := GroupKeys(rows)[i];
    assert d in GroupKeys(rows);
    assert Aggregate(rows)[i] == Summarize(d, Group(rows, d));
    GroupAtPositions(rows, d);
    PickColumns(rows, Positions(Dates(rows), d));
  }

  /** Taking the rows at some positions, then a column, is taking the column at those positions. */
  lemma PickColumns(rows: seq<WorkRow>, idx: seq<nat>)
    requires forall k :: 0 <= k < |idx| ==> idx[k] < |rows|
    ensures var g := Pick(rows, idx);
      && MinColumn(g) == Pick(MinColumn(rows), idx)
      && MaxColumn(g) == Pick(MaxColumn(rows), idx)
      && AverageColumn(g) == Pick(AverageColumn(rows), idx)
      && HumidityColumn(g) == Pick(HumidityColumn(rows), idx)
      && DescriptionColumn(g) == Pick(DescriptionColumn(rows), idx)
  {
  }

  /** The rounded mean humidity of a date lies within the humidities of that date. */
  lemma AggregateHumidityWithin(rows: seq<WorkRow>, i: nat, lo: int, hi: int)
    requires i < |Aggregate(rows)|
    requires forall w :: w in rows && w.date == Aggregate(rows)[i].date ==> lo <= w.humidity <= hi
    ensures lo <= Aggregate(rows)[i].humidity <= hi
  {
    var keys := GroupKeys(rows);
    var g := Group(rows, keys[i]);
    var hs := HumidityColumn(g);
    forall k | 0 <= k < |hs| ensures lo as real <= hs[k] <= hi as real {
      assert g[k] in g;
    }
    MeanBounds(hs, lo as real, hi as real);
    RoundWithin(Mean(hs), lo, hi);
  }

  predicate TemperaturesWithin(w: WorkRow, lo: real, hi: real) {
    lo <= w.minTemperature <= hi && lo <= w.maxTemperature <= hi && lo <= w.averageTemperature <= hi
  }

  /** The mean temperatures of a date lie within that date's extremes. */
  lemma AggregateTemperaturesWithin(rows: seq<WorkRow>, i: nat, lo: real, hi: real)
    requires i < |Aggregate(rows)|
    requires forall w :: w in rows && w.date == Aggregate(rows)[i].date ==> TemperaturesWithin(w, lo, hi)
    ensures var a := Aggregate(rows)[i];
      lo <= a.minTemperature <= hi && lo <= a.maxTemperature <= hi && lo <= a.averageTemperature <= hi
  {
    var keys := GroupKeys(rows);
    var g := Group(rows, keys[i]);
    assert Aggregate(rows)[i] == Summarize(keys[i], g);
    forall k | 0 <= k < |g|
      ensures lo <= g[k].minTemperature <= hi && lo <= g[k].maxTemperature <= hi && lo <= g[k].averageTemperature <= hi
    {
      assert g[k] in g;
    }
    ColumnWithin(MinColumn(g), lo, hi);
    ColumnWithin(MaxColumn(g), lo, hi);
    ColumnWithin(AverageColumn(g), lo, hi);
  }

  lemma ColumnWithin(xs: seq<real>, lo: real, hi: real)
    requires |xs| > 0
    requires forall k :: 0 <= k < |xs| ==> lo <= xs[k] <= hi
    ensures lo <= Least(xs) && Greatest(xs) <= hi
  {
  }

  /** The joined description lists each description of the date once, first occurrence first. */
  lemma DescribeDistinct(descriptions: seq<string>)
    ensures var u := Unique(descriptions);
      && Describe(descriptions) == Join(", ", u)
      && NoDuplicates(u)
      && (forall x :: x in u <==> x in descriptions)
      && (forall i, j :: 0 <= i < j < |u| ==> FirstIndex(descriptions, u[i]) < FirstIndex(descriptions, u[j]))
  {
    forall i, j | 0 <= i < j < |Unique(descriptions)|
      ensures FirstIndex(descriptions, Unique(descriptions)[i]) < FirstIndex(descriptions, Unique(descriptions)[j])
    {
      UniqueInFirstOccurrenceOrder(descriptions, i, j);
    }
  }

  lemma DescribeRepeated()
    ensures Describe(["clear", "clear"]) == "clear"
  {
    var xs := ["clear", "clear"];
    assert xs[..1] == ["clear"];
    assert ["clear"][..0] == [];
    assert Unique(["clear"]) == ["clear"];
    assert Unique(xs) == ["clear"];
  }

  lemma DescribeTwoDistinct()
    ensures Describe(["clear", "rain"]) == "clear, rain"
  {
    var xs := ["clear", "rain"];
    assert xs[..1] == ["clear"];
    assert ["clear"][..0] == [];
    assert Unique(["clear"]) == ["clear"];
    assert |"rain"| != |"clear"|;
    assert Unique(xs) == ["clear", "rain"];
    JoinTwo(", ", "clear", "rain");
  }
}
