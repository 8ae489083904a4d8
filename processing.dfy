/**
 * The process stage as a whole: the final per-record dataset handed to the persist
 * stage, and the daily aggregate built from the copy of the working frame taken
 * before the Celsius column exists.
 */
module Processing {
  import opened Wrappers
  import Fetch
  import opened Transform
  import opened TextOrder
  import opened Stats
  import opened Daily

  datatype Output = Output(records: seq<ProcessedRecord>, daily: seq<DailyAggregate>)

  /**
   * pandas' KeyError when a frame built from an empty list has no `dt` column, and its
   * OutOfBoundsDatetime when a `dt` cannot be converted to a timestamp.
   */
  datatype ProcessError = MissingColumn(name: string) | OutOfBoundsDatetime

  /**
   * The whole seconds that `to_datetime(unit='s')` can convert: pandas counts nanoseconds
   * since the epoch in a signed 64-bit integer, whose extremes are about ±9223372036.85 s.
   */
  const MinEpochSeconds: int := -9223372036
  const MaxEpochSeconds: int := 9223372036

  predicate InTimestampRange(raw: seq<Fetch.RawRecord>) {
    forall j :: 0 <= j < |raw| ==> MinEpochSeconds <= raw[j].dt <= MaxEpochSeconds
  }

  function Process(raw: seq<Fetch.RawRecord>): (r: Result<Output, ProcessError>)
    ensures r.Failure? <==> raw == [] || exists j :: 0 <= j < |raw| && !(MinEpochSeconds <= raw[j].dt <= MaxEpochSeconds)
    ensures raw == [] ==> r == Failure(MissingColumn("dt"))
    ensures raw != [] && r.Failure? ==> r.error == OutOfBoundsDatetime
    ensures r.Success? ==> |r.value.records| == |raw| && |r.value.daily| <= |raw|
  {
    if |raw| == 0 then Failure(MissingColumn("dt"))
    else if !InTimestampRange(raw) then Failure(OutOfBoundsDatetime)
    else
      var working := Working(raw);
      Success(Output(FinalRecords(working), Aggregate(working)))
  }

  /** Each final record, in terms of the fetched record at the same position. */
  lemma ProcessedRecordAt(raw: seq<Fetch.RawRecord>, i: nat)
    requires i < |raw| && InTimestampRange(raw)
    ensures Process(raw).Success?
    ensures var rs := Process(raw).value.records;
      && rs[i].dt == raw[i].dt && rs[i].date == raw[i].date
      && rs[i].time == TimeOf(raw[i].dt)
      && rs[i].minTemperature == raw[i].minTemperature
      && rs[i].maxTemperature == raw[i].maxTemperature
      && rs[i].averageTemperature == (raw[i].minTemperature + raw[i].maxTemperature) / 2.0
      && rs[i].averageTemperatureCelsius == rs[i].averageTemperature - 273.15
      && rs[i].humidity == raw[i].humidity && rs[i].windSpeed == raw[i].windSpeed
      && rs[i].windCategory == Categorize(raw[i].windSpeed)
      && rs[i].description == raw[i].description
      && (i == 0 ==> rs[i].tempChange.None?)
      && (i > 0 ==> rs[i].tempChange == Some(rs[i].averageTemperature - rs[i - 1].averageTemperature))
  {
    WorkingRow(raw, i);
    if i > 0 {
      WorkingRow(raw, i - 1);
    }
  }

  /** The temperature changes telescope to the change since the first record. */
  lemma TempChangesTelescope(raw: seq<Fetch.RawRecord>, k: nat)
    requires k < |raw| && InTimestampRange(raw)
    ensures var rs := Process(raw).value.records;
      SumOfChanges(seq(|rs|, i requires 0 <= i < |rs| => rs[i].tempChange), k)
        == rs[k].averageTemperature - rs[0].averageTemperature
  {
    var rs := Process(raw).value.records;
    var avg := Averages(raw);
    assert seq(|rs|, i requires 0 <= i < |rs| => rs[i].tempChange) == Diff(avg);
    DiffTelescopes(avg, k);
  }

  /**
   * The aggregate is computed from Kelvin temperatures: when every fetched temperature
   * lies within some bounds, so does every aggregate mean, unshifted by the Celsius
   * offset.
   */
  lemma DailyAveragesAreKelvin(raw: seq<Fetch.RawRecord>, lo: real, hi: real)
    requires raw != [] && InTimestampRange(raw)
    requires forall j :: 0 <= j < |raw| ==>
      lo <= raw[j].minTemperature <= hi && lo <= raw[j].maxTemperature <= hi
    ensures forall i :: 0 <= i < |Process(raw).value.daily| ==>
      var a := Process(raw).value.daily[i];
      lo <= a.minTemperature <= hi && lo <= a.maxTemperature <= hi && lo <= a.averageTemperature <= hi
  {
    var working := Working(raw);
    forall i | 0 <= i < |Aggregate(working)|
      ensures var a := Aggregate(working)[i];
        lo <= a.minTemperature <= hi && lo <= a.maxTemperature <= hi && lo <= a.averageTemperature <= hi
    {
      forall w | w in working && w.date == Aggregate(working)[i].date
        ensures lo <= w.minTemperature <= hi && lo <= w.maxTemperature <= hi && lo <= w.averageTemperature <= hi
      {
        var j :| 0 <= j < |working| && working[j] == w;
        WorkingRow(raw, j);
      }
      AggregateTemperaturesWithin(working, i, lo, hi);
    }
  }

  /** Columns of the fetched records, in order. */
  function RawDates(raw: seq<Fetch.RawRecord>): seq<string> {
    seq(|raw|, j requires 0 <= j < |raw| => raw[j].date)
  }

  function MinTemperatures(raw: seq<Fetch.RawRecord>): seq<real> {
    seq(|raw|, j requires 0 <= j < |raw| => raw[j].minTemperature)
  }

  function MaxTemperatures(raw: seq<Fetch.RawRecord>): seq<real> {
    seq(|raw|, j requires 0 <= j < |raw| => raw[j].maxTemperature)
  }

  function Humidities(raw: seq<Fetch.RawRecord>): seq<real> {
    seq(|raw|, j requires 0 <= j < |raw| => raw[j].humidity as real)
  }

  function Descriptions(raw: seq<Fetch.RawRecord>): seq<string> {
    seq(|raw|, j requires 0 <= j < |raw| => raw[j].description)
  }

  /** The working frame's columns that the aggregate reads are the fetched ones. */
  lemma WorkingColumns(raw: seq<Fetch.RawRecord>)
    ensures Dates(Working(raw)) == RawDates(raw)
    ensures MinColumn(Working(raw)) == MinTemperatures(raw)
    ensures MaxColumn(Working(raw)) == MaxTemperatures(raw)
    ensures AverageColumn(Working(raw)) == Averages(raw)
    ensures HumidityColumn(Working(raw)) == Humidities(raw)
    ensures DescriptionColumn(Working(raw)) == Descriptions(raw)
  {
    forall j | 0 <= j < |raw| ensures
      && Dates(Working(raw))[j] == RawDates(raw)[j]
      && MinColumn(Working(raw))[j] == MinTemperatures(raw)[j]
      && MaxColumn(Working(raw))[j] == MaxTemperatures(raw)[j]
      && AverageColumn(Working(raw))[j] == Averages(raw)[j]
      && HumidityColumn(Working(raw))[j] == Humidities(raw)[j]
      && DescriptionColumn(Working(raw))[j] == Descriptions(raw)[j]
    {
      WorkingRow(raw, j);
    }
  }

  /** The daily output has one row per fetched date, in increasing date order. */
  lemma ProcessDailyOnePerDate(raw: seq<Fetch.RawRecord>)
    requires raw != [] && InTimestampRange(raw)
    ensures var daily := Process(raw).value.daily;
      && (forall i, j :: 0 <= i < j < |daily| ==> Before(daily[i].date, daily[j].date))
      && (forall i, j :: 0 <= i < j < |daily| ==> daily[i].date != daily[j].date)
      && (forall d :: d in RawDates(raw) <==> exists i :: 0 <= i < |daily| && daily[i].date == d)
  {
    var working := Working(raw);
    assert Process(raw).value.daily == Aggregate(working);
    AggregateOnePerDate(working);
    WorkingColumns(raw);
    forall d ensures d in RawDates(raw) <==> HasDate(working, d) {
      if d in RawDates(raw) {
        var j :| 0 <= j < |raw| && RawDates(raw)[j] == d;
        assert working[j].date == d;
      }
      if HasDate(working, d) {
        var j :| 0 <= j < |working| && working[j].date == d;
        assert RawDates(raw)[j] == d;
      }
    }
  }

  /**
   * Daily row i in terms of the fetched records of its date, in input order with
   * repeats: the means of their minimum, maximum and average (min + max) / 2
   * temperatures in Kelvin, the rounded mean of their humidities, and their distinct
   * descriptions joined by ", ".
   */
  lemma ProcessDailyRow(raw: seq<Fetch.RawRecord>, i: nat)
    requires raw != [] && InTimestampRange(raw)
    requires i < |Process(raw).value.daily|
    ensures var a := Process(raw).value.daily[i];
      var idx := Positions(RawDates(raw), a.date);
      && |idx| > 0
      && a.minTemperature == Mean(Pick(MinTemperatures(raw), idx))
      && a.maxTemperature == Mean(Pick(MaxTemperatures(raw), idx))
      && a.averageTemperature == Mean(Pick(Averages(raw), idx))
      && a.humidity == RoundHalfEven(Mean(Pick(Humidities(raw), idx)))
      && a.description == Join(", ", Unique(Pick(Descriptions(raw), idx)))
  {
    var working := Working(raw);
    assert Process(raw).value.daily == Aggregate(working);
    WorkingColumns(raw);
    AggregateRow(working, i);
  }

  /**
   * A day's mean average temperature is the midpoint of its mean minimum and mean
   * maximum, since every average is the midpoint of its record's two temperatures.
   */
  lemma DailyAverageIsMidpoint(raw: seq<Fetch.RawRecord>, i: nat)
    requires raw != [] && InTimestampRange(raw)
    requires i < |Process(raw).value.daily|
    ensures var a := Process(raw).value.daily[i];
      a.averageTemperature == (a.minTemperature + a.maxTemperature) / 2.0
  {
    ProcessDailyRow(raw, i);
    MidpointOfMeans(raw, Positions(RawDates(raw), Process(raw).value.daily[i].date));
  }

  lemma MidpointOfMeans(raw: seq<Fetch.RawRecord>, idx: seq<nat>)
    requires |idx| > 0 && forall k :: 0 <= k < |idx| ==> idx[k] < |raw|
    ensures Mean(Pick(Averages(raw), idx))
      == (Mean(Pick(MinTemperatures(raw), idx)) + Mean(Pick(MaxTemperatures(raw), idx))) / 2.0
  {
    var mins := Pick(MinTemperatures(raw), idx);
    var maxs := Pick(MaxTemperatures(raw), idx);
    assert Pick(Averages(raw), idx) == seq(|mins|, k requires 0 <= k < |mins| => (mins[k] + maxs[k]) / 2.0);
    MeanOfHalfSums(mins, maxs);
  }

  /** A single record: 280 K and 290 K at 1.5 m/s. */
  lemma SingleRecordExample()
    ensures var out := Process([Fetch.RawRecord(1000, "1970-01-01", 280.0, 290.0, 50, "clear", 1.5)]);
      && out.Success?
      && out.value.records[0].averageTemperature == 285.0
      && out.value.records[0].windCategory == Calm
      && out.value.records[0].averageTemperatureCelsius == 11.85
      && out.value.records[0].tempChange.None?
      && |out.value.daily| == 1
  {
    var raw := [Fetch.RawRecord(1000, "1970-01-01", 280.0, 290.0, 50, "clear", 1.5)];
    ProcessedRecordAt(raw, 0);
    assert GroupKeys(Working(raw)) == ["1970-01-01"];
  }
}
