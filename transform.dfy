/**
 * The per-record derivations of the process stage: time of day, average temperature,
 * wind category, successive differences, the Celsius column and the final twelve-column
 * record. Each pandas column operation is a function over the whole sequence of rows.
 */
module Transform {
  import opened Wrappers
  import Fetch

  /** Wind speed bands. */
  datatype WindCategory = Calm | Breezy | VeryWindy

  /** The text stored for a category. */
  function Label(c: WindCategory): string {
    match c
    case Calm => "Calm"
    case Breezy => "Breezy"
    case VeryWindy => "Very Windy"
  }

  /** Calm < Breezy < Very Windy. */
  function Rank(c: WindCategory): nat {
    match c
    case Calm => 0
    case Breezy => 1
    case VeryWindy => 2
  }

  /** The threshold table of `categorize_wind_speed`; lower bounds are inclusive. */
  function Categorize(speed: real): (c: WindCategory)
    ensures c == Calm <==> speed < 2.0
    ensures c == Breezy <==> 2.0 <= speed < 4.0
    ensures c == VeryWindy <==> 4.0 <= speed
  {
    if speed < 2.0 then Calm
    else if 2.0 <= speed < 4.0 then Breezy
    else VeryWindy
  }

  lemma CategorizeMonotone(s1: real, s2: real)
    requires s1 <= s2
    ensures Rank(Categorize(s1)) <= Rank(Categorize(s2))
  {
  }

  lemma LabelInjective(c1: WindCategory, c2: WindCategory)
    requires Label(c1) == Label(c2)
    ensures c1 == c2
  {
  }

  const SecondsPerDay: int := 86400

  /** A wall-clock time of day. */
  datatype TimeOfDay = TimeOfDay(hour: int, minute: int, second: int)

  /** The time of day of an epoch timestamp read as UTC. */
  function TimeOf(dt: int): (t: TimeOfDay)
    ensures 0 <= t.hour < 24 && 0 <= t.minute < 60 && 0 <= t.second < 60
    ensures t.hour * 3600 + t.minute * 60 + t.second == dt % SecondsPerDay
  {
    var s := dt % SecondsPerDay;
    TimeOfDay(s / 3600, s % 3600 / 60, s % 60)
  }

  /** Two timestamps share a time of day exactly when they agree modulo a day. */
  lemma TimeOfIffSameDayOffset(dt1: int, dt2: int)
    ensures TimeOf(dt1) == TimeOf(dt2) <==> dt1 % SecondsPerDay == dt2 % SecondsPerDay
  {
  }

  function Average(minTemperature: real, maxTemperature: real): real {
    (minTemperature + maxTemperature) / 2.0
  }

  lemma AverageBetween(minTemperature: real, maxTemperature: real)
    requires minTemperature <= maxTemperature
    ensures minTemperature <= Average(minTemperature, maxTemperature) <= maxTemperature
  {
  }

  /**
   * pandas `Series.diff()` with period one: no value for the first element, then each
   * element minus its predecessor.
   */
  function Diff(xs: seq<real>): (d: seq<Option<real>>)
    ensures |d| == |xs|
    ensures |xs| > 0 ==> d[0] == None
    ensures forall i :: 0 < i < |xs| ==> d[i] == Some(xs[i] - xs[i - 1])
  {
    if |xs| == 0 then []
    else if |xs| == 1 then [None]
    else Diff(xs[..|xs| - 1]) + [Some(xs[|xs| - 1] - xs[|xs| - 2])]
  }

  /** The sum of the present changes at positions 1..k. */
  function SumOfChanges(d: seq<Option<real>>, k: nat): real
    requires k < |d|
  {
    if k == 0 then 0.0
    else SumOfChanges(d, k - 1) + (if d[k].Some? then d[k].value else 0.0)
  }

  /** The successive differences telescope back to the overall change. */
  lemma {:induction false} DiffTelescopes(xs: seq<real>, k: nat)
    requires k < |xs|
    ensures SumOfChanges(Diff(xs), k) == xs[k] - xs[0]
  {
    if k > 0 {
      DiffTelescopes(xs, k - 1);
    }
  }

  /** A row of the working frame after the two `diff` columns (the frame that is copied). */
  datatype WorkRow = WorkRow(
    dt: int,
    date: string,
    time: TimeOfDay,
    minTemperature: real,
    maxTemperature: real,
    averageTemperature: real,
    humidity: int,
    windSpeed: real,
    description: string,
    windCategory: WindCategory,
    tempChange: Option<real>,
    windChange: Option<real>)

  /** The final record, in the twelve-column order the process stage hands on. */
  datatype ProcessedRecord = ProcessedRecord(
    dt: int,
    date: string,
    time: TimeOfDay,
    minTemperature: real,
    maxTemperature: real,
    averageTemperature: real,
    averageTemperatureCelsius: real,
    tempChange: Option<real>,
    humidity: int,
    windSpeed: real,
    windCategory: WindCategory,
    description: string)

  function Averages(raw: seq<Fetch.RawRecord>): seq<real> {
    seq(|raw|, i requires 0 <= i < |raw| => Average(raw[i].minTemperature, raw[i].maxTemperature))
  }

  function WindSpeeds(raw: seq<Fetch.RawRecord>): seq<real> {
    seq(|raw|, i requires 0 <= i < |raw| => raw[i].windSpeed)
  }

  /** The working frame: derived columns, column reselection, then the two differences. */
  function Working(raw: seq<Fetch.RawRecord>): (rows: seq<WorkRow>)
    ensures |rows| == |raw|
  {
    var avg := Averages(raw);
    var tempChange := Diff(avg);
    var windChange := Diff(WindSpeeds(raw));
    seq(|raw|, i requires 0 <= i < |raw| =>
      WorkRow(
        raw[i].dt,
        raw[i].date,
        TimeOf(raw[i].dt),
        raw[i].minTemperature,
        raw[i].maxTemperature,
        avg[i],
        raw[i].humidity,
        raw[i].windSpeed,
        raw[i].description,
        Categorize(raw[i].windSpeed),
        tempChange[i],
        windChange[i]))
  }

  const KelvinOffset: real := 273.15

  /** The Celsius column followed by the final column selection. */
  function Finalize(w: WorkRow): ProcessedRecord {
    ProcessedRecord(
      w.dt, w.date, w.time, w.minTemperature, w.maxTemperature, w.averageTemperature,
      w.averageTemperature - KelvinOffset, w.tempChange, w.humidity, w.windSpeed,
      w.windCategory, w.description)
  }

  function FinalRecords(rows: seq<WorkRow>): seq<ProcessedRecord> {
    seq(|rows|, i requires 0 <= i < |rows| => Finalize(rows[i]))
  }

  /** What every working row holds, in terms of the raw input. */
  lemma WorkingRow(raw: seq<Fetch.RawRecord>, i: nat)
    requires i < |raw|
    ensures var w := Working(raw)[i];
      && w.dt == raw[i].dt && w.date == raw[i].date
      && w.time == TimeOf(raw[i].dt)
      && w.minTemperature == raw[i].minTemperature
      && w.maxTemperature == raw[i].maxTemperature
      && w.averageTemperature == (raw[i].minTemperature + raw[i].maxTemperature) / 2.0
      && w.humidity == raw[i].humidity && w.windSpeed == raw[i].windSpeed
      && w.description == raw[i].description
      && w.windCategory == Categorize(raw[i].windSpeed)
      && (i == 0 ==> w.tempChange.None? && w.windChange.None?)
      && (i > 0 ==> w.tempChange == Some(w.averageTemperature - Working(raw)[i - 1].averageTemperature))
      && (i > 0 ==> w.windChange == Some(raw[i].windSpeed - raw[i - 1].windSpeed))
  {
  }
}
