/**
 * The records the process stage serialises (`to_json(orient='records')`) and the persist
 * stage decodes: one JSON object per final record, keyed by column name.
 */
module Handoff {
  import opened Wrappers
  import Transform

  /** A decoded JSON value; a missing difference (NaN in pandas) becomes null. */
  datatype Value = VInt(i: int) | VReal(r: real) | VText(s: string) | VTime(t: Transform.TimeOfDay) | VNull

  /** The keys of a serialised final record. */
  datatype Key =
    | DtKey | DateKey | TimeKey | MinTemperatureKey | MaxTemperatureKey | AverageTemperatureKey
    | AverageTemperatureCelsiusKey | TempChangeKey | HumidityKey | WindSpeedKey | WindCategoryKey
    | DescriptionKey

  /** The JSON spelling of a key. */
  function KeyName(k: Key): string {
    match k
    case DtKey => "dt"
    case DateKey => "date"
    case TimeKey => "time"
    case MinTemperatureKey => "min_temperature"
    case MaxTemperatureKey => "max_temperature"
    case AverageTemperatureKey => "average_temperature"
    case AverageTemperatureCelsiusKey => "average_temperature_celsius"
    case TempChangeKey => "temp_change"
    case HumidityKey => "humidity"
    case WindSpeedKey => "wind_speed"
    case WindCategoryKey => "wind_category"
    case DescriptionKey => "description"
  }

  /** One decoded JSON object; an absent key is absent from the map. */
  type JsonRecord = map<Key, Value>

  /** The columns of the final per-record dataset, in order. */
  const RecordKeys: seq<Key> := [
    DtKey, DateKey, TimeKey, MinTemperatureKey, MaxTemperatureKey, AverageTemperatureKey,
    AverageTemperatureCelsiusKey, TempChangeKey, HumidityKey, WindSpeedKey, WindCategoryKey,
    DescriptionKey]

  function NullableReal(x: Option<real>): Value {
    if x.Some? then VReal(x.value) else VNull
  }

  /** The value a final record has under a key. */
  function FieldValue(r: Transform.ProcessedRecord, k: Key): Value {
    match k
    case DtKey => VInt(r.dt)
    case DateKey => VText(r.date)
    case TimeKey => VTime(r.time)
    case MinTemperatureKey => VReal(r.minTemperature)
    case MaxTemperatureKey => VReal(r.maxTemperature)
    case AverageTemperatureKey => VReal(r.averageTemperature)
    case AverageTemperatureCelsiusKey => VReal(r.averageTemperatureCelsius)
    case TempChangeKey => NullableReal(r.tempChange)
    case HumidityKey => VInt(r.humidity)
    case WindSpeedKey => VReal(r.windSpeed)
    case WindCategoryKey => VText(Transform.Label(r.windCategory))
    case DescriptionKey => VText(r.description)
  }

  /** The JSON object of one final record: every column, each under its own name. */
  function Encode(r: Transform.ProcessedRecord): (obj: JsonRecord)
    ensures forall i :: 0 <= i < |RecordKeys| ==> RecordKeys[i] in obj
  {
    map k | k in RecordKeys :: FieldValue(r, k)
  }

  function EncodeAll(rs: seq<Transform.ProcessedRecord>): seq<JsonRecord> {
    seq(|rs|, i requires 0 <= i < |rs| => Encode(rs[i]))
  }
}
