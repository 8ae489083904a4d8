/**
 * The flattening loop of the fetch stage: every entry of the forecast API's `list`
 * array becomes one flat raw record. The HTTP request and JSON decoding are not
 * modelled; the decoded body is the `Response` value below, in which an absent key
 * is `None`.
 */
module Fetch {
  import opened Wrappers

  /** The `main` object of a forecast entry. */
  datatype MainBlock = MainBlock(tempMin: Option<real>, tempMax: Option<real>, humidity: Option<int>)

  /** One element of the `weather` array. */
  datatype WeatherBlock = WeatherBlock(description: Option<string>)

  /** The `wind` object of a forecast entry. */
  datatype WindBlock = WindBlock(speed: Option<real>)

  /** One element of the response's `list` array. */
  datatype Entry = Entry(
    dt: Option<int>,
    main: Option<MainBlock>,
    weather: Option<seq<WeatherBlock>>,
    wind: Option<WindBlock>)

  /** The decoded response body. */
  datatype Response = Response(list: Option<seq<Entry>>)

  /** Python's KeyError (with the missing key) and IndexError (on `weather[0]`). */
  datatype FetchError = KeyError(key: string) | IndexError

  /** The flat record handed to the transform stage. */
  datatype RawRecord = RawRecord(
    dt: int,
    date: string,
    minTemperature: real,
    maxTemperature: real,
    humidity: int,
    description: string,
    windSpeed: real)

  /** Every key the flattening looks up is present, and `weather` is non-empty. */
  predicate Complete(e: Entry) {
    && e.dt.Some?
    && e.main.Some?
    && e.main.value.tempMin.Some? && e.main.value.tempMax.Some? && e.main.value.humidity.Some?
    && e.weather.Some? && |e.weather.value| > 0 && e.weather.value[0].description.Some?
    && e.wind.Some? && e.wind.value.speed.Some?
  }

  /**
   * One iteration of the loop: the lookups happen in the order the source performs
   * them, so the error is the first one Python would raise. `dateOf` is the
   * local-timezone calendar date of an epoch timestamp, as an ISO string.
   */
  function FlattenEntry(dateOf: int -> string, e: Entry): (r: Result<RawRecord, FetchError>)
    ensures r.Success? <==> Complete(e)
    ensures r.Success? ==>
      && r.value.dt == e.dt.value
      && r.value.date == dateOf(e.dt.value)
      && r.value.minTemperature == e.main.value.tempMin.value
      && r.value.maxTemperature == e.main.value.tempMax.value
      && r.value.humidity == e.main.value.humidity.value
      && r.value.description == e.weather.value[0].description.value
      && r.value.windSpeed == e.wind.value.speed.value
    ensures e.dt.None? ==> r == Failure(KeyError("dt"))
    ensures r == Failure(IndexError) ==> e.weather == Some([])
  {
    if e.dt.None? then Failure(KeyError("dt"))
    else if e.main.None? then Failure(KeyError("main"))
    else if e.main.value.tempMin.None? then Failure(KeyError("temp_min"))
    else if e.main.value.tempMax.None? then Failure(KeyError("temp_max"))
    else if e.main.value.humidity.None? then Failure(KeyError("humidity"))
    else if e.weather.None? then Failure(KeyError("weather"))
    else if |e.weather.value| == 0 then Failure(IndexError)
    else if e.weather.value[0].description.None? then Failure(KeyError("description"))
    else if e.wind.None? then Failure(KeyError("wind"))
    else if e.wind.value.speed.None? then Failure(KeyError("speed"))
    else
      var dt := e.dt.value;
      Success(RawRecord(
        dt,
        dateOf(dt),
        e.main.value.tempMin.value,
        e.main.value.tempMax.value,
        e.main.value.humidity.value,
        e.weather.value[0].description.value,
        e.wind.value.speed.value))
  }

  /**
   * The loop of the fetch stage: one record per entry, in order, or the first error;
   * no partial list is ever returned.
   */
  method Flatten(dateOf: int -> string, resp: Response) returns (r: Result<seq<RawRecord>, FetchError>)
    ensures resp.list.None? ==> r == Failure(KeyError("list"))
    ensures r.Success? <==>
      resp.list.Some? && forall i :: 0 <= i < |resp.list.value| ==> Complete(resp.list.value[i])
    ensures r.Success? ==>
      && |r.value| == |resp.list.value|
      && forall i :: 0 <= i < |r.value| ==> FlattenEntry(dateOf, resp.list.value[i]) == Success(r.value[i])
    ensures r.Failure? && resp.list.Some? ==>
      exists k :: 0 <= k < |resp.list.value|
        && (forall j :: 0 <= j < k ==> Complete(resp.list.value[j]))
        && FlattenEntry(dateOf, resp.list.value[k]) == Failure(r.error)
  {
    if resp.list.None? {
      return Failure(KeyError("list"));
    }
    var entries := resp.list.value;
    var records: seq<RawRecord> := [];
    var i := 0;
    while i < |entries|
      invariant 0 <= i <= |entries|
      invariant |records| == i
      invariant forall j :: 0 <= j < i ==> FlattenEntry(dateOf, entries[j]) == Success(records[j])
    {
      var one := FlattenEntry(dateOf, entries[i]);
      if one.Failure? {
        return Failure(one.error);
      }
      records := records + [one.value];
      i := i + 1;
    }
    return Success(records);
  }

  /** The calendar date is a function of the timestamp alone. */
  lemma SameDtSameDate(dateOf: int -> string, e1: Entry, e2: Entry)
    requires FlattenEntry(dateOf, e1).Success? && FlattenEntry(dateOf, e2).Success?
    requires FlattenEntry(dateOf, e1).value.dt == FlattenEntry(dateOf, e2).value.dt
    ensures FlattenEntry(dateOf, e1).value.date == FlattenEntry(dateOf, e2).value.date
  {
  }
}
