/**
 * The persist stage: each decoded record becomes a twelve-value parameter tuple in the
 * table's column order, and the batch is applied as INSERT ... ON CONFLICT (dt) DO UPDATE,
 * one tuple after the other, committed only if every tuple was applied.
 */
module Persist {
  import opened Wrappers
  import Transform
  import opened Handoff

  /** The columns of the table. */
  datatype Column =
    | DtColumn | DateColumn | TimeColumn | MinTemperatureColumn | MaxTemperatureColumn
    | AverageTemperatureColumn | AvgTempCelsiusColumn | TempChangeColumn | HumidityColumn
    | WindSpeedColumn | WindCategoryColumn | DescriptionColumn

  /** The SQL spelling of a column. */
  function ColumnName(c: Column): string {
    match c
    case DtColumn => "dt"
    case DateColumn => "date"
    case TimeColumn => "time"
    case MinTemperatureColumn => "min_temperature"
    case MaxTemperatureColumn => "max_temperature"
    case AverageTemperatureColumn => "average_temperature"
    case AvgTempCelsiusColumn => "avg_temp_celsius"
    case TempChangeColumn => "temp_change"
    case HumidityColumn => "humidity"
    case WindSpeedColumn => "wind_speed"
    case WindCategoryColumn => "wind_category"
    case DescriptionColumn => "description"
  }

  /** The table's columns in the order of the INSERT statement. */
  const Columns: seq<Column> := [
    DtColumn, DateColumn, TimeColumn, MinTemperatureColumn, MaxTemperatureColumn,
    AverageTemperatureColumn, AvgTempCelsiusColumn, TempChangeColumn, HumidityColumn,
    WindSpeedColumn, WindCategoryColumn, DescriptionColumn]

  /** The columns named in the DO UPDATE SET list. */
  const UpdatedColumns: set<Column> := {
    DateColumn, TimeColumn, MinTemperatureColumn, MaxTemperatureColumn,
    AverageTemperatureColumn, AvgTempCelsiusColumn, TempChangeColumn, HumidityColumn,
    WindSpeedColumn, WindCategoryColumn, DescriptionColumn}

  /** Python's KeyError while building a tuple, or a statement the database rejects. */
  datatype InsertError = KeyError(key: Key) | DatabaseError

  /** One parameter tuple of `executemany`; it is also the row the table stores. */
  type Params = seq<Value>

  /** Looks the keys up one after the other, failing at the first absent one. */
  function ProjectKeys(rec: JsonRecord, keys: seq<Key>): (r: Result<Params, InsertError>)
    ensures r.Success? <==> forall i :: 0 <= i < |keys| ==> keys[i] in rec
    ensures r.Success? ==> |r.value| == |keys| && forall i :: 0 <= i < |keys| ==> r.value[i] == rec[keys[i]]
    ensures r.Failure? ==> exists k :: (0 <= k < |keys|
      && keys[k] !in rec && r.error == KeyError(keys[k])
      && forall j :: 0 <= j < k ==> keys[j] in rec)
  {
    if |keys| == 0 then Success([])
    else if keys[0] !in rec then Failure(KeyError(keys[0]))
    else
      var rest := ProjectKeys(rec, keys[1..]);
      if rest.Failure? then
        var k :| 0 <= k < |keys[1..]| && keys[1..][k] !in rec
          && rest.error == KeyError(keys[1..][k]) && forall j :: 0 <= j < k ==> keys[1..][j] in rec;
        assert keys[k + 1] !in rec;
        assert forall j :: 0 <= j < k + 1 ==> keys[j] in rec by {
          forall j | 0 < j < k + 1 ensures keys[j] in rec {
            assert keys[1..][j - 1] == keys[j];
          }
        }
        Failure(rest.error)
      else
        Success([rec[keys[0]]] + rest.value)
  }

  /** The tuple for one record (the list comprehension's element). */
  function Project(rec: JsonRecord): Result<Params, InsertError> {
    ProjectKeys(rec, RecordKeys)
  }

  /** The whole list comprehension: one tuple per record, in order, or the first KeyError. */
  function BuildBatch(recs: seq<JsonRecord>): (r: Result<seq<Params>, InsertError>)
    ensures r.Success? <==> forall i :: 0 <= i < |recs| ==> Project(recs[i]).Success?
    ensures r.Success? ==> |r.value| == |recs| && forall i :: 0 <= i < |recs| ==> Project(recs[i]) == Success(r.value[i])
    ensures r.Failure? ==> exists k :: (0 <= k < |recs|
      && Project(recs[k]) == Failure(r.error)
      && forall j :: 0 <= j < k ==> Project(recs[j]).Success?)
  {
    if |recs| == 0 then Success([])
    else
      var first := Project(recs[0]);
      if first.Failure? then Failure(first.error)
      else
        var rest := BuildBatch(recs[1..]);
        if rest.Failure? then
          var k :| 0 <= k < |recs[1..]| && Project(recs[1..][k]) == Failure(rest.error)
            && forall j :: 0 <= j < k ==> Project(recs[1..][j]).Success?;
          assert Project(recs[k + 1]) == Failure(rest.error);
          assert forall j :: 0 <= j < k + 1 ==> Project(recs[j]).Success? by {
            forall j | 0 < j < k + 1 ensures Project(recs[j]).Success? {
              assert recs[1..][j - 1] == recs[j];
            }
          }
          Failure(rest.error)
        else
          assert forall i :: 0 < i < |recs| ==> recs[i] == recs[1..][i - 1];
          Success([first.value] + rest.value)
  }

  /**
   * The record key whose value a table column stores: the key of the same name, except
   * that `avg_temp_celsius` stores `average_temperature_celsius`.
   */
  function Source(column: Column): (k: Key)
    ensures ColumnName(column) == KeyName(k) || (column == AvgTempCelsiusColumn && k == AverageTemperatureCelsiusKey)
  {
    match column
    case DtColumn => DtKey
    case DateColumn => DateKey
    case TimeColumn => TimeKey
    case MinTemperatureColumn => MinTemperatureKey
    case MaxTemperatureColumn => MaxTemperatureKey
    case AverageTemperatureColumn => AverageTemperatureKey
    case AvgTempCelsiusColumn => AverageTemperatureCelsiusKey
    case TempChangeColumn => TempChangeKey
    case HumidityColumn => HumidityKey
    case WindSpeedColumn => WindSpeedKey
    case WindCategoryColumn => WindCategoryKey
    case DescriptionColumn => DescriptionKey
  }

  /** The value a final record supplies for a table column. */
  function ColumnValue(r: Transform.ProcessedRecord, column: Column): Value {
    FieldValue(r, Source(column))
  }

  /**
   * Serialising a final record and projecting it back gives the record's value for
   * each table column, in the table's column order; the Celsius slot holds the
   * Celsius average.
   */
  lemma HandoffRoundTrip(r: Transform.ProcessedRecord)
    ensures Project(Encode(r)).Success?
    ensures |Project(Encode(r)).value| == |Columns|
    ensures forall i :: 0 <= i < |Columns| ==> Project(Encode(r)).value[i] == ColumnValue(r, Columns[i])
    ensures Project(Encode(r)).value[6] == VReal(r.averageTemperatureCelsius)
  {
    var obj := Encode(r);
    var p := Project(obj).value;
    assert |p| == |RecordKeys| && forall i :: 0 <= i < |RecordKeys| ==> p[i] == obj[RecordKeys[i]];
    forall i | 0 <= i < |Columns| ensures p[i] == ColumnValue(r, Columns[i]) {
      SlotMatchesColumn(r, i);
    }
  }

  /**
   * Key i of the tuple is the key that feeds table column i: the same name as the
   * column, except that `average_temperature_celsius` feeds `avg_temp_celsius`.
   */
  lemma SlotMatchesColumn(r: Transform.ProcessedRecord, i: nat)
    requires i < |Columns|
    ensures RecordKeys[i] == Source(Columns[i])
    ensures i != 6 ==> KeyName(RecordKeys[i]) == ColumnName(Columns[i])
    ensures i == 6 ==> KeyName(RecordKeys[i]) == "average_temperature_celsius" && ColumnName(Columns[i]) == "avg_temp_celsius"
    ensures RecordKeys[i] in Encode(r) && Encode(r)[RecordKeys[i]] == ColumnValue(r, Columns[i])
  {
    assert RecordKeys[i] in RecordKeys;
    assert Encode(r)[RecordKeys[i]] == FieldValue(r, RecordKeys[i]);
    if i == 0 { assert RecordKeys[i] == DtKey && Columns[i] == DtColumn; }
    else if i == 1 { assert RecordKeys[i] == DateKey && Columns[i] == DateColumn; }
    else if i == 2 { assert RecordKeys[i] == TimeKey && Columns[i] == TimeColumn; }
    else if i == 3 { assert RecordKeys[i] == MinTemperatureKey && Columns[i] == MinTemperatureColumn; }
    else if i == 4 { assert RecordKeys[i] == MaxTemperatureKey && Columns[i] == MaxTemperatureColumn; }
    else if i == 5 { assert RecordKeys[i] == AverageTemperatureKey && Columns[i] == AverageTemperatureColumn; }
    else if i == 6 { assert RecordKeys[i] == AverageTemperatureCelsiusKey && Columns[i] == AvgTempCelsiusColumn; }
    else if i == 7 { assert RecordKeys[i] == TempChangeKey && Columns[i] == TempChangeColumn; }
    else if i == 8 { assert RecordKeys[i] == HumidityKey && Columns[i] == HumidityColumn; }
    else if i == 9 { assert RecordKeys[i] == WindSpeedKey && Columns[i] == WindSpeedColumn; }
    else if i == 10 { assert RecordKeys[i] == WindCategoryKey && Columns[i] == WindCategoryColumn; }
    else { assert RecordKeys[i] == DescriptionKey && Columns[i] == DescriptionColumn; }
  }

  /** A record lacking any of the twelve keys produces no tuple. */
  lemma MissingKeyFails(rec: JsonRecord, key: Key)
    requires key in RecordKeys && key !in rec
    ensures Project(rec).Failure?
    ensures Project(rec).error.KeyError? && Project(rec).error.key in RecordKeys
    ensures Project(rec).error.key !in rec
  {
    var i :| 0 <= i < |RecordKeys| && RecordKeys[i] == key;
    var k :| 0 <= k < |RecordKeys| && RecordKeys[k] !in rec
      && Project(rec).error == KeyError(RecordKeys[k]) && forall j :: 0 <= j < k ==> RecordKeys[j] in rec;
  }

  /** A tuple the statement accepts: twelve values with an integer epoch key. */
  predicate Insertable(p: Params) {
    |p| == |Columns| && p[0].VInt?
  }

  predicate AllInsertable(batch: seq<Params>) {
    forall i :: 0 <= i < |batch| ==> Insertable(batch[i])
  }

  function KeyOf(p: Params): int
    requires Insertable(p)
  {
    p[0].i
  }

  /** The DO UPDATE SET list applied to the existing row and the proposed (EXCLUDED) row. */
  function OnConflict(existing: Params, excluded: Params): (r: Params)
    requires |existing| == |Columns| && |excluded| == |Columns|
    ensures |r| == |Columns|
  {
    seq(|Columns|, i requires 0 <= i < |Columns| =>
      if Columns[i] in UpdatedColumns then excluded[i] else existing[i])
  }

  /** The SET list names exactly the non-key columns. */
  lemma UpdatedColumnsAreNonKey()
    ensures forall i :: 0 <= i < |Columns| ==> (Columns[i] in UpdatedColumns <==> i != 0)
  {
  }

  /** On a conflict (equal keys), the stored row becomes the proposed row. */
  lemma ConflictOverwrites(existing: Params, excluded: Params)
    requires |existing| == |Columns| && |excluded| == |Columns|
    requires existing[0] == excluded[0]
    ensures OnConflict(existing, excluded) == excluded
  {
    UpdatedColumnsAreNonKey();
    var r := OnConflict(existing, excluded);
    forall i | 0 <= i < |Columns| ensures r[i] == excluded[i] {
    }
  }

  /** The table: epoch key to stored row. */
  type Table = map<int, Params>

  /** Every stored row is a full tuple whose key column is its key. */
  predicate WellFormed(t: Table) {
    forall k :: k in t ==> Insertable(t[k]) && KeyOf(t[k]) == k
  }

  /** One execution of the statement. */
  function Upsert(t: Table, p: Params): (r: Table)
    requires WellFormed(t) && Insertable(p)
    ensures WellFormed(r)
    ensures r == t[KeyOf(p) := p]
  {
    var k := KeyOf(p);
    if k in t then
      ConflictOverwrites(t[k], p);
      t[k := OnConflict(t[k], p)]
    else t[k := p]
  }

  /** The statement executed once per tuple, in order. */
  function ApplyBatch(t: Table, batch: seq<Params>): (r: Table)
    requires WellFormed(t) && AllInsertable(batch)
    ensures WellFormed(r)
  {
    if |batch| == 0 then t
    else Upsert(ApplyBatch(t, batch[..|batch| - 1]), batch[|batch| - 1])
  }

  ghost function BatchKeys(batch: seq<Params>): set<int>
    requires AllInsertable(batch)
  {
    set i | 0 <= i < |batch| :: KeyOf(batch[i])
  }

  /** The position of the last tuple of the batch with a given key. */
  function LastIndex(batch: seq<Params>, k: int): (i: nat)
    requires AllInsertable(batch) && k in BatchKeys(batch)
    ensures i < |batch| && KeyOf(batch[i]) == k
    ensures forall j :: i < j < |batch| ==> KeyOf(batch[j]) != k
  {
    var n := |batch| - 1;
    if KeyOf(batch[n]) == k then n
    else
      assert k in BatchKeys(batch[..n]) by {
        var i :| 0 <= i < |batch| && KeyOf(batch[i]) == k;
        assert batch[..n][i] == batch[i];
      }
      LastIndex(batch[..n], k)
  }

  /**
   * After the batch: the keys are the old keys plus the batch's keys, each batch key
   * holds the last tuple written for it, and every other row is untouched.
   */
  lemma {:induction false} ApplyBatchSpec(t: Table, batch: seq<Params>)
    requires WellFormed(t) && AllInsertable(batch)
    ensures var r := ApplyBatch(t, batch);
      && WellFormed(r)
      && r.Keys == t.Keys + BatchKeys(batch)
      && (forall k :: k in BatchKeys(batch) ==> r[k] == batch[LastIndex(batch, k)])
      && (forall k :: k in t && k !in BatchKeys(batch) ==> r[k] == t[k])
  {
    if |batch| > 0 {
      var n := |batch| - 1;
      var prefix := batch[..n];
      ApplyBatchSpec(t, prefix);
      assert BatchKeys(batch) == BatchKeys(prefix) + {KeyOf(batch[n])} by {
        forall k | k in BatchKeys(batch) ensures k in BatchKeys(prefix) + {KeyOf(batch[n])} {
          var i :| 0 <= i < |batch| && KeyOf(batch[i]) == k;
          if i < n {
            assert prefix[i] == batch[i];
          }
        }
        forall k | k in BatchKeys(prefix) ensures k in BatchKeys(batch) {
          var i :| 0 <= i < |prefix| && KeyOf(prefix[i]) == k;
          assert batch[i] == prefix[i];
        }
      }
    }
  }

  /** Applying the same batch a second time changes nothing. */
  lemma ApplyBatchIdempotent(t: Table, batch: seq<Params>)
    requires WellFormed(t) && AllInsertable(batch)
    ensures ApplyBatch(ApplyBatch(t, batch), batch) == ApplyBatch(t, batch)
  {
    var once := ApplyBatch(t, batch);
    ApplyBatchSpec(t, batch);
    ApplyBatchSpec(once, batch);
    var twice := ApplyBatch(once, batch);
    assert twice.Keys == once.Keys;
    forall k | k in twice ensures twice[k] == once[k] {
    }
  }

  /** The final records of the process stage always make an insertable batch keyed by `dt`. */
  lemma EncodedBatchInsertable(rs: seq<Transform.ProcessedRecord>)
    ensures BuildBatch(EncodeAll(rs)).Success?
    ensures var batch := BuildBatch(EncodeAll(rs)).value;
      && AllInsertable(batch)
      && forall i :: 0 <= i < |rs| ==> KeyOf(batch[i]) == rs[i].dt
  {
    forall i | 0 <= i < |rs| ensures Project(EncodeAll(rs)[i]).Success? {
      HandoffRoundTrip(rs[i]);
    }
    var batch := BuildBatch(EncodeAll(rs)).value;
    forall i | 0 <= i < |rs| ensures Insertable(batch[i]) && batch[i][0] == VInt(rs[i].dt) {
      HandoffRoundTrip(rs[i]);
    }
  }

  /**
   * After persisting the final records, the row under a record's `dt` holds that
   * record's value in every column, provided no later record has the same `dt`.
   */
  lemma PersistedRowOfRecord(t: Table, rs: seq<Transform.ProcessedRecord>, i: nat)
    requires WellFormed(t) && i < |rs|
    requires forall j :: i < j < |rs| ==> rs[j].dt != rs[i].dt
    ensures BuildBatch(EncodeAll(rs)).Success? && AllInsertable(BuildBatch(EncodeAll(rs)).value)
    ensures var after := ApplyBatch(t, BuildBatch(EncodeAll(rs)).value);
      && rs[i].dt in after
      && |after[rs[i].dt]| == |Columns|
      && forall c :: 0 <= c < |Columns| ==> after[rs[i].dt][c] == ColumnValue(rs[i], Columns[c])
  {
    EncodedBatchInsertable(rs);
    var batch := BuildBatch(EncodeAll(rs)).value;
    var k := rs[i].dt;
    assert KeyOf(batch[i]) == k;
    assert k in BatchKeys(batch);
    var l := LastIndex(batch, k);
    assert l == i;
    var after := ApplyBatch(t, batch);
    assert after[k] == batch[i] by {
      ApplyBatchSpec(t, batch);
    }
    assert batch[i] == Project(Encode(rs[i])).value;
    HandoffRoundTrip(rs[i]);
  }

  /** The persisted table, updated in place by the persist stage. */
  class WeatherTable {
    var rows: Table

    ghost predicate Valid()
      reads this
    {
      WellFormed(rows)
    }

    constructor ()
      ensures Valid() && rows == map[]
    {
      rows := map[];
    }

    /**
     * `executemany`: the statement once per tuple on a staged copy of the table, which
     * replaces the table only when every tuple was applied (the commit).
     */
    method ExecuteMany(batch: seq<Params>) returns (ok: bool)
      requires Valid()
      modifies this
      ensures Valid()
      ensures ok <==> AllInsertable(batch)
      ensures ok ==> rows == ApplyBatch(old(rows), batch)
      ensures !ok ==> rows == old(rows)
    {
      var staged := rows;
      var i := 0;
      while i < |batch|
        invariant 0 <= i <= |batch|
        invariant AllInsertable(batch[..i])
        invariant staged == ApplyBatch(rows, batch[..i])
        invariant WellFormed(staged)
      {
        if !Insertable(batch[i]) {
          return false;
        }
        assert batch[..i + 1][..i] == batch[..i];
        staged := Upsert(staged, batch[i]);
        i := i + 1;
      }
      assert batch[..i] == batch;
      rows := staged;
      return true;
    }

    /** The persist stage: build every tuple first, then apply the batch. */
    method InsertWeatherData(records: seq<JsonRecord>) returns (r: Result<(), InsertError>)
      requires Valid()
      modifies this
      ensures Valid()
      ensures BuildBatch(records).Failure? ==>
        r == Failure(BuildBatch(records).error) && rows == old(rows)
      ensures BuildBatch(records).Success? ==>
        var batch := BuildBatch(records).value;
        && (r.Success? <==> AllInsertable(batch))
        && (r.Success? ==> rows == ApplyBatch(old(rows), batch))
        && (r.Failure? ==> r.error == DatabaseError && rows == old(rows))
    {
      var built := BuildBatch(records);
      if built.Failure? {
        return Failure(built.error);
      }
      var ok := ExecuteMany(built.value);
      if !ok {
        return Failure(DatabaseError);
      }
      return Success(());
    }
  }
}
