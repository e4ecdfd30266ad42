/** The training load index: a per-day sum of five min-max-normalised
    activity metrics, written into the day table as a new column. */
module TrainingLoad {
  import opened Normalization

  const ActivityScore := "activity_score"
  const MediumActivityMetMinutes := "medium_activity_met_minutes"
  const HighActivityMetMinutes := "high_activity_met_minutes"
  const TrainingVolume := "training_volume"
  const AverageMetMinutes := "average_met_minutes"

  /** The five input columns, in the order the source reads them. */
  const RequiredColumns: seq<string> :=
    [ActivityScore, MediumActivityMetMinutes, HighActivityMetMinutes, TrainingVolume, AverageMetMinutes]

  /** The column the index is written to. */
  const IndexColumn := "training_load_index"

  /** Addition of two float cells: NaN on either side gives NaN. */
  function AddCells(a: Cell, b: Cell): (c: Cell)
    ensures c.Num? <==> a.Num? && b.Num?
    ensures c.Num? ==> c.value == a.value + b.value
  {
    match (a, b)
    case (Num(x), Num(y)) => Num(x + y)
    case _ => NaN
  }

  /** Row-by-row addition of two columns of the same table. */
  function AddColumns(a: seq<Cell>, b: seq<Cell>): (r: seq<Cell>)
    requires |a| == |b|
    ensures |r| == |a|
    ensures forall i :: 0 <= i < |r| ==> (r[i].Num? <==> a[i].Num? && b[i].Num?)
    ensures forall i :: 0 <= i < |r| && r[i].Num? ==> r[i].value == a[i].value + b[i].value
  {
    seq(|a|, i requires 0 <= i < |a| => AddCells(a[i], b[i]))
  }

  /** The new column of `calculate_training_load_index`: the sum of the five
      normalised columns, taken in source order. Row i is a number exactly
      when all five inputs hold a number there and all five columns have
      spread, and it then lies in [0, 5]; `LoadIndexValue` shows that it is
      the exact sum of the five normalised terms. */
  function LoadIndex(activity: seq<Cell>, medium: seq<Cell>, high: seq<Cell>,
                     volume: seq<Cell>, average: seq<Cell>): (r: seq<Cell>)
    requires |medium| == |activity| && |high| == |activity|
    requires |volume| == |activity| && |average| == |activity|
    ensures |r| == |activity|
    ensures forall i :: 0 <= i < |r| ==>
      (r[i].Num? <==>
         activity[i].Num? && medium[i].Num? && high[i].Num? && volume[i].Num? && average[i].Num? &&
         HasSpread(activity) && HasSpread(medium) && HasSpread(high) && HasSpread(volume) && HasSpread(average))
    ensures forall i :: 0 <= i < |r| && r[i].Num? ==> 0.0 <= r[i].value <= 5.0
  {
    var na, nm, nh := NormalizeColumn(activity), NormalizeColumn(medium), NormalizeColumn(high);
    var nv, nx := NormalizeColumn(volume), NormalizeColumn(average);
    NormalizedHolds(activity);
    NormalizedHolds(medium);
    NormalizedHolds(high);
    NormalizedHolds(volume);
    NormalizedHolds(average);
    IndexFacts(activity, medium, high, volume, average, na, nm, nh, nv, nx,
               HasSpread(activity), HasSpread(medium), HasSpread(high), HasSpread(volume), HasSpread(average));
    Sum5(na, nm, nh, nv, nx)
  }

  /** Each number of the index is the exact sum of the five normalised terms of its row. */
  lemma LoadIndexValue(activity: seq<Cell>, medium: seq<Cell>, high: seq<Cell>,
                       volume: seq<Cell>, average: seq<Cell>, i: int)
    requires |medium| == |activity| && |high| == |activity|
    requires |volume| == |activity| && |average| == |activity|
    requires 0 <= i < |activity| && LoadIndex(activity, medium, high, volume, average)[i].Num?
    ensures LoadIndex(activity, medium, high, volume, average)[i].value ==
      NormalizeColumn(activity)[i].value + NormalizeColumn(medium)[i].value
      + NormalizeColumn(high)[i].value + NormalizeColumn(volume)[i].value
      + NormalizeColumn(average)[i].value
  {
    var na, nm, nh := NormalizeColumn(activity), NormalizeColumn(medium), NormalizeColumn(high);
    var nv, nx := NormalizeColumn(volume), NormalizeColumn(average);
    NormalizedHolds(activity);
    NormalizedHolds(medium);
    NormalizedHolds(high);
    NormalizedHolds(volume);
    NormalizedHolds(average);
    IndexFacts(activity, medium, high, volume, average, na, nm, nh, nv, nx,
               HasSpread(activity), HasSpread(medium), HasSpread(high), HasSpread(volume), HasSpread(average));
  }

  /** `a + b + c + d + e` on five columns of one table, left to right; each
      row is the sum of that row's five cells. */
  function Sum5(a: seq<Cell>, b: seq<Cell>, c: seq<Cell>, d: seq<Cell>, e: seq<Cell>): (r: seq<Cell>)
    requires |b| == |a| && |c| == |a| && |d| == |a| && |e| == |a|
    ensures |r| == |a|
    ensures forall i :: 0 <= i < |a| ==> r[i] == AddCells(AddCells(AddCells(AddCells(a[i], b[i]), c[i]), d[i]), e[i])
  {
    AddColumns(AddColumns(AddColumns(AddColumns(a, b), c), d), e)
  }

  /** What `NormalizeColumn` promises of `n` for the input column `col`
      whose spread is `spread`: a number exactly where `col` has one and the
      column has spread, and every number in [0, 1]. */
  predicate Normalized(col: seq<Cell>, n: seq<Cell>, spread: bool) {
    && |n| == |col|
    && (forall i :: 0 <= i < |col| ==> (n[i].Num? <==> col[i].Num? && spread))
    && (forall i :: 0 <= i < |col| && n[i].Num? ==> 0.0 <= n[i].value <= 1.0)
  }

  /** `NormalizeColumn` meets `Normalized`. */
  lemma NormalizedHolds(col: seq<Cell>)
    ensures Normalized(col, NormalizeColumn(col), HasSpread(col))
  {
  }

  /** Row by row, the sum of five normalised columns: a number exactly when
      all five inputs hold a number and all five columns have spread, then
      the exact sum of the five terms, in [0, 5]. */
  lemma IndexFacts(a: seq<Cell>, b: seq<Cell>, c: seq<Cell>, d: seq<Cell>, e: seq<Cell>,
                   na: seq<Cell>, nb: seq<Cell>, nc: seq<Cell>, nd: seq<Cell>, ne: seq<Cell>,
                   sa: bool, sb: bool, sc: bool, sd: bool, se: bool)
    requires |b| == |a| && |c| == |a| && |d| == |a| && |e| == |a|
    requires Normalized(a, na, sa) && Normalized(b, nb, sb) && Normalized(c, nc, sc)
    requires Normalized(d, nd, sd) && Normalized(e, ne, se)
    ensures forall i :: 0 <= i < |a| ==>
      (Sum5(na, nb, nc, nd, ne)[i].Num? <==>
         a[i].Num? && b[i].Num? && c[i].Num? && d[i].Num? && e[i].Num? && sa && sb && sc && sd && se)
    ensures forall i :: 0 <= i < |a| && Sum5(na, nb, nc, nd, ne)[i].Num? ==>
      Sum5(na, nb, nc, nd, ne)[i].value == na[i].value + nb[i].value + nc[i].value + nd[i].value + ne[i].value
    ensures forall i :: 0 <= i < |a| && Sum5(na, nb, nc, nd, ne)[i].Num? ==>
      0.0 <= Sum5(na, nb, nc, nd, ne)[i].value <= 5.0
  {
    var r := Sum5(na, nb, nc, nd, ne);
    forall i | 0 <= i < |a|
      ensures r[i].Num? <==> a[i].Num? && b[i].Num? && c[i].Num? && d[i].Num? && e[i].Num? && sa && sb && sc && sd && se
      ensures r[i].Num? ==> r[i].value == na[i].value + nb[i].value + nc[i].value + nd[i].value + ne[i].value
      ensures r[i].Num? ==> 0.0 <= r[i].value <= 5.0
    {
      RowSum(na[i], nb[i], nc[i], nd[i], ne[i]);
    }
  }

  /** One row of the index: the sum of five normalised cells. */
  lemma RowSum(a: Cell, b: Cell, c: Cell, d: Cell, e: Cell)
    requires a.Num? ==> 0.0 <= a.value <= 1.0
    requires b.Num? ==> 0.0 <= b.value <= 1.0
    requires c.Num? ==> 0.0 <= c.value <= 1.0
    requires d.Num? ==> 0.0 <= d.value <= 1.0
    requires e.Num? ==> 0.0 <= e.value <= 1.0
    ensures var s := AddCells(AddCells(AddCells(AddCells(a, b), c), d), e);
      && (s.Num? <==> a.Num? && b.Num? && c.Num? && d.Num? && e.Num?)
      && (s.Num? ==> s.value == a.value + b.value + c.value + d.value + e.value)
      && (s.Num? ==> 0.0 <= s.value <= 5.0)
  {
  }

  /** A column without spread (for instance a constant one) makes the
      source divide zero by zero, and the NaN it yields spreads to every
      row of the index. */
  lemma FlatColumnVoidsIndex(activity: seq<Cell>, medium: seq<Cell>, high: seq<Cell>,
                             volume: seq<Cell>, average: seq<Cell>)
    requires |medium| == |activity| && |high| == |activity|
    requires |volume| == |activity| && |average| == |activity|
    requires !HasSpread(activity) || !HasSpread(medium) || !HasSpread(high) ||
             !HasSpread(volume) || !HasSpread(average)
    ensures forall i :: 0 <= i < |activity| ==> LoadIndex(activity, medium, high, volume, average)[i] == NaN
  {
  }

  /** A one-day window has no spread in any column, so its index is NaN. */
  lemma SingleDayIndexUndefined(activity: seq<Cell>, medium: seq<Cell>, high: seq<Cell>,
                                volume: seq<Cell>, average: seq<Cell>)
    requires |activity| == 1 && |medium| == 1 && |high| == 1 && |volume| == 1 && |average| == 1
    ensures LoadIndex(activity, medium, high, volume, average) == [NaN]
  {
    HasSpreadIff(activity);
    assert !HasSpread(activity);
    FlatColumnVoidsIndex(activity, medium, high, volume, average);
  }

  /** What `calculate_training_load_index` did: done, or stopped by the
      first required column the table lacks (pandas raises KeyError). */
  datatype Outcome = Done | MissingColumn(name: string)

  /** The first of `names` that is not a column of the table, in order. */
  function FirstAbsent(names: seq<string>, columns: map<string, seq<Cell>>): (o: Outcome)
    ensures o.Done? <==> forall k :: 0 <= k < |names| ==> names[k] in columns
    ensures o.MissingColumn? ==>
      exists k :: 0 <= k < |names| && names[k] == o.name && o.name !in columns &&
        forall l :: 0 <= l < k ==> names[l] in columns
  {
    if |names| == 0 then Done
    else if names[0] !in columns then MissingColumn(names[0])
    else
      var o := FirstAbsent(names[1..], columns);
      if o.MissingColumn? then
        var k :| 0 <= k < |names| - 1 && names[1..][k] == o.name && o.name !in columns &&
          forall l :: 0 <= l < k ==> names[1..][l] in columns;
        assert names[k + 1] == o.name;
        o
      else o
  }

  /** The table holds all five input columns: exactly the case in which
      the source reads every column without a `KeyError`. */
  predicate HasInputColumns(columns: map<string, seq<Cell>>)
    ensures HasInputColumns(columns) <==> FirstAbsent(RequiredColumns, columns).Done?
  {
    assert RequiredColumns[0] == ActivityScore && RequiredColumns[1] == MediumActivityMetMinutes;
    assert RequiredColumns[2] == HighActivityMetMinutes && RequiredColumns[3] == TrainingVolume;
    assert RequiredColumns[4] == AverageMetMinutes;
    ActivityScore in columns && MediumActivityMetMinutes in columns && HighActivityMetMinutes in columns &&
    TrainingVolume in columns && AverageMetMinutes in columns
  }

  /** The table of daily records, one row per day, the day order fixed.
      Each column is a numeric column of that many rows. */
  class Table {
    var columns: map<string, seq<Cell>>
    const rows: nat

    ghost predicate Valid()
      reads this
    {
      forall name :: name in columns ==> |columns[name]| == rows
    }

    constructor (columns: map<string, seq<Cell>>, rows: nat)
      requires forall name :: name in columns ==> |columns[name]| == rows
      ensures Valid()
      ensures this.columns == columns && this.rows == rows
    {
      this.columns := columns;
      this.rows := rows;
    }

    /** `calculate_training_load_index`: adds (or overwrites) the
        `training_load_index` column of this very table; every other column
        and the rows stay as they were. A missing input column stops it
        before anything is written. */
    method CalculateTrainingLoadIndex() returns (outcome: Outcome)
      requires Valid()
      modifies this
      ensures Valid()
      ensures outcome == FirstAbsent(RequiredColumns, old(columns))
      ensures outcome.Done? <==> HasInputColumns(old(columns))
      ensures outcome.MissingColumn? ==> columns == old(columns)
      ensures outcome.Done? ==> columns.Keys == old(columns).Keys + {IndexColumn}
      ensures outcome.Done? ==>
        forall name :: name in old(columns) && name != IndexColumn ==> columns[name] == old(columns)[name]
      ensures outcome.Done? ==>
        columns[IndexColumn] ==
          LoadIndex(old(columns)[ActivityScore], old(columns)[MediumActivityMetMinutes],
                    old(columns)[HighActivityMetMinutes], old(columns)[TrainingVolume],
                    old(columns)[AverageMetMinutes])
    {
      outcome := FirstAbsent(RequiredColumns, columns);
      if outcome.Done? {
        assert RequiredColumns[0] in columns && RequiredColumns[1] in columns;
        assert RequiredColumns[2] in columns && RequiredColumns[3] in columns;
        assert RequiredColumns[4] in columns;
        var index := LoadIndex(columns[ActivityScore], columns[MediumActivityMetMinutes],
                               columns[HighActivityMetMinutes], columns[TrainingVolume],
                               columns[AverageMetMinutes]);
        columns := columns[IndexColumn := index];
      }
    }
  }
}
