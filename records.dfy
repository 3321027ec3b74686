/**
 * The binned history the core reads: one row per 15-minute local bin with
 * an optional reading per signal (a column of the `binned` table), and the
 * single-column view of it that the baseline works on.
 */
module Records {
  import opened Optional
  import opened Calendar

  /** The columns of the `binned` table. */
  datatype Signal = TotalW | L1W | L2W | L3W | GridL1W | GridL2W | GridL3W | InverterW

  /** A binned record: its local bin start and the readings present in it (absent = NULL). */
  datatype Row = Row(stamp: Stamp, values: map<Signal, real>)

  /** One row of a single signal column: local date, hour, minute and the reading, if any. */
  datatype Sample = Sample(date: Date, hour: Hour, minute: Minute, value: Option<real>)

  function Reading(row: Row, signal: Signal): Option<real>
  {
    if signal in row.values then Some(row.values[signal]) else None
  }

  /** The `ts_local` column together with one value column of the DataFrame. */
  function Column(rows: seq<Row>, signal: Signal): (xs: seq<Sample>)
    ensures |xs| == |rows|
    ensures forall i :: 0 <= i < |rows| ==>
      xs[i] == Sample(rows[i].stamp.date, rows[i].stamp.hour, rows[i].stamp.minute, Reading(rows[i], signal))
  {
    seq(|rows|, i requires 0 <= i < |rows| =>
      Sample(rows[i].stamp.date, rows[i].stamp.hour, rows[i].stamp.minute, Reading(rows[i], signal)))
  }

  /** Every column of the same rows carries the same dates and times, row by row. */
  lemma ColumnTimesShared(rows: seq<Row>, a: Signal, b: Signal)
    ensures |Column(rows, a)| == |Column(rows, b)|
    ensures forall i :: 0 <= i < |rows| ==>
      Column(rows, a)[i].date == Column(rows, b)[i].date && Column(rows, a)[i].hour == Column(rows, b)[i].hour &&
      Column(rows, a)[i].minute == Column(rows, b)[i].minute
  {
  }

  /** The column of concatenated rows is the concatenation of their columns, and reads the row's own value. */
  lemma ColumnAppend(r1: seq<Row>, r2: seq<Row>, signal: Signal)
    ensures Column(r1 + r2, signal) == Column(r1, signal) + Column(r2, signal)
    ensures forall i :: 0 <= i < |r1| ==> (Column(r1, signal)[i].value.Some? <==> signal in r1[i].values)
  {
  }
}
