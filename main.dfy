/**
 * main.py: the daily ILC cycle over the add-on's store, the flooring of a
 * poll instant to its bin, and the grid-power fallback that estimates a
 * phase's power from its current when no power sensor reports.
 */
module App {
  import opened Optional
  import opened Numbers
  import opened Calendar
  import opened Records
  import opened Forecast
  import opened Ilc

  // ------------------------------------------------------------ bin flooring

  /**
   * `_local_bin_start(ts_utc)` on the local time fields (the time-zone
   * conversion is done by the caller): the minute floored to a multiple of
   * `binMinutes`, seconds and microseconds zero.
   */
  function LocalBinStart(t: Stamp, binMinutes: int): (r: Stamp)
    requires binMinutes > 0
    ensures r.date == t.date && r.hour == t.hour
    ensures r.minute <= t.minute < r.minute + binMinutes
    ensures r.minute % binMinutes == 0
    ensures r.second == 0 && r.micro == 0
  {
    FloorMultiple(t.minute, binMinutes);
    var minute := (t.minute / binMinutes) * binMinutes;
    Stamp(t.date, t.hour, minute, 0, 0)
  }

  /** Flooring to a multiple of `b` lands on the multiple just at or below `m`. */
  lemma FloorMultiple(m: int, b: int)
    requires 0 <= m && b > 0
    ensures 0 <= (m / b) * b <= m < (m / b) * b + b
    ensures ((m / b) * b) % b == 0
  {
    var q, r := m / b, m % b;
    assert m == q * b + r;
    DivModUnique(q * b, b, q, 0);
  }

  lemma {:induction false} MulAtLeast(d: int, b: int)
    requires d >= 1 && b > 0
    ensures d * b >= b
  {
    if d > 1 {
      MulAtLeast(d - 1, b);
      assert d * b == (d - 1) * b + b;
    }
  }

  /** Euclidean division has one quotient and one remainder. */
  lemma DivModUnique(n: int, b: int, q: int, r: int)
    requires b > 0 && 0 <= r < b && n == q * b + r
    ensures n % b == r && n / b == q
  {
    var q2, r2 := n / b, n % b;
    assert n == q2 * b + r2;
    assert (q - q2) * b == r2 - r;
    if q > q2 {
      MulAtLeast(q - q2, b);
    } else if q < q2 {
      MulAtLeast(q2 - q, b);
    }
  }

  /** With 15-minute bins the bin start lies in the same forecast slot as the instant. */
  lemma BinStartSameSlot(t: Stamp)
    ensures BinOf(LocalBinStart(t, 15)) == BinOf(t)
    ensures MinuteOfDay(LocalBinStart(t, 15)) == BinOf(t) * 15
  {
    var r := LocalBinStart(t, 15);
    assert r.minute / 15 == t.minute / 15;
  }

  // ------------------------------------------------------------ grid fallback

  /**
   * A phase's grid power: the measured power if present, otherwise
   * `current * grid_voltage_v` if the current is present, otherwise absent.
   */
  function Fallback(power: Option<real>, current: Option<real>, voltage: real): (w: Option<real>)
    ensures power.Some? ==> w == power
    ensures power.None? && current.Some? ==> w == Some(current.value * voltage)
    ensures w.None? <==> power.None? && current.None?
  {
    if power.None? && current.Some? then Some(current.value * voltage) else power
  }

  /** The grid-power block of `poll_once`: `results.get(key)` with a missing key read as None. */
  method PollGridPowers(results: map<string, Option<real>>, voltage: real)
    returns (gridL1W: Option<real>, gridL2W: Option<real>, gridL3W: Option<real>)
    ensures gridL1W == Fallback(Lookup(results, "grid_l1_power"), Lookup(results, "grid_l1_current"), voltage)
    ensures gridL2W == Fallback(Lookup(results, "grid_l2_power"), Lookup(results, "grid_l2_current"), voltage)
    ensures gridL3W == Fallback(Lookup(results, "grid_l3_power"), Lookup(results, "grid_l3_current"), voltage)
  {
    gridL1W := Lookup(results, "grid_l1_power");
    gridL2W := Lookup(results, "grid_l2_power");
    gridL3W := Lookup(results, "grid_l3_power");

    if gridL1W.None? && Lookup(results, "grid_l1_current").Some? {
      gridL1W := Some(results["grid_l1_current"].value * voltage);
      assert gridL1W.value == Fallback(None, Lookup(results, "grid_l1_current"), voltage).value;
    }
    if gridL2W.None? && Lookup(results, "grid_l2_current").Some? {
      gridL2W := Some(results["grid_l2_current"].value * voltage);
      assert gridL2W.value == Fallback(None, Lookup(results, "grid_l2_current"), voltage).value;
    }
    if gridL3W.None? && Lookup(results, "grid_l3_current").Some? {
      gridL3W := Some(results["grid_l3_current"].value * voltage);
      assert gridL3W.value == Fallback(None, Lookup(results, "grid_l3_current"), voltage).value;
    }
  }

  /** `get_val(entity_id)` of `latest`: a configured entity's latest value, if any. */
  function GetVal(entity: Option<string>, values: map<string, Option<real>>): (v: Option<real>)
    ensures entity.None? || entity == Some("") ==> v.None?
    ensures v.Some? ==> entity.Some? && entity.value in values && values[entity.value] == v
    ensures entity.Some? && entity.value != "" && entity.value in values ==> v == values[entity.value]
  {
    if entity.Some? && entity.value != "" && entity.value in values then values[entity.value] else None
  }

  /**
   * One phase of `latest`: the current, the (possibly estimated) power and
   * the `grid_lN_w_estimated` flag.
   */
  method LatestGridPhase(values: map<string, Option<real>>, powerEntity: Option<string>,
                         currentEntity: Option<string>, voltage: real)
    returns (amps: Option<real>, watts: Option<real>, estimated: bool)
    ensures amps == GetVal(currentEntity, values)
    ensures watts == Fallback(GetVal(powerEntity, values), amps, voltage)
    ensures estimated <==> GetVal(powerEntity, values).None? && amps.Some?
  {
    amps := GetVal(currentEntity, values);
    watts := GetVal(powerEntity, values);
    if watts.None? && amps.Some? {
      watts := Some(amps.value * voltage);
      assert watts.value == Fallback(None, amps, voltage).value;
      estimated := true;
    } else {
      estimated := false;
    }
  }

  /** The estimate is reported exactly when a power value was made up from the current. */
  lemma EstimatedOnlyWhenMadeUp(power: Option<real>, current: Option<real>, voltage: real)
    ensures (power.None? && current.Some?) <==> (Fallback(power, current, voltage).Some? && power.None?)
  {
  }

  // --------------------------------------------------------------- the store

  /** The `ilc_curve` rows of one signal, as `fetch_ilc_curve` returns them (`{}` when absent). */
  function Existing(curves: map<Signal, map<int, real>>, signal: Signal): map<int, real>
  {
    if signal in curves then curves[signal] else map[]
  }

  /** The rows `fetch_binned_since` returns: those of local date `first` or later, in order. */
  function RowsFrom(rows: seq<Row>, first: Date): (out: seq<Row>)
    ensures |out| <= |rows|
    ensures forall r :: r in out <==> r in rows && !Before(r.stamp.date, first)
  {
    if rows == [] then []
    else
      var init := RowsFrom(rows[..|rows| - 1], first);
      var last := rows[|rows| - 1];
      assert rows == rows[..|rows| - 1] + [last];
      if Before(last.stamp.date, first) then init else init + [last]
  }

  /**
   * Rows as the store returns them, `ORDER BY ts_local_bin_start ASC`: no
   * row's local stamp comes before that of a row returned earlier.
   */
  predicate Ordered(rows: seq<Row>)
  {
    forall i, j :: 0 <= i < j < |rows| ==> !StampBefore(rows[j].stamp, rows[i].stamp)
  }

  /** Keeping some of the rows before the last one, then the last one, keeps the order. */
  lemma OrderedSnoc(rows: seq<Row>, out: seq<Row>)
    requires |rows| > 0 && Ordered(rows) && Ordered(out)
    requires forall r :: r in out ==> r in rows[..|rows| - 1]
    ensures Ordered(out + [rows[|rows| - 1]])
  {
    var last := rows[|rows| - 1];
    forall i | 0 <= i < |out|
      ensures !StampBefore(last.stamp, out[i].stamp)
    {
      var pre := rows[..|rows| - 1];
      assert out[i] in out;
      assert out[i] in pre;
      var k :| 0 <= k < |pre| && pre[k] == out[i];
      assert rows[k] == out[i];
    }
  }

  /** Fetching the rows from a date on keeps the store's order. */
  lemma {:induction false} RowsFromOrdered(rows: seq<Row>, first: Date)
    requires Ordered(rows)
    ensures Ordered(RowsFrom(rows, first))
  {
    if rows != [] {
      var init := rows[..|rows| - 1];
      RowsFromOrdered(init, first);
      if !Before(rows[|rows| - 1].stamp.date, first) {
        OrderedSnoc(rows, RowsFrom(init, first));
      }
    }
  }

  /** Cutting the rows at a date keeps their order. */
  lemma {:induction false} RowsBeforeOrdered(rows: seq<Row>, end: Date)
    requires Ordered(rows)
    ensures Ordered(RowsBefore(rows, end))
  {
    if rows != [] {
      var init := rows[..|rows| - 1];
      RowsBeforeOrdered(init, end);
      if Before(rows[|rows| - 1].stamp.date, end) {
        OrderedSnoc(rows, RowsBefore(init, end));
      }
    }
  }

  /** The rows dated strictly before `end` (`df["ts_local"].dt.date < today`, and the SQL upper bound). */
  function RowsBefore(rows: seq<Row>, end: Date): (out: seq<Row>)
    ensures |out| <= |rows|
    ensures forall r :: r in out <==> r in rows && Before(r.stamp.date, end)
  {
    if rows == [] then []
    else
      var init := RowsBefore(rows[..|rows| - 1], end);
      var last := rows[|rows| - 1];
      assert rows == rows[..|rows| - 1] + [last];
      if Before(last.stamp.date, end) then init + [last] else init
  }

  /** The rows of `fetch_binned_between`, their stored timestamps taken as parsed. */
  function AsIlcRows(rows: seq<Row>): (out: seq<IlcRow>)
    ensures |out| == |rows|
    ensures forall i :: 0 <= i < |rows| ==> out[i] == IlcRow(Some(rows[i].stamp), rows[i].values)
  {
    seq(|rows|, i requires 0 <= i < |rows| => IlcRow(Some(rows[i].stamp), rows[i].values))
  }

  /** The readings of `signal` in the rows, front to back, each with its row's timestamp. */
  function Readings(rows: seq<Row>, signal: Signal): seq<Observation>
  {
    if rows == [] then []
    else
      (if signal in rows[0].values then [Observation(Some(rows[0].stamp), rows[0].values[signal])] else [])
        + Readings(rows[1..], signal)
  }

  lemma AsIlcRowsAppend(a: seq<Row>, b: seq<Row>)
    ensures AsIlcRows(a + b) == AsIlcRows(a) + AsIlcRows(b)
  {
  }

  /** The observations `update_ilc_curve` learns from are exactly the rows' readings, in row order. */
  lemma {:induction false} ObservationsAreReadings(rows: seq<Row>, signal: Signal)
    ensures Present(AsIlcRows(rows), signal) == Readings(rows, signal)
  {
    if rows != [] {
      var head, tail := AsIlcRows([rows[0]]), AsIlcRows(rows[1..]);
      assert rows == [rows[0]] + rows[1..];
      AsIlcRowsAppend([rows[0]], rows[1..]);
      assert AsIlcRows(rows) == head + tail;
      PresentAppend(head, tail, signal);
      assert head[..0] == [];
      assert Present(head, signal) ==
        if signal in rows[0].values then [Observation(Some(rows[0].stamp), rows[0].values[signal])] else [];
      ObservationsAreReadings(rows[1..], signal);
    }
  }

  /** The ILC signals, each with its own `cmax`, in update order; `alpha` is 0.2 for all. */
  const Policy: seq<(Signal, real)> :=
    [(TotalW, 4000.0), (L1W, 2000.0), (L2W, 2000.0), (L3W, 2000.0), (InverterW, 4000.0)]

  const Alpha: real := 0.2

  const MarkerKey: string := "last_ilc_update_local"

  /**
   * The curve the cycle computes for one signal: yesterday's rows, the
   * smoothed baseline of the same rows, and the signal's stored curve.
   */
  function CycleCurve(binned: seq<Row>, signal: Signal, cmax: real, existing: map<int, real>,
                      yesterday: Date, today: Date): (c: seq<Float>)
    ensures |c| == 96
  {
    var between := RowsBefore(RowsFrom(binned, yesterday), today);
    var baseline := AsMap(SignalBaseline(between, signal));
    IlcCurve(AsIlcRows(between), signal, baseline, existing, Alpha, cmax)
  }

  /**
   * `save_ilc_curve`: `INSERT OR REPLACE` of bins 0..95 into the signal's
   * rows. A NaN value would be stored as NULL in a NOT NULL column, so the
   * statement fails and the transaction rolls back: None.
   */
  function Saved(table: map<int, real>, curve: seq<Float>): (r: Option<map<int, real>>)
    requires |curve| == 96
    ensures r.Some? <==> Finite(curve)
    ensures r.Some? ==> forall i :: 0 <= i < 96 ==> i in r.value && Num(r.value[i]) == curve[i]
    ensures r.Some? ==> forall i :: i in table && !(0 <= i < 96) ==> i in r.value && r.value[i] == table[i]
    ensures r.Some? ==> forall i :: i in r.value ==> i in table || 0 <= i < 96
  {
    if Finite(curve) then Some(table + map i | 0 <= i < 96 :: curve[i].v)
    else None
  }

  /** One iteration's load, update and save, given the signal, its `cmax` and its stored curve. */
  type SaveStep = (Signal, real, map<int, real>) -> Option<map<int, real>>

  /** The step of the daily cycle on the given day. */
  function CycleSave(binned: seq<Row>, yesterday: Date, today: Date): SaveStep
  {
    (signal: Signal, cmax: real, existing: map<int, real>) =>
      Saved(existing, CycleCurve(binned, signal, cmax, existing, yesterday, today))
  }

  /**
   * The loop over `policy`: the curve table after it, and the signal whose
   * save failed, if any (the exception ends the loop there).
   */
  function RunPolicy(save: SaveStep, curves: map<Signal, map<int, real>>, policy: seq<(Signal, real)>)
    : (map<Signal, map<int, real>>, Option<Signal>)
    decreases |policy|
  {
    if policy == [] then (curves, None)
    else
      var (signal, cmax) := policy[0];
      match save(signal, cmax, Existing(curves, signal))
      case None => (curves, Some(signal))
      case Some(t) => RunPolicy(save, curves[signal := t], policy[1..])
  }

  /** What one call of `maybe_update_ilc` did. */
  datatype CycleOutcome =
    | Skipped              // the marker already names today
    | DateOverflow         // `today - timedelta(days=1)` raised OverflowError
    | NoRows               // nothing in the store since yesterday's midnight
    | SaveFailed(signal: Signal)  // a NaN in that signal's curve; the exception ends the cycle
    | Updated              // all five curves saved and the marker set

  /** The add-on's SQLite database, reduced to what the daily cycle reads and writes. */
  class Store {
    var metadata: map<string, string>
    var curves: map<Signal, map<int, real>>
    var binned: seq<Row>

    /** The binned rows are held in the order the store returns them. */
    predicate Valid()
      reads this
    {
      Ordered(binned)
    }

    constructor(metadata: map<string, string>, curves: map<Signal, map<int, real>>, binned: seq<Row>)
      requires Ordered(binned)
      ensures Valid()
      ensures this.metadata == metadata && this.curves == curves && this.binned == binned
    {
      this.metadata := metadata;
      this.curves := curves;
      this.binned := binned;
    }

    /** `maybe_update_ilc(bin_start)` for `today == bin_start.date()`. */
    method MaybeUpdateIlc(today: Date) returns (outcome: CycleOutcome)
      requires Valid()
      modifies this`metadata, this`curves
      ensures Valid() && binned == old(binned)
      ensures outcome.Skipped? <==> !ShouldUpdateIlc(GetMetadata(old(metadata), MarkerKey), today)
      ensures outcome.DateOverflow? <==> !outcome.Skipped? && PrevDay(today).None?
      ensures outcome.NoRows? <==>
        !outcome.Skipped? && PrevDay(today).Some? && RowsFrom(binned, PrevDay(today).value) == []
      ensures outcome.Skipped? || outcome.DateOverflow? || outcome.NoRows? ==>
        metadata == old(metadata) && curves == old(curves)
      ensures outcome.SaveFailed? ==> metadata == old(metadata)
      ensures outcome.Updated? ==> metadata == old(metadata)[MarkerKey := IsoDate(today)]
      ensures outcome.SaveFailed? || outcome.Updated? ==>
        (curves, if outcome.SaveFailed? then Some(outcome.signal) else None)
          == RunPolicy(CycleSave(binned, PrevDay(today).value, today), old(curves), Policy)
    {
      var lastUpdate := GetMetadata(metadata, MarkerKey);
      if !ShouldUpdateIlc(lastUpdate, today) {
        return Skipped;
      }
      var prev := PrevDay(today);
      if prev.None? {
        return DateOverflow;
      }
      var yesterday := prev.value;
      var rows := RowsFrom(binned, yesterday);
      if rows == [] {
        return NoRows;
      }
      outcome := RunCycle(yesterday, today, Policy);
    }

    /** The part of `maybe_update_ilc` after its checks: update the curves of `policy`, then set the marker. */
    method RunCycle(yesterday: Date, today: Date, policy: seq<(Signal, real)>) returns (outcome: CycleOutcome)
      modifies this`metadata, this`curves
      ensures outcome.SaveFailed? || outcome.Updated?
      ensures outcome.SaveFailed? ==> metadata == old(metadata)
      ensures outcome.Updated? ==> metadata == old(metadata)[MarkerKey := IsoDate(today)]
      ensures (curves, if outcome.SaveFailed? then Some(outcome.signal) else None)
           == RunPolicy(CycleSave(binned, yesterday, today), old(curves), policy)
    {
      var failed := UpdateCurves(yesterday, today, policy);
      if failed.Some? {
        return SaveFailed(failed.value);
      }
      SetMarker(today);
      return Updated;
    }

    /** `set_metadata(db_path, "last_ilc_update_local", today.isoformat())`. */
    method SetMarker(today: Date)
      modifies this`metadata
      ensures metadata == old(metadata)[MarkerKey := IsoDate(today)]
    {
      metadata := metadata[MarkerKey := IsoDate(today)];
    }

    /** The loop of `maybe_update_ilc` over the signals of `policy`, saving each curve in turn. */
    method UpdateCurves(yesterday: Date, today: Date, policy: seq<(Signal, real)>) returns (failed: Option<Signal>)
      modifies this`curves
      ensures (curves, failed) == RunPolicy(CycleSave(binned, yesterday, today), old(curves), policy)
    {
      var save := CycleSave(binned, yesterday, today);
      for i := 0 to |policy|
        invariant RunPolicy(save, curves, policy[i..]) == RunPolicy(save, old(curves), policy)
      {
        var (signal, cmax) := policy[i];
        var existing := Existing(curves, signal);
        var updated := CycleCurve(binned, signal, cmax, existing, yesterday, today);
        var saved := Saved(existing, updated);
        assert saved == save(signal, cmax, existing);
        if saved.None? {
          return Some(signal);
        }
        curves := curves[signal := saved.value];
        assert policy[i..][1..] == policy[i + 1..];
      }
      return None;
    }
  }

  /** `get_metadata(db_path, key)`: None for a missing key. */
  function GetMetadata(m: map<string, string>, key: string): (v: Option<string>)
    ensures v.Some? <==> key in m
    ensures v.Some? ==> v.value == m[key]
  {
    if key in m then Some(m[key]) else None
  }

  /** Reading a key just written gives the written value; every other key reads as before. */
  lemma MetadataAfterSet(m: map<string, string>, key: string, value: string, other: string)
    ensures GetMetadata(m[key := value], key) == Some(value)
    ensures other != key ==> GetMetadata(m[key := value], other) == GetMetadata(m, other)
  {
  }

  /** The rows the cycle learns from come in time order, as the store keeps them. */
  lemma CycleRowsOrdered(binned: seq<Row>, yesterday: Date, today: Date)
    requires Ordered(binned)
    ensures Ordered(RowsBefore(RowsFrom(binned, yesterday), today))
  {
    RowsFromOrdered(binned, yesterday);
    RowsBeforeOrdered(RowsFrom(binned, yesterday), today);
  }

  /** The cycle updates five distinct signals. */
  lemma PolicyDistinct()
    ensures forall i, j :: 0 <= i < j < |Policy| ==> Policy[i].0 != Policy[j].0
    ensures |Policy| == 5
  {
  }

  /** The baseline of the cycle comes from yesterday's rows only. */
  lemma BaselineRowsAreYesterday(binned: seq<Row>, today: Date, r: Row)
    requires PrevDay(today).Some?
    requires r in RowsBefore(RowsFrom(binned, PrevDay(today).value), today)
    ensures r in binned && r.stamp.date == PrevDay(today).value
  {
    NothingBetweenPrevDay(today, r.stamp.date);
  }

  /** The signals a policy names. */
  function Signals(policy: seq<(Signal, real)>): set<Signal>
    decreases |policy|
  {
    if policy == [] then {} else {policy[0].0} + Signals(policy[1..])
  }

  /** A policy names each signal once. */
  predicate DistinctSignals(policy: seq<(Signal, real)>)
    decreases |policy|
  {
    policy == [] || (policy[0].0 !in Signals(policy[1..]) && DistinctSignals(policy[1..]))
  }

  /** Every slot 0..95 of a stored curve is present and lies in [-cmax, cmax]. */
  predicate SavedWithin(table: map<int, real>, cmax: real)
  {
    forall i :: 0 <= i < 96 ==> i in table && -cmax <= table[i] <= cmax
  }

  /** The stored slots 0..95 of a curve lie in [-cmax, cmax] (missing ones read as 0.0). */
  predicate StoredWithin(table: map<int, real>, cmax: real)
  {
    forall i :: i in table && 0 <= i < 96 ==> -cmax <= table[i] <= cmax
  }

  /** Each policy signal has a non-negative bound and its stored curve lies within it. */
  predicate PolicyWithin(curves: map<Signal, map<int, real>>, policy: seq<(Signal, real)>)
    decreases |policy|
  {
    policy == [] ||
    (policy[0].1 >= 0.0 && StoredWithin(Existing(curves, policy[0].0), policy[0].1) && PolicyWithin(curves, policy[1..]))
  }

  /** Each policy signal has a complete stored curve within its bound. */
  predicate PolicySaved(curves: map<Signal, map<int, real>>, policy: seq<(Signal, real)>)
    decreases |policy|
  {
    policy == [] ||
    (SavedWithin(Existing(curves, policy[0].0), policy[0].1) && PolicySaved(curves, policy[1..]))
  }

  /** A step that, when it saves, saves a complete curve within the bound of a curve that was within it. */
  ghost predicate KeepsWithin(save: SaveStep)
  {
    forall signal, cmax, existing :: cmax >= 0.0 && StoredWithin(existing, cmax) && save(signal, cmax, existing).Some? ==>
      SavedWithin(save(signal, cmax, existing).value, cmax)
  }

  /** The step saves every policy signal's curve whenever the stored one is within its bound. */
  ghost predicate AlwaysSaves(save: SaveStep, policy: seq<(Signal, real)>)
    decreases |policy|
  {
    policy == [] ||
    (SavesSignal(save, policy[0].0, policy[0].1) && AlwaysSaves(save, policy[1..]))
  }

  /** The step saves `signal` from every stored curve within `cmax`. */
  ghost predicate SavesSignal(save: SaveStep, signal: Signal, cmax: real)
  {
    forall existing :: StoredWithin(existing, cmax) ==> save(signal, cmax, existing).Some?
  }

  /** Yesterday's baseline of `signal` is finite at every slot. */
  predicate BaselineFinite(binned: seq<Row>, yesterday: Date, today: Date, signal: Signal)
  {
    var baseline := AsMap(SignalBaseline(RowsBefore(RowsFrom(binned, yesterday), today), signal));
    forall s :: 0 <= s < 96 ==> Get(baseline, s).Num?
  }

  /** Whether a policy's curves are within bounds depends only on the curves of its signals. */
  lemma {:induction false} PolicyWithinFrame(a: map<Signal, map<int, real>>, b: map<Signal, map<int, real>>,
                                             policy: seq<(Signal, real)>)
    requires forall s :: s in Signals(policy) ==> Existing(a, s) == Existing(b, s)
    ensures PolicyWithin(a, policy) <==> PolicyWithin(b, policy)
    ensures PolicySaved(a, policy) <==> PolicySaved(b, policy)
    decreases |policy|
  {
    if policy != [] {
      PolicyWithinFrame(a, b, policy[1..]);
    }
  }

  /** Running a policy leaves every signal it does not name as it was. */
  lemma {:induction false} RunPolicyKeepsOthers(save: SaveStep, curves: map<Signal, map<int, real>>,
                                                policy: seq<(Signal, real)>)
    ensures forall s :: s !in Signals(policy) ==> Existing(RunPolicy(save, curves, policy).0, s) == Existing(curves, s)
    decreases |policy|
  {
    if policy != [] {
      var signal, cmax := policy[0].0, policy[0].1;
      var saved := save(signal, cmax, Existing(curves, signal));
      if saved.Some? {
        RunPolicyKeepsOthers(save, curves[signal := saved.value], policy[1..]);
      }
    }
  }

  /**
   * A complete run of a bound-keeping step over curves within their bounds
   * stores all 96 slots of every policy signal within its bound.
   */
  lemma {:induction false} RunPolicyBounded(save: SaveStep, curves: map<Signal, map<int, real>>,
                                            policy: seq<(Signal, real)>)
    requires KeepsWithin(save) && PolicyWithin(curves, policy) && DistinctSignals(policy)
    ensures var run := RunPolicy(save, curves, policy);
      run.1.None? ==> PolicySaved(run.0, policy)
    decreases |policy|
  {
    if policy != [] {
      var signal, cmax := policy[0].0, policy[0].1;
      var tail := policy[1..];
      var saved := save(signal, cmax, Existing(curves, signal));
      if saved.Some? {
        var next := curves[signal := saved.value];
        PolicyWithinFrame(curves, next, tail);
        RunPolicyBounded(save, next, tail);
        RunPolicyKeepsOthers(save, next, tail);
      }
    }
  }

  /** A step that always saves completes the run. */
  lemma {:induction false} RunPolicyCompletes(save: SaveStep, curves: map<Signal, map<int, real>>,
                                              policy: seq<(Signal, real)>)
    requires PolicyWithin(curves, policy) && DistinctSignals(policy) && AlwaysSaves(save, policy)
    ensures RunPolicy(save, curves, policy).1.None?
    ensures KeepsWithin(save) ==> PolicySaved(RunPolicy(save, curves, policy).0, policy)
    decreases |policy|
  {
    if policy != [] {
      var signal, cmax := policy[0].0, policy[0].1;
      var tail := policy[1..];
      var saved := save(signal, cmax, Existing(curves, signal));
      var next := curves[signal := saved.value];
      PolicyWithinFrame(curves, next, tail);
      RunPolicyCompletes(save, next, tail);
      if KeepsWithin(save) {
        RunPolicyBounded(save, curves, policy);
      }
    }
  }

  /** The daily cycle's step keeps curves within their bounds. */
  lemma CycleKeepsWithin(binned: seq<Row>, yesterday: Date, today: Date)
    ensures KeepsWithin(CycleSave(binned, yesterday, today))
  {
    var save := CycleSave(binned, yesterday, today);
    forall signal, cmax, existing | cmax >= 0.0 && StoredWithin(existing, cmax) && save(signal, cmax, existing).Some?
      ensures SavedWithin(save(signal, cmax, existing).value, cmax)
    {
      var between := RowsBefore(RowsFrom(binned, yesterday), today);
      var baseline := AsMap(SignalBaseline(between, signal));
      IlcCurveBounded(AsIlcRows(between), signal, baseline, existing, Alpha, cmax);
    }
  }

  /** With a finite baseline the daily cycle's step saves the signal's curve. */
  lemma CycleSaves(binned: seq<Row>, yesterday: Date, today: Date, signal: Signal, cmax: real)
    requires cmax >= 0.0 && BaselineFinite(binned, yesterday, today, signal)
    ensures SavesSignal(CycleSave(binned, yesterday, today), signal, cmax)
  {
    forall existing | StoredWithin(existing, cmax)
      ensures CycleSave(binned, yesterday, today)(signal, cmax, existing).Some?
    {
      var between := RowsBefore(RowsFrom(binned, yesterday), today);
      var baseline := AsMap(SignalBaseline(between, signal));
      IlcCurveBounded(AsIlcRows(between), signal, baseline, existing, Alpha, cmax);
    }
  }

  /** The signals the daily cycle updates, once each. */
  lemma PolicySignals()
    ensures Signals(Policy) == {TotalW, L1W, L2W, L3W, InverterW}
    ensures DistinctSignals(Policy)
  {
    var p4 := [(InverterW, 4000.0)];
    var p3 := [(L3W, 2000.0)] + p4;
    var p2 := [(L2W, 2000.0)] + p3;
    var p1 := [(L1W, 2000.0)] + p2;
    assert Policy[1..] == p1 && p1[1..] == p2 && p2[1..] == p3 && p3[1..] == p4 && p4[1..] == [];
    assert Signals(p4) == {InverterW};
    assert Signals(p3) == {L3W, InverterW};
    assert Signals(p2) == {L2W, L3W, InverterW};
    assert Signals(p1) == {L1W, L2W, L3W, InverterW};
  }

  /** The policy conditions for the daily cycle, spelled out signal by signal. */
  lemma PolicyUnfolded(binned: seq<Row>, curves: map<Signal, map<int, real>>, yesterday: Date, today: Date)
    ensures PolicyWithin(curves, Policy) <==>
      StoredWithin(Existing(curves, TotalW), 4000.0) && StoredWithin(Existing(curves, L1W), 2000.0) &&
      StoredWithin(Existing(curves, L2W), 2000.0) && StoredWithin(Existing(curves, L3W), 2000.0) &&
      StoredWithin(Existing(curves, InverterW), 4000.0)
    ensures PolicySaved(curves, Policy) <==>
      SavedWithin(Existing(curves, TotalW), 4000.0) && SavedWithin(Existing(curves, L1W), 2000.0) &&
      SavedWithin(Existing(curves, L2W), 2000.0) && SavedWithin(Existing(curves, L3W), 2000.0) &&
      SavedWithin(Existing(curves, InverterW), 4000.0)
  {
    var p4 := [(InverterW, 4000.0)];
    var p3 := [(L3W, 2000.0)] + p4;
    var p2 := [(L2W, 2000.0)] + p3;
    var p1 := [(L1W, 2000.0)] + p2;
    assert Policy[1..] == p1 && p1[1..] == p2 && p2[1..] == p3 && p3[1..] == p4 && p4[1..] == [];
  }

  /** With all five baselines finite, the daily cycle's step saves every signal. */
  lemma CycleAlwaysSaves(binned: seq<Row>, yesterday: Date, today: Date)
    requires BaselineFinite(binned, yesterday, today, TotalW) && BaselineFinite(binned, yesterday, today, L1W) &&
             BaselineFinite(binned, yesterday, today, L2W) && BaselineFinite(binned, yesterday, today, L3W) &&
             BaselineFinite(binned, yesterday, today, InverterW)
    ensures AlwaysSaves(CycleSave(binned, yesterday, today), Policy)
  {
    CycleSaves(binned, yesterday, today, TotalW, 4000.0);
    CycleSaves(binned, yesterday, today, L1W, 2000.0);
    CycleSaves(binned, yesterday, today, L2W, 2000.0);
    CycleSaves(binned, yesterday, today, L3W, 2000.0);
    CycleSaves(binned, yesterday, today, InverterW, 4000.0);
    PolicySaves(CycleSave(binned, yesterday, today));
  }

  /** A step that saves each of the five signals within its bound saves the whole policy. */
  lemma PolicySaves(save: SaveStep)
    requires SavesSignal(save, TotalW, 4000.0) && SavesSignal(save, L1W, 2000.0) && SavesSignal(save, L2W, 2000.0) &&
             SavesSignal(save, L3W, 2000.0) && SavesSignal(save, InverterW, 4000.0)
    ensures AlwaysSaves(save, Policy)
  {
    var p4 := [(InverterW, 4000.0)];
    var p3 := [(L3W, 2000.0)] + p4;
    var p2 := [(L2W, 2000.0)] + p3;
    var p1 := [(L1W, 2000.0)] + p2;
    assert Policy[1..] == p1 && p1[1..] == p2 && p2[1..] == p3 && p3[1..] == p4 && p4[1..] == [];
  }

  /**
   * After a complete cycle every ILC signal's curve has all 96 slots, within
   * 4000 W for total and inverter power and 2000 W for each phase, provided
   * the stored curves were within those bounds.
   */
  lemma CycleBounded(binned: seq<Row>, curves: map<Signal, map<int, real>>, yesterday: Date, today: Date)
    requires StoredWithin(Existing(curves, TotalW), 4000.0) && StoredWithin(Existing(curves, L1W), 2000.0) &&
             StoredWithin(Existing(curves, L2W), 2000.0) && StoredWithin(Existing(curves, L3W), 2000.0) &&
             StoredWithin(Existing(curves, InverterW), 4000.0)
    ensures RunPolicy(CycleSave(binned, yesterday, today), curves, Policy).1.None? ==>
      PolicySaved(RunPolicy(CycleSave(binned, yesterday, today), curves, Policy).0, Policy)
  {
    PolicySignals();
    PolicyUnfolded(binned, curves, yesterday, today);
    CycleKeepsWithin(binned, yesterday, today);
    RunPolicyBounded(CycleSave(binned, yesterday, today), curves, Policy);
  }

  /** Whatever each step saves, the cycle never touches the grid signals' curves. */
  lemma CycleKeepsGrid(save: SaveStep, curves: map<Signal, map<int, real>>)
    ensures Existing(RunPolicy(save, curves, Policy).0, GridL1W) == Existing(curves, GridL1W)
    ensures Existing(RunPolicy(save, curves, Policy).0, GridL2W) == Existing(curves, GridL2W)
    ensures Existing(RunPolicy(save, curves, Policy).0, GridL3W) == Existing(curves, GridL3W)
  {
    PolicySignals();
    RunPolicyKeepsOthers(save, curves, Policy);
  }

  /** When all five baselines are finite and the stored curves within bounds, the cycle completes. */
  lemma CycleCompletes(binned: seq<Row>, curves: map<Signal, map<int, real>>, yesterday: Date, today: Date)
    requires StoredWithin(Existing(curves, TotalW), 4000.0) && StoredWithin(Existing(curves, L1W), 2000.0) &&
             StoredWithin(Existing(curves, L2W), 2000.0) && StoredWithin(Existing(curves, L3W), 2000.0) &&
             StoredWithin(Existing(curves, InverterW), 4000.0)
    requires BaselineFinite(binned, yesterday, today, TotalW) && BaselineFinite(binned, yesterday, today, L1W) &&
             BaselineFinite(binned, yesterday, today, L2W) && BaselineFinite(binned, yesterday, today, L3W) &&
             BaselineFinite(binned, yesterday, today, InverterW)
    ensures RunPolicy(CycleSave(binned, yesterday, today), curves, Policy).1.None?
  {
    PolicySignals();
    PolicyUnfolded(binned, curves, yesterday, today);
    CycleAlwaysSaves(binned, yesterday, today);
    RunPolicyCompletes(CycleSave(binned, yesterday, today), curves, Policy);
  }

  /**
   * A NaN in yesterday's smoothed baseline at a slot that receives one of
   * yesterday's readings makes that signal's save fail.
   */
  lemma NaNBaselineFailsSave(binned: seq<Row>, signal: Signal, cmax: real, existing: map<int, real>,
                             yesterday: Date, today: Date, s: Slot)
    requires Get(AsMap(SignalBaseline(RowsBefore(RowsFrom(binned, yesterday), today), signal)), s).NaN?
    requires SlotActuals(Present(AsIlcRows(RowsBefore(RowsFrom(binned, yesterday), today)), signal), s) != []
    ensures CycleSave(binned, yesterday, today)(signal, cmax, existing).None?
  {
    var between := RowsBefore(RowsFrom(binned, yesterday), today);
    var baseline := AsMap(SignalBaseline(between, signal));
    NaNBaselineSpoilsCurve(AsIlcRows(between), signal, baseline, existing, Alpha, cmax, s);
  }

  /**
   * Two calls on the same day: after a completed cycle the second is
   * skipped; after a skipped one nothing changes; after any other outcome
   * the marker is still unset, so the second call runs the cycle again.
   */
  method RunTwice(store: Store, today: Date) returns (first: CycleOutcome, second: CycleOutcome)
    requires store.Valid()
    modifies store
    ensures first.Updated? ==> second.Skipped?
    ensures first.Skipped? ==> second.Skipped? && store.curves == old(store.curves)
    ensures !first.Updated? && !first.Skipped? ==> !second.Skipped?
  {
    first := store.MaybeUpdateIlc(today);
    second := store.MaybeUpdateIlc(today);
    if first.Updated? {
      assert !ShouldUpdateIlc(Some(IsoDate(today)), today);
    }
  }
}
