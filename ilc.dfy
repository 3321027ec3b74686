/**
 * ilc.py: the iterative-learning-control correction curve. Yesterday's
 * readings are folded, one record at a time, into a 96-slot curve by an
 * exponential update towards the forecast error, clamped to
 * [-cmax, cmax]; the finished curve is smoothed with the forecast's filter.
 * `should_update_ilc` is the once-per-day guard.
 */
module Ilc {
  import opened Optional
  import opened Numbers
  import opened Calendar
  import opened Records
  import opened Forecast

  /**
   * A row of the `binned` table as `update_ilc_curve` reads it:
   * `datetime.fromisoformat(ts_local_bin_start)` (None where it raises
   * ValueError) and the readings present in the row.
   */
  datatype IlcRow = IlcRow(parsed: Option<Stamp>, values: map<Signal, real>)

  /** An entry of the `values` list: the row's timestamp and its reading of the signal. */
  datatype Observation = Observation(parsed: Option<Stamp>, actual: real)

  /** `smooth_curve`: the same zero-padded 3-tap filter as `smooth_baseline`. */
  function SmoothCurve(values: map<int, Float>): (r: seq<Float>)
    ensures r == SmoothBaseline(values)
  {
    var ordered := Dense(values);
    seq(96, i => Tap(ordered, i))
  }

  // ------------------------------------------------------------ specification

  /** The first loop: the rows whose reading of `signal` is present, in row order. */
  function Present(rows: seq<IlcRow>, signal: Signal): seq<Observation>
  {
    if rows == [] then []
    else
      var last := rows[|rows| - 1];
      Present(rows[..|rows| - 1], signal)
        + (if signal in last.values then [Observation(last.parsed, last.values[signal])] else [])
  }

  /** `float(existing_curve.get(i, 0.0))`. */
  function StartValue(existing: map<int, real>, i: int): Float
  {
    Num(if i in existing then existing[i] else 0.0)
  }

  /** `{i: float(existing_curve.get(i, 0.0)) for i in range(96)}`. */
  function StartCurve(existing: map<int, real>): (c: seq<Float>)
    ensures |c| == 96
  {
    seq(96, i => StartValue(existing, i))
  }

  /** `max(min(x, cmax), -cmax)` with Python's builtins: NaN passes through. */
  function Clamp(x: Float, cmax: real): Float
  {
    PyMax(PyMin(x, Num(cmax)), Num(-cmax))
  }

  /** One record's update of its slot: `(1 - alpha) * c + alpha * (actual - baseline)`, clamped. */
  function Step(c: Float, actual: real, base: Float, alpha: real, cmax: real): Float
  {
    Clamp(Add(Scale(1.0 - alpha, c), Scale(alpha, Sub(Num(actual), base))), cmax)
  }

  /** The second loop over the first `|obs|` observations; an unparsable timestamp is skipped. */
  function Learn(c: seq<Float>, obs: seq<Observation>, baseline: map<int, Float>, alpha: real, cmax: real): (r: seq<Float>)
    requires |c| == 96
    ensures |r| == 96
  {
    if obs == [] then c
    else
      var prev := Learn(c, obs[..|obs| - 1], baseline, alpha, cmax);
      var o := obs[|obs| - 1];
      if o.parsed.None? then prev
      else
        var s := BinOf(o.parsed.value);
        prev[s := Step(prev[s], o.actual, Get(baseline, s), alpha, cmax)]
  }

  /** `update_ilc_curve` as a value: learn from the present readings, then smooth. */
  function IlcCurve(rows: seq<IlcRow>, signal: Signal, baseline: map<int, Float>, existing: map<int, real>,
                    alpha: real, cmax: real): (r: seq<Float>)
    ensures |r| == 96
  {
    SmoothCurve(AsMap(Learn(StartCurve(existing), Present(rows, signal), baseline, alpha, cmax)))
  }

  // ---------------------------------------------------------------- the code

  /**
   * `update_ilc_curve(db_path, signal, baseline_by_bin, existing_curve, …,
   * alpha, cmax)`, with the result of `fetch_binned_between` passed in as
   * `rows`.
   */
  method UpdateIlcCurve(rows: seq<IlcRow>, signal: Signal, baseline: map<int, Float>, existing: map<int, real>,
                        alpha: real, cmax: real)
    returns (r: seq<Float>)
    ensures r == IlcCurve(rows, signal, baseline, existing, alpha, cmax)
  {
    var values := PresentValues(rows, signal);
    var curve := new Float[96](i => StartValue(existing, i));
    assert curve[..] == StartCurve(existing);
    LearnInto(curve, values, baseline, alpha, cmax);
    r := SmoothCurve(AsMap(curve[..]));
  }

  /** The second loop of `update_ilc_curve`: each reading updates its slot of `curve` in place. */
  method LearnInto(curve: array<Float>, values: seq<Observation>, baseline: map<int, Float>, alpha: real, cmax: real)
    requires curve.Length == 96
    modifies curve
    ensures curve[..] == Learn(old(curve[..]), values, baseline, alpha, cmax)
  {
    ghost var start := curve[..];
    for k := 0 to |values|
      invariant curve[..] == Learn(start, values[..k], baseline, alpha, cmax)
    {
      var o := values[k];
      assert values[..k + 1][..k] == values[..k];
      if o.parsed.Some? {
        var s := BinOf(o.parsed.value);
        var base := Get(baseline, s);
        curve[s] := Step(curve[s], o.actual, base, alpha, cmax);
      }
    }
    assert values[..|values|] == values;
  }

  /** The first loop of `update_ilc_curve`: the readings of `signal`, in row order. */
  method PresentValues(rows: seq<IlcRow>, signal: Signal) returns (values: seq<Observation>)
    ensures values == Present(rows, signal)
  {
    values := [];
    for i := 0 to |rows|
      invariant values == Present(rows[..i], signal)
    {
      var row := rows[i];
      assert rows[..i + 1][..i] == rows[..i];
      if signal in row.values {
        values := values + [Observation(row.parsed, row.values[signal])];
      }
    }
    assert rows[..|rows|] == rows;
  }

  /** `should_update_ilc(last_update, today)`: run unless the marker already names today. */
  function ShouldUpdateIlc(lastUpdate: Option<string>, today: Date): (run: bool)
    ensures lastUpdate.None? || lastUpdate == Some("") ==> run
    ensures lastUpdate == Some(IsoDate(today)) ==> !run
    ensures run <==> lastUpdate != Some(IsoDate(today))
  {
    lastUpdate.None? || lastUpdate.value == "" || lastUpdate.value != IsoDate(today)
  }

  // ------------------------------------------------------------------ lemmas

  /** A marker written on `marked` lets the cycle run on every other day, and only then. */
  lemma ShouldUpdateAfterMarker(marked: Date, today: Date)
    ensures ShouldUpdateIlc(Some(IsoDate(marked)), today) <==> marked != today
  {
    if IsoDate(marked) == IsoDate(today) {
      IsoDateInjective(marked, today);
    }
  }

  lemma {:induction false} PresentAppend(a: seq<IlcRow>, b: seq<IlcRow>, signal: Signal)
    ensures Present(a + b, signal) == Present(a, signal) + Present(b, signal)
    decreases |b|
  {
    if b == [] {
      assert a + b == a;
    } else {
      var b0 := b[..|b| - 1];
      assert (a + b)[..|a + b| - 1] == a + b0;
      PresentAppend(a, b0, signal);
    }
  }

  /** A row without a reading of the signal contributes nothing. */
  lemma AbsentRowIgnored(a: seq<IlcRow>, row: IlcRow, b: seq<IlcRow>, signal: Signal)
    requires signal !in row.values
    ensures Present(a + [row] + b, signal) == Present(a + b, signal)
  {
    PresentAppend(a + [row], b, signal);
    PresentAppend(a, [row], signal);
    PresentAppend(a, b, signal);
    assert [row][..0] == [];
  }

  lemma {:induction false} LearnAppend(c: seq<Float>, o1: seq<Observation>, o2: seq<Observation>,
                                       baseline: map<int, Float>, alpha: real, cmax: real)
    requires |c| == 96
    ensures Learn(c, o1 + o2, baseline, alpha, cmax)
         == Learn(Learn(c, o1, baseline, alpha, cmax), o2, baseline, alpha, cmax)
    decreases |o2|
  {
    if o2 == [] {
      assert o1 + o2 == o1;
    } else {
      var init := o2[..|o2| - 1];
      assert (o1 + o2)[..|o1 + o2| - 1] == o1 + init;
      LearnAppend(c, o1, init, baseline, alpha, cmax);
    }
  }

  /** A record whose timestamp does not parse leaves the curve as it was. */
  lemma UnparsedSkipped(c: seq<Float>, o1: seq<Observation>, o: Observation, o2: seq<Observation>,
                        baseline: map<int, Float>, alpha: real, cmax: real)
    requires |c| == 96 && o.parsed.None?
    ensures Learn(c, o1 + [o] + o2, baseline, alpha, cmax) == Learn(c, o1 + o2, baseline, alpha, cmax)
  {
    LearnAppend(c, o1 + [o], o2, baseline, alpha, cmax);
    LearnAppend(c, o1, [o], baseline, alpha, cmax);
    LearnAppend(c, o1, o2, baseline, alpha, cmax);
    assert [o][..0] == [];
  }

  /** The readings that land in slot `s`, in record order. */
  function SlotActuals(obs: seq<Observation>, s: Slot): seq<real>
  {
    if obs == [] then []
    else
      var o := obs[|obs| - 1];
      SlotActuals(obs[..|obs| - 1], s)
        + (if o.parsed.Some? && BinOf(o.parsed.value) == s then [o.actual] else [])
  }

  /** The updates of one slot applied in order. */
  function Fold(c: Float, actuals: seq<real>, base: Float, alpha: real, cmax: real): Float
  {
    if actuals == [] then c
    else Step(Fold(c, actuals[..|actuals| - 1], base, alpha, cmax), actuals[|actuals| - 1], base, alpha, cmax)
  }

  /**
   * Slots are independent: each ends as its own readings folded in record
   * order into its starting value, so a slot without readings keeps it.
   */
  lemma {:induction false} LearnAt(c: seq<Float>, obs: seq<Observation>, baseline: map<int, Float>,
                                   alpha: real, cmax: real, s: Slot)
    requires |c| == 96
    ensures Learn(c, obs, baseline, alpha, cmax)[s] == Fold(c[s], SlotActuals(obs, s), Get(baseline, s), alpha, cmax)
  {
    if obs != [] {
      var init := obs[..|obs| - 1];
      var o := obs[|obs| - 1];
      LearnAt(c, init, baseline, alpha, cmax, s);
      var prev := Learn(c, init, baseline, alpha, cmax);
      var acts := SlotActuals(init, s);
      if o.parsed.Some? && BinOf(o.parsed.value) == s {
        var acts2 := acts + [o.actual];
        assert SlotActuals(obs, s) == acts2;
        assert acts2[..|acts2| - 1] == acts;
        var base := Get(baseline, s);
        assert Learn(c, obs, baseline, alpha, cmax)[s] == Step(prev[s], o.actual, base, alpha, cmax);
        assert Fold(c[s], acts2, base, alpha, cmax) == Step(Fold(c[s], acts, base, alpha, cmax), o.actual, base, alpha, cmax);
      } else {
        assert SlotActuals(obs, s) == acts;
        assert Learn(c, obs, baseline, alpha, cmax)[s] == prev[s];
      }
    }
  }

  /** A slot no record lands in keeps its starting value. */
  lemma UntouchedSlot(c: seq<Float>, obs: seq<Observation>, baseline: map<int, Float>,
                      alpha: real, cmax: real, s: Slot)
    requires |c| == 96 && SlotActuals(obs, s) == []
    ensures Learn(c, obs, baseline, alpha, cmax)[s] == c[s]
  {
    LearnAt(c, obs, baseline, alpha, cmax, s);
  }

  /** Clamping lands in [-cmax, cmax], keeps finite values finite and changes nothing a second time. */
  lemma ClampFacts(x: Float, cmax: real)
    requires cmax >= 0.0
    ensures x.Num? <==> Clamp(x, cmax).Num?
    ensures Clamp(x, cmax).Num? ==> -cmax <= Clamp(x, cmax).v <= cmax
    ensures x.Num? && -cmax <= x.v <= cmax ==> Clamp(x, cmax) == x
    ensures Clamp(Clamp(x, cmax), cmax) == Clamp(x, cmax)
  {
  }

  /** Every finite slot lies in [-cmax, cmax]. */
  predicate Within(c: seq<Float>, cmax: real)
  {
    forall i :: 0 <= i < |c| && c[i].Num? ==> -cmax <= c[i].v <= cmax
  }

  predicate Finite(c: seq<Float>)
  {
    forall i :: 0 <= i < |c| ==> c[i].Num?
  }

  lemma {:induction false} LearnWithin(c: seq<Float>, obs: seq<Observation>, baseline: map<int, Float>,
                                       alpha: real, cmax: real)
    requires |c| == 96 && cmax >= 0.0 && Within(c, cmax)
    ensures Within(Learn(c, obs, baseline, alpha, cmax), cmax)
  {
    if obs != [] {
      var init := obs[..|obs| - 1];
      LearnWithin(c, init, baseline, alpha, cmax);
      var o := obs[|obs| - 1];
      if o.parsed.Some? {
        var prev := Learn(c, init, baseline, alpha, cmax);
        var s := BinOf(o.parsed.value);
        var x := Add(Scale(1.0 - alpha, prev[s]), Scale(alpha, Sub(Num(o.actual), Get(baseline, s))));
        ClampFacts(x, cmax);
      }
    }
  }

  lemma {:induction false} LearnFinite(c: seq<Float>, obs: seq<Observation>, baseline: map<int, Float>,
                                       alpha: real, cmax: real)
    requires |c| == 96 && cmax >= 0.0 && Finite(c)
    requires forall s :: 0 <= s < 96 ==> Get(baseline, s).Num?
    ensures Finite(Learn(c, obs, baseline, alpha, cmax))
  {
    if obs != [] {
      var init := obs[..|obs| - 1];
      LearnFinite(c, init, baseline, alpha, cmax);
      var o := obs[|obs| - 1];
      if o.parsed.Some? {
        var prev := Learn(c, init, baseline, alpha, cmax);
        var s := BinOf(o.parsed.value);
        var x := Add(Scale(1.0 - alpha, prev[s]), Scale(alpha, Sub(Num(o.actual), Get(baseline, s))));
        ClampFacts(x, cmax);
      }
    }
  }

  lemma StartWithin(existing: map<int, real>, cmax: real)
    requires forall i :: i in existing && 0 <= i < 96 ==> -cmax <= existing[i] <= cmax
    requires cmax >= 0.0
    ensures Within(StartCurve(existing), cmax) && Finite(StartCurve(existing))
  {
  }

  /**
   * With cmax >= 0 and an existing curve inside [-cmax, cmax], every finite
   * slot of the returned curve lies in [-cmax, cmax]; with a finite baseline
   * every slot is finite.
   */
  lemma IlcCurveBounded(rows: seq<IlcRow>, signal: Signal, baseline: map<int, Float>, existing: map<int, real>,
                        alpha: real, cmax: real)
    requires cmax >= 0.0
    requires forall i :: i in existing && 0 <= i < 96 ==> -cmax <= existing[i] <= cmax
    ensures Within(IlcCurve(rows, signal, baseline, existing, alpha, cmax), cmax)
    ensures (forall s :: 0 <= s < 96 ==> Get(baseline, s).Num?) ==>
      Finite(IlcCurve(rows, signal, baseline, existing, alpha, cmax))
  {
    var start := StartCurve(existing);
    StartWithin(existing, cmax);
    var learned := Learn(start, Present(rows, signal), baseline, alpha, cmax);
    LearnWithin(start, Present(rows, signal), baseline, alpha, cmax);
    var m := AsMap(learned);
    assert forall j :: 0 <= j < 96 ==> Get(m, j) == learned[j];
    SmoothBounds(m, -cmax, cmax);
    if forall s :: 0 <= s < 96 ==> Get(baseline, s).Num? {
      LearnFinite(start, Present(rows, signal), baseline, alpha, cmax);
      SmoothFinite(m);
    }
  }

  lemma {:induction false} FoldAlphaZero(c: Float, actuals: seq<real>, base: Float, cmax: real)
    requires cmax >= 0.0 && base.Num?
    ensures Fold(c, actuals, base, 0.0, cmax) == if actuals == [] then c else Clamp(c, cmax)
  {
    if actuals != [] {
      var init := actuals[..|actuals| - 1];
      FoldAlphaZero(c, init, base, cmax);
      var prev := Fold(c, init, base, 0.0, cmax);
      var a := actuals[|actuals| - 1];
      assert Add(Scale(1.0, prev), Scale(0.0, Sub(Num(a), base))) == prev;
      ClampFacts(c, cmax);
    }
  }

  /**
   * With alpha = 0 and a finite baseline, a slot some record lands in becomes
   * the clamped existing value and every other slot keeps it.
   */
  lemma AlphaZeroSlot(c: seq<Float>, obs: seq<Observation>, baseline: map<int, Float>, cmax: real, s: Slot)
    requires |c| == 96 && cmax >= 0.0 && Get(baseline, s).Num?
    ensures Learn(c, obs, baseline, 0.0, cmax)[s] == if SlotActuals(obs, s) == [] then c[s] else Clamp(c[s], cmax)
  {
    LearnAt(c, obs, baseline, 0.0, cmax, s);
    FoldAlphaZero(c[s], SlotActuals(obs, s), Get(baseline, s), cmax);
  }

  /** With alpha = 0, a finite baseline and an all-zero (or empty) existing curve the result is all zeros. */
  lemma AlphaZeroKeepsZero(rows: seq<IlcRow>, signal: Signal, baseline: map<int, Float>, existing: map<int, real>,
                           cmax: real)
    requires cmax >= 0.0
    requires forall s :: 0 <= s < 96 ==> Get(baseline, s).Num?
    requires forall i :: i in existing ==> existing[i] == 0.0
    ensures forall i :: 0 <= i < 96 ==> IlcCurve(rows, signal, baseline, existing, 0.0, cmax)[i] == Num(0.0)
  {
    var start := StartCurve(existing);
    var obs := Present(rows, signal);
    var learned := Learn(start, obs, baseline, 0.0, cmax);
    forall s | 0 <= s < 96
      ensures learned[s] == Num(0.0)
    {
      AlphaZeroSlot(start, obs, baseline, cmax, s);
      ClampFacts(start[s], cmax);
    }
    var m := AsMap(learned);
    assert forall j :: 0 <= j < 96 ==> Get(m, j) == Num(0.0);
    SmoothConstant(m, 0.0);
  }

  /** A NaN baseline at a slot that receives a reading turns that slot into NaN. */
  lemma NaNBaselinePoisons(c: seq<Float>, obs: seq<Observation>, baseline: map<int, Float>,
                           alpha: real, cmax: real, s: Slot)
    requires |c| == 96 && Get(baseline, s).NaN? && SlotActuals(obs, s) != []
    ensures Learn(c, obs, baseline, alpha, cmax)[s].NaN?
  {
    LearnAt(c, obs, baseline, alpha, cmax, s);
  }

  /** ... and the returned curve then holds NaN, which the store cannot save. */
  lemma NaNBaselineSpoilsCurve(rows: seq<IlcRow>, signal: Signal, baseline: map<int, Float>, existing: map<int, real>,
                               alpha: real, cmax: real, s: Slot)
    requires Get(baseline, s).NaN? && SlotActuals(Present(rows, signal), s) != []
    ensures !Finite(IlcCurve(rows, signal, baseline, existing, alpha, cmax))
  {
    var learned := Learn(StartCurve(existing), Present(rows, signal), baseline, alpha, cmax);
    NaNBaselinePoisons(StartCurve(existing), Present(rows, signal), baseline, alpha, cmax, s);
    var m := AsMap(learned);
    assert Get(m, s).NaN?;
    SmoothNaN(m, s);
    assert IlcCurve(rows, signal, baseline, existing, alpha, cmax)[s].NaN?;
  }
}
