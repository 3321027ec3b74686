/**
 * forecast.py: the fixed 96-slot day, the per-slot baseline over the most
 * recent dates of history, the 3-tap smoothing filter, and the assembly of
 * the forecast for the four load signals.
 */
module Forecast {
  import opened Optional
  import opened Numbers
  import opened Calendar
  import opened Records

  /** One of the 96 fifteen-minute slots of a local day. */
  type Slot = s: int | 0 <= s < 96

  // ---------------------------------------------------------------- binning

  /** `int(hour * 4 + minute / 15)`, with `/` the true (float) division. */
  function BinIndex(hour: Hour, minute: Minute): (s: int)
    ensures s == hour * 4 + minute / 15
    ensures 0 <= s < 96
  {
    var q, r := minute / 15, minute % 15;
    assert (minute as real) / 15.0 == q as real + (r as real) / 15.0;
    ((hour * 4) as real + (minute as real) / 15.0).Floor
  }

  function BinOf(t: Stamp): Slot
  {
    BinIndex(t.hour, t.minute)
  }

  /** Fifteen minutes later on the wall clock is the next slot, wrapping at midnight. */
  lemma BinAdvances(t: Stamp)
    requires Plus15(t).Some?
    ensures BinOf(Plus15(t).value) == (BinOf(t) + 1) % 96
  {
    var u := Plus15(t).value;
    var m := MinuteOfDay(t);
    assert BinOf(t) == m / 15;
    assert BinOf(u) == MinuteOfDay(u) / 15;
    if m + 15 < 1440 {
      assert MinuteOfDay(u) == m + 15;
      assert (m + 15) / 15 == m / 15 + 1;
    } else {
      assert MinuteOfDay(u) == m + 15 - 1440;
      assert m / 15 == 95;
    }
  }

  // --------------------------------------------------------------- baseline

  function Dates(xs: seq<Sample>): set<Date>
  {
    set i | 0 <= i < |xs| :: xs[i].date
  }

  /** The distinct dates of `dates` that come after `d`. */
  function LaterDates(dates: set<Date>, d: Date): set<Date>
  {
    set e | e in dates && Before(d, e)
  }

  /**
   * `sorted(dates)[-days:]`: a date is kept when fewer than `days` distinct
   * dates come after it; `[-0:]` keeps every date.
   */
  function RecentDates(dates: set<Date>, days: nat): set<Date>
  {
    set d | d in dates && (days == 0 || |LaterDates(dates, d)| < days)
  }

  predicate InSlot(x: Sample, window: set<Date>, s: int)
  {
    x.date in window && BinIndex(x.hour, x.minute) == s
  }

  /** Rows of the group `s` (whatever their reading). */
  function RowCount(xs: seq<Sample>, window: set<Date>, s: int): nat
  {
    if xs == [] then 0
    else (if InSlot(xs[0], window, s) then 1 else 0) + RowCount(xs[1..], window, s)
  }

  /** Present readings of the group `s`. */
  function ValueCount(xs: seq<Sample>, window: set<Date>, s: int): nat
  {
    if xs == [] then 0
    else (if InSlot(xs[0], window, s) && xs[0].value.Some? then 1 else 0) + ValueCount(xs[1..], window, s)
  }

  function ValueSum(xs: seq<Sample>, window: set<Date>, s: int): real
  {
    if xs == [] then 0.0
    else (if InSlot(xs[0], window, s) && xs[0].value.Some? then xs[0].value.value else 0.0)
         + ValueSum(xs[1..], window, s)
  }

  /**
   * `groupby("bin").mean()` then `.get(s, 0.0)`: a slot without rows is 0.0;
   * a slot whose rows hold no reading averages nothing and is NaN.
   */
  function SlotMean(xs: seq<Sample>, window: set<Date>, s: int): Float
  {
    if RowCount(xs, window, s) == 0 then Num(0.0)
    else if ValueCount(xs, window, s) == 0 then NaN
    else Num(ValueSum(xs, window, s) / ValueCount(xs, window, s) as real)
  }

  /** The dates whose rows take part in the baseline. */
  function Window(xs: seq<Sample>, days: nat): set<Date>
  {
    RecentDates(Dates(xs), days)
  }

  /** `compute_baseline(df, value_col, days)`, as the 96 slots of its result. */
  function ComputeBaseline(xs: seq<Sample>, days: nat): (b: seq<Float>)
    ensures |b| == 96
    ensures xs == [] ==> forall s :: 0 <= s < 96 ==> b[s] == Num(0.0)
  {
    if xs == [] then seq(96, s => Num(0.0))
    else seq(96, s => SlotMean(xs, Window(xs, days), s))
  }

  lemma SubsetCardinality<T>(a: set<T>, b: set<T>)
    requires a <= b
    ensures |a| <= |b|
    ensures a < b ==> |a| < |b|
  {
    assert b == a + (b - a);
    assert |b| == |a| + |b - a|;
    if a < b {
      var x :| x in b && x !in a;
      assert x in b - a;
    }
  }

  /** With no more distinct dates than `days` (or `days == 0`), every date is in the window. */
  lemma RecentKeepsAllWhenFew(dates: set<Date>, days: nat)
    requires days == 0 || |dates| <= days
    ensures RecentDates(dates, days) == dates
  {
    forall d | d in dates
      ensures d in RecentDates(dates, days)
    {
      if days != 0 {
        var later := LaterDates(dates, d);
        assert later <= dates - {d};
        SubsetCardinality(later, dates - {d});
        assert |dates - {d}| == |dates| - 1;
      }
    }
  }

  /** The window is a suffix of the sorted dates: a kept date keeps every later one. */
  lemma RecentIsSuffix(dates: set<Date>, days: nat, d: Date, e: Date)
    requires d in RecentDates(dates, days) && e in dates && Before(d, e)
    ensures e in RecentDates(dates, days)
  {
    if days != 0 {
      var ld, le := LaterDates(dates, d), LaterDates(dates, e);
      assert le <= ld;
      assert e in ld && e !in le;
      SubsetCardinality(le, ld);
    }
  }

  /** Distinct dates have distinct numbers of later dates. */
  lemma LaterCountsDistinct(dates: set<Date>, d: Date, e: Date)
    requires d in dates && e in dates && d != e
    ensures |LaterDates(dates, d)| != |LaterDates(dates, e)|
  {
    var ld, le := LaterDates(dates, d), LaterDates(dates, e);
    if Before(d, e) {
      assert le <= ld && e in ld && e !in le;
      SubsetCardinality(le, ld);
    } else {
      assert Before(e, d);
      assert ld <= le && d in le && d !in ld;
      SubsetCardinality(ld, le);
    }
  }

  /** Dates with pairwise distinct later-counts below `n` are at most `n`. */
  lemma {:induction false} CountBelow(a: set<Date>, dates: set<Date>, n: nat)
    requires a <= dates
    requires forall d :: d in a ==> |LaterDates(dates, d)| < n
    ensures |a| <= n
  {
    if n > 0 && a != {} {
      var b := set d | d in a && |LaterDates(dates, d)| < n - 1;
      CountBelow(b, dates, n - 1);
      var top := a - b;
      if top != {} {
        var x :| x in top;
        forall y | y in top
          ensures y == x
        {
          if y != x {
            LaterCountsDistinct(dates, x, y);
          }
        }
        assert top == {x};
      }
      assert a == b + top;
    }
  }

  /** `sorted(dates)[-days:]` holds at most `days` dates. */
  lemma RecentAtMost(dates: set<Date>, days: nat)
    requires days > 0
    ensures |RecentDates(dates, days)| <= days
  {
    CountBelow(RecentDates(dates, days), dates, days);
  }

  /** A non-empty set of dates has an earliest one. */
  lemma {:induction false} EarliestDate(dates: set<Date>) returns (m: Date)
    requires dates != {}
    ensures m in dates && forall d :: d in dates && d != m ==> Before(m, d)
    decreases |dates|
  {
    var x :| x in dates;
    if dates == {x} {
      m := x;
    } else {
      var rest := dates - {x};
      var e := EarliestDate(rest);
      m := if Before(x, e) then x else e;
      forall d | d in dates && d != m
        ensures Before(m, d)
      {
        if d != x && d != e {
          assert Before(e, d);
        }
      }
    }
  }

  /** `sorted(dates)[-days:]` holds exactly `min(days, len(dates))` dates. */
  lemma {:induction false} RecentExactly(dates: set<Date>, days: nat)
    requires days > 0
    ensures |RecentDates(dates, days)| == if |dates| <= days then |dates| else days
    decreases |dates|
  {
    if |dates| <= days {
      RecentKeepsAllWhenFew(dates, days);
    } else {
      var m := EarliestDate(dates);
      var rest := dates - {m};
      RecentExactly(rest, days);
      forall d | d in rest
        ensures LaterDates(dates, d) == LaterDates(rest, d)
      {
        assert Before(m, d);
      }
      assert LaterDates(dates, m) == rest;
      assert RecentDates(dates, days) == RecentDates(rest, days);
    }
  }

  /** Counts and sums of a group bounded by the bounds of its readings. */
  lemma {:induction false} ValueSumBounds(xs: seq<Sample>, window: set<Date>, s: int, lo: real, hi: real)
    requires forall i :: 0 <= i < |xs| && InSlot(xs[i], window, s) && xs[i].value.Some? ==>
      lo <= xs[i].value.value <= hi
    ensures SumWithin(ValueCount(xs, window, s) as real, ValueSum(xs, window, s), lo, hi)
  {
    if xs != [] {
      ValueSumBounds(xs[1..], window, s, lo, hi);
      var counted := InSlot(xs[0], window, s) && xs[0].value.Some?;
      StepBounds(ValueCount(xs[1..], window, s) as real, ValueSum(xs[1..], window, s),
                 ValueCount(xs, window, s) as real, ValueSum(xs, window, s),
                 if counted then xs[0].value.value else 0.0, counted, lo, hi);
    }
  }

  /** A sum of `n` readings, each within [lo, hi], lies within [lo * n, hi * n]. */
  predicate SumWithin(n: real, total: real, lo: real, hi: real)
  {
    lo * n <= total <= hi * n
  }

  /** One step of a count and a sum: adding a reading within [lo, hi], or nothing. */
  lemma StepBounds(c: real, sum: real, n: real, total: real, x: real, counted: bool, lo: real, hi: real)
    requires SumWithin(c, sum, lo, hi)
    requires counted ==> lo <= x <= hi && n == c + 1.0 && total == x + sum
    requires !counted ==> n == c && total == sum
    ensures SumWithin(n, total, lo, hi)
  {
    if counted {
      assert lo * (c + 1.0) == lo * c + lo;
      assert hi * (c + 1.0) == hi * c + hi;
    }
  }

  lemma MeanBounds(sum: real, n: real, lo: real, hi: real)
    requires n > 0.0 && SumWithin(n, sum, lo, hi)
    ensures lo <= sum / n <= hi
  {
    assert (sum / n) * n == sum;
  }

  /** The mean of a group with readings lies within the bounds of its readings. */
  lemma SlotMeanBounds(xs: seq<Sample>, w: set<Date>, s: int, lo: real, hi: real)
    requires ValueCount(xs, w, s) > 0
    requires forall i :: 0 <= i < |xs| && InSlot(xs[i], w, s) && xs[i].value.Some? ==>
      lo <= xs[i].value.value <= hi
    ensures SlotMean(xs, w, s).Num?
    ensures lo <= SlotMean(xs, w, s).v <= hi
  {
    var n, sum := ValueCount(xs, w, s) as real, ValueSum(xs, w, s);
    ValueSumBounds(xs, w, s, lo, hi);
    CountsOrdered(xs, w, s);
    assert SlotMean(xs, w, s) == Num(sum / n);
    MeanBounds(sum, n, lo, hi);
  }

  /** A slot with readings averages them: its baseline lies within their bounds. */
  lemma BaselineWithinReadings(xs: seq<Sample>, days: nat, s: Slot, lo: real, hi: real)
    requires ValueCount(xs, Window(xs, days), s) > 0
    requires forall i :: 0 <= i < |xs| && InSlot(xs[i], Window(xs, days), s) && xs[i].value.Some? ==>
      lo <= xs[i].value.value <= hi
    ensures ComputeBaseline(xs, days)[s].Num?
    ensures lo <= ComputeBaseline(xs, days)[s].v <= hi
  {
    assert xs != [];
    BaselineAt(xs, days, s);
    SlotMeanBounds(xs, Window(xs, days), s, lo, hi);
  }

  /** Slot `s` of a non-empty history's baseline is the mean of its group. */
  lemma BaselineAt(xs: seq<Sample>, days: nat, s: Slot)
    ensures xs != [] ==> ComputeBaseline(xs, days)[s] == SlotMean(xs, Window(xs, days), s)
  {
  }

  lemma {:induction false} CountsOrdered(xs: seq<Sample>, window: set<Date>, s: int)
    ensures ValueCount(xs, window, s) <= RowCount(xs, window, s)
  {
    if xs != [] {
      CountsOrdered(xs[1..], window, s);
    }
  }

  /** A group with no rows in the window gives 0.0, one whose rows hold no reading gives NaN. */
  lemma BaselineWithoutReadings(xs: seq<Sample>, days: nat, s: Slot)
    requires ValueCount(xs, Window(xs, days), s) == 0
    ensures RowCount(xs, Window(xs, days), s) == 0 ==> ComputeBaseline(xs, days)[s] == Num(0.0)
    ensures RowCount(xs, Window(xs, days), s) > 0 ==> ComputeBaseline(xs, days)[s] == NaN
  {
    BaselineAt(xs, days, s);
  }

  /**
   * Uniform history: when every reading in the window is `c` and every slot
   * has one, the baseline is `c` everywhere, whichever dates the window holds.
   */
  lemma ConstantHistoryBaseline(xs: seq<Sample>, days: nat, c: real)
    requires forall i :: 0 <= i < |xs| && xs[i].value.Some? ==> xs[i].value.value == c
    requires forall s :: 0 <= s < 96 ==> ValueCount(xs, Window(xs, days), s) > 0
    ensures forall s :: 0 <= s < 96 ==> ComputeBaseline(xs, days)[s] == Num(c)
  {
    forall s | 0 <= s < 96
      ensures ComputeBaseline(xs, days)[s] == Num(c)
    {
      BaselineWithinReadings(xs, days, s, c, c);
    }
  }

  // ---------------------------------------------------------------- smoothing

  /** `d.get(i, 0.0)`. */
  function Get(m: map<int, Float>, i: int): Float
  {
    if i in m then m[i] else Num(0.0)
  }

  /** `np.array([d.get(i, 0.0) for i in range(96)])`. */
  function Dense(m: map<int, Float>): (v: seq<Float>)
    ensures |v| == 96
  {
    seq(96, i => Get(m, i))
  }

  /** The filter's input at position `j`, zero beyond either end (no wrap at midnight). */
  function At(v: seq<Float>, j: int): Float
  {
    if 0 <= j < |v| then v[j] else Num(0.0)
  }

  /** The filter's output at slot `i`: the mean of the slot and its two neighbours. */
  function Tap(v: seq<Float>, i: int): Float
  {
    Div(Add(Add(At(v, i - 1), At(v, i)), At(v, i + 1)), 3.0)
  }

  /** `smooth_baseline`: the 3-tap moving average of `np.convolve(..., mode="same")`. */
  function SmoothBaseline(baseline: map<int, Float>): (r: seq<Float>)
    ensures |r| == 96
  {
    var v := Dense(baseline);
    seq(96, i => Tap(v, i))
  }

  /** A dict whose keys are exactly 0..|s|-1. */
  function AsMap(s: seq<Float>): (m: map<int, Float>)
    ensures forall i :: 0 <= i < |s| ==> i in m && m[i] == s[i]
    ensures forall i :: i in m ==> 0 <= i < |s|
  {
    map i | 0 <= i < |s| :: s[i]
  }

  /** Reading a 96-slot sequence back out of its dict gives the sequence. */
  lemma DenseAsMap(s: seq<Float>)
    requires |s| == 96
    ensures Dense(AsMap(s)) == s
  {
  }

  /** Turning the 96 slots of a dict into a dict keeps every slot's value, 0.0 for a missing key. */
  lemma AsMapDense(m: map<int, Float>)
    ensures forall i :: 0 <= i < 96 ==> Get(AsMap(Dense(m)), i) == Get(m, i)
    ensures forall i :: i in AsMap(Dense(m)) <==> 0 <= i < 96
  {
  }

  function MinInt(a: int, b: int): int { if a <= b then a else b }
  function MaxInt(a: int, b: int): int { if a >= b then a else b }

  /** The sum of `v[j] * k[n - j]` for `lo <= j < hi`, accumulated from 0.0 upwards. */
  function ConvSum(v: seq<Float>, k: seq<real>, n: int, lo: int, hi: int): Float
    requires 0 <= lo && hi <= |v|
    requires lo < hi ==> 0 <= n - (hi - 1) && n - lo < |k|
    decreases hi - lo
  {
    if lo >= hi then Num(0.0)
    else Add(ConvSum(v, k, n, lo, hi - 1), Scale(k[n - (hi - 1)], v[hi - 1]))
  }

  /** `np.convolve(v, k, mode="full")`. */
  function ConvolveFull(v: seq<Float>, k: seq<real>): (out: seq<Float>)
    requires |v| >= 1 && |k| >= 1
    ensures |out| == |v| + |k| - 1
  {
    seq(|v| + |k| - 1, n requires 0 <= n < |v| + |k| - 1 =>
      ConvSum(v, k, n, MaxInt(0, n - |k| + 1), MinInt(n, |v| - 1) + 1))
  }

  /** `np.convolve(v, k, mode="same")` for a kernel no longer than the input. */
  function ConvolveSame(v: seq<Float>, k: seq<real>): (out: seq<Float>)
    requires |v| >= |k| >= 1
    ensures |out| == |v|
  {
    ConvolveFull(v, k)[(|k| - 1) / 2 .. (|k| - 1) / 2 + |v|]
  }

  const Kernel: seq<real> := [1.0 / 3.0, 1.0 / 3.0, 1.0 / 3.0]

  lemma ThreeTaps(a: Float, b: Float, c: Float)
    ensures Add(Add(Add(Num(0.0), Scale(1.0 / 3.0, a)), Scale(1.0 / 3.0, b)), Scale(1.0 / 3.0, c))
         == Div(Add(Add(a, b), c), 3.0)
  {
  }

  lemma FullAt(v: seq<Float>, n: int)
    requires |v| == 96 && 0 <= n < 98
    ensures ConvolveFull(v, Kernel)[n] == ConvSum(v, Kernel, n, MaxInt(0, n - 2), MinInt(n, 95) + 1)
  {
  }

  lemma SmoothAt(m: map<int, Float>, i: Slot)
    ensures SmoothBaseline(m)[i] == Tap(Dense(m), i)
  {
  }

  lemma SameAt(v: seq<Float>, i: Slot)
    requires |v| == 96
    ensures ConvolveSame(v, Kernel)[i] == ConvolveFull(v, Kernel)[i + 1]
  {
  }

  lemma ConvolveInterior(v: seq<Float>, i: Slot)
    requires |v| == 96 && 0 < i < 95
    ensures ConvolveFull(v, Kernel)[i + 1] == Div(Add(Add(v[i - 1], v[i]), v[i + 1]), 3.0)
  {
    var n, k := i + 1, 1.0 / 3.0;
    FullAt(v, n);
    assert ConvSum(v, Kernel, n, i - 1, i) == Add(Num(0.0), Scale(k, v[i - 1]));
    assert ConvSum(v, Kernel, n, i - 1, i + 1) == Add(ConvSum(v, Kernel, n, i - 1, i), Scale(k, v[i]));
    assert ConvSum(v, Kernel, n, i - 1, i + 2) == Add(ConvSum(v, Kernel, n, i - 1, i + 1), Scale(k, v[i + 1]));
    ThreeTaps(v[i - 1], v[i], v[i + 1]);
  }

  lemma ConvolveFirst(v: seq<Float>)
    requires |v| == 96
    ensures ConvolveFull(v, Kernel)[1] == Div(Add(Add(Num(0.0), v[0]), v[1]), 3.0)
  {
    var k := 1.0 / 3.0;
    FullAt(v, 1);
    assert ConvSum(v, Kernel, 1, 0, 1) == Add(Num(0.0), Scale(k, v[0]));
    assert ConvSum(v, Kernel, 1, 0, 2) == Add(ConvSum(v, Kernel, 1, 0, 1), Scale(k, v[1]));
    ThreeTaps(Num(0.0), v[0], v[1]);
  }

  lemma ConvolveLast(v: seq<Float>)
    requires |v| == 96
    ensures ConvolveFull(v, Kernel)[96] == Div(Add(Add(v[94], v[95]), Num(0.0)), 3.0)
  {
    var k := 1.0 / 3.0;
    FullAt(v, 96);
    assert ConvSum(v, Kernel, 96, 94, 95) == Add(Num(0.0), Scale(k, v[94]));
    assert ConvSum(v, Kernel, 96, 94, 96) == Add(ConvSum(v, Kernel, 96, 94, 95), Scale(k, v[95]));
    ThreeTaps(v[94], v[95], Num(0.0));
  }

  lemma SmoothMatchesConvolutionAt(m: map<int, Float>, i: Slot)
    ensures SmoothBaseline(m)[i] == ConvolveSame(Dense(m), Kernel)[i]
  {
    SameAt(Dense(m), i);
    SmoothIsFullAt(m, i);
  }

  /** Slot `i` of the filter is entry `i + 1` of the full convolution. */
  lemma SmoothIsFullAt(m: map<int, Float>, i: Slot)
    ensures SmoothBaseline(m)[i] == ConvolveFull(Dense(m), Kernel)[i + 1]
  {
    if i == 0 {
      ConvolveFirst(Dense(m));
      SmoothFirst(m);
    } else if i == 95 {
      ConvolveLast(Dense(m));
      SmoothLast(m);
    } else {
      ConvolveInterior(Dense(m), i);
      SmoothInterior(m, i);
    }
  }

  lemma SmoothFirst(m: map<int, Float>)
    ensures SmoothBaseline(m)[0] == Div(Add(Add(Num(0.0), Dense(m)[0]), Dense(m)[1]), 3.0)
  {
    SmoothAt(m, 0);
  }

  lemma SmoothLast(m: map<int, Float>)
    ensures SmoothBaseline(m)[95] == Div(Add(Add(Dense(m)[94], Dense(m)[95]), Num(0.0)), 3.0)
  {
    SmoothAt(m, 95);
  }

  lemma SmoothInterior(m: map<int, Float>, i: Slot)
    requires 0 < i < 95
    ensures SmoothBaseline(m)[i] == Div(Add(Add(Dense(m)[i - 1], Dense(m)[i]), Dense(m)[i + 1]), 3.0)
  {
    SmoothAt(m, i);
  }

  /** The filter is numpy's "same" convolution with the uniform kernel `np.ones(3) / 3.0`. */
  lemma SmoothIsConvolveSame(m: map<int, Float>)
    ensures SmoothBaseline(m) == ConvolveSame(Dense(m), Kernel)
  {
    forall i | 0 <= i < 96
      ensures SmoothBaseline(m)[i] == ConvolveSame(Dense(m), Kernel)[i]
    {
      SmoothMatchesConvolutionAt(m, i);
    }
  }

  /** A flat input stays flat inside the day and loses a third at both ends (zero padding). */
  lemma TapConstant(v: seq<Float>, c: real, i: Slot)
    requires |v| == 96 && forall j :: 0 <= j < 96 ==> v[j] == Num(c)
    ensures Tap(v, i) == Num(if i == 0 || i == 95 then 2.0 * c / 3.0 else c)
  {
  }

  lemma SmoothConstantAt(m: map<int, Float>, c: real, i: Slot)
    requires forall j :: 0 <= j < 96 ==> Get(m, j) == Num(c)
    ensures SmoothBaseline(m)[i] == Num(if i == 0 || i == 95 then 2.0 * c / 3.0 else c)
  {
    SmoothAt(m, i);
    TapConstant(Dense(m), c, i);
  }

  lemma SmoothConstant(m: map<int, Float>, c: real)
    requires forall j :: 0 <= j < 96 ==> Get(m, j) == Num(c)
    ensures forall i :: 1 <= i < 95 ==> SmoothBaseline(m)[i] == Num(c)
    ensures SmoothBaseline(m)[0] == Num(2.0 * c / 3.0)
    ensures SmoothBaseline(m)[95] == Num(2.0 * c / 3.0)
  {
    forall i | 0 <= i < 96
      ensures SmoothBaseline(m)[i] == Num(if i == 0 || i == 95 then 2.0 * c / 3.0 else c)
    {
      SmoothConstantAt(m, c, i);
    }
  }

  /** The filter never leaves an interval that holds 0.0 and every finite input. */
  lemma TapBounds(v: seq<Float>, i: int, lo: real, hi: real)
    requires lo <= 0.0 <= hi
    requires forall j :: 0 <= j < |v| && v[j].Num? ==> lo <= v[j].v <= hi
    ensures Tap(v, i).Num? ==> lo <= Tap(v, i).v <= hi
  {
    var a, b, c := At(v, i - 1), At(v, i), At(v, i + 1);
    if Tap(v, i).Num? {
      assert a.Num? && b.Num? && c.Num?;
      assert lo <= a.v <= hi && lo <= b.v <= hi && lo <= c.v <= hi;
    }
  }

  lemma SmoothBoundsAt(m: map<int, Float>, lo: real, hi: real, i: Slot)
    requires lo <= 0.0 <= hi
    requires forall j :: 0 <= j < 96 && Get(m, j).Num? ==> lo <= Get(m, j).v <= hi
    ensures SmoothBaseline(m)[i].Num? ==> lo <= SmoothBaseline(m)[i].v <= hi
  {
    SmoothAt(m, i);
    TapBounds(Dense(m), i, lo, hi);
  }

  lemma SmoothBounds(m: map<int, Float>, lo: real, hi: real)
    requires lo <= 0.0 <= hi
    requires forall j :: 0 <= j < 96 && Get(m, j).Num? ==> lo <= Get(m, j).v <= hi
    ensures forall i :: 0 <= i < 96 && SmoothBaseline(m)[i].Num? ==>
      lo <= SmoothBaseline(m)[i].v <= hi
  {
    forall i | 0 <= i < 96
      ensures SmoothBaseline(m)[i].Num? ==> lo <= SmoothBaseline(m)[i].v <= hi
    {
      SmoothBoundsAt(m, lo, hi, i);
    }
  }

  lemma TapFinite(v: seq<Float>, i: int)
    requires forall j :: 0 <= j < |v| ==> v[j].Num?
    ensures Tap(v, i).Num?
  {
  }

  lemma SmoothFiniteAt(m: map<int, Float>, i: Slot)
    requires forall j :: 0 <= j < 96 ==> Get(m, j).Num?
    ensures SmoothBaseline(m)[i].Num?
  {
    SmoothAt(m, i);
    TapFinite(Dense(m), i);
  }

  /** Finite inputs give finite outputs. */
  lemma SmoothFinite(m: map<int, Float>)
    requires forall j :: 0 <= j < 96 ==> Get(m, j).Num?
    ensures forall i :: 0 <= i < 96 ==> SmoothBaseline(m)[i].Num?
  {
    forall i | 0 <= i < 96
      ensures SmoothBaseline(m)[i].Num?
    {
      SmoothFiniteAt(m, i);
    }
  }

  lemma TapNaN(v: seq<Float>, j: int, i: int)
    requires 0 <= j < |v| && v[j].NaN? && j - 1 <= i <= j + 1
    ensures Tap(v, i).NaN?
  {
  }

  lemma SmoothNaNAt(m: map<int, Float>, j: Slot, i: Slot)
    requires Get(m, j).NaN? && j - 1 <= i <= j + 1
    ensures SmoothBaseline(m)[i].NaN?
  {
    SmoothAt(m, i);
    TapNaN(Dense(m), j, i);
  }

  /** A NaN slot spoils itself and its two neighbours in the output. */
  lemma SmoothNaN(m: map<int, Float>, j: Slot)
    requires Get(m, j).NaN?
    ensures forall i :: 0 <= i < 96 && j - 1 <= i <= j + 1 ==> SmoothBaseline(m)[i].NaN?
  {
    forall i | 0 <= i < 96 && j - 1 <= i <= j + 1
      ensures SmoothBaseline(m)[i].NaN?
    {
      SmoothNaNAt(m, j, i);
    }
  }

  // --------------------------------------------------------------- forecast

  /** `float(max(0.0, base_value + correction))`: never negative, and a NaN baseline gives 0.0. */
  function ForecastValue(base: Float, correction: real): (y: real)
    ensures y >= 0.0
    ensures base.Num? ==> y == RealMax(0.0, base.v + correction)
    ensures base.NaN? ==> y == 0.0
  {
    var r := PyMax(Num(0.0), Add(base, Num(correction)));
    assert r.Num?;
    r.v
  }

  /** `ilc_curve.get(signal, {}).get(slot, 0.0)`. */
  function CurveAt(curves: map<Signal, map<int, real>>, signal: Signal, s: int): real
  {
    if signal in curves && s in curves[signal] then curves[signal][s] else 0.0
  }

  /** The smoothed 14-day baseline of one signal, as `build_forecast` computes it. */
  function SignalBaseline(rows: seq<Row>, signal: Signal): (b: seq<Float>)
    ensures |b| == 96
  {
    SmoothBaseline(AsMap(ComputeBaseline(Column(rows, signal), 14)))
  }

  /** `df["ts_local"].max()`. */
  function Latest(rows: seq<Row>): (t: Stamp)
    requires rows != []
    ensures exists i :: 0 <= i < |rows| && rows[i].stamp == t
    ensures forall i :: 0 <= i < |rows| ==> !StampBefore(t, rows[i].stamp)
  {
    if |rows| == 1 then rows[0].stamp
    else
      var rest := Latest(rows[1..]);
      assert forall i :: 1 <= i < |rows| ==> rows[i] == rows[1..][i - 1];
      if StampBefore(rest, rows[0].stamp) then
        StampOrder(rest, rows[0].stamp);
        rows[0].stamp
      else rest
  }

  /** `n` instants 15 minutes apart starting at `t`; None on OverflowError past year 9999. */
  function Ticks(t: Stamp, n: nat): (r: Option<seq<Stamp>>)
    ensures r.Some? ==> |r.value| == n
    ensures r.Some? && n > 0 ==> r.value[0] == t
    ensures r.Some? ==> forall k :: 0 <= k < n - 1 ==> Plus15(r.value[k]) == Some(r.value[k + 1])
    ensures r.None? ==> n > 1
    decreases n
  {
    if n == 0 then Some([])
    else if n == 1 then Some([t])
    else match Plus15(t)
      case None => None
      case Some(u) =>
        match Ticks(u, n - 1)
        case None => None
        case Some(rest) => Some([t] + rest)
  }

  /** `int(horizon_hours * 4)` iterations of `range`, none for a negative horizon. */
  function Steps(horizonHours: int): nat
  {
    if horizonHours > 0 then horizonHours * 4 else 0
  }

  /** The forecast's timestamps: from 15 minutes after the latest row (or `now`). */
  function Timeline(rows: seq<Row>, horizonHours: int, now: Stamp): Option<seq<Stamp>>
  {
    var latest := if rows == [] then now else Latest(rows);
    match Plus15(latest)
    case None => None
    case Some(start) => Ticks(start, Steps(horizonHours))
  }

  /** The four load signals that are forecast, in output order. */
  const Forecasted: seq<Signal> := [TotalW, L1W, L2W, L3W]

  /** The forecast value at instant `t` for a signal with smoothed baseline `b`. */
  function Point(b: seq<Float>, curves: map<Signal, map<int, real>>, signal: Signal, t: Stamp): real
    requires |b| == 96
  {
    ForecastValue(b[BinOf(t)], CurveAt(curves, signal, BinOf(t)))
  }

  /** One signal's forecast list over the given timestamps, from its smoothed baseline `b`. */
  function SeriesOf(b: seq<Float>, curves: map<Signal, map<int, real>>, signal: Signal, ts: seq<Stamp>): (vs: seq<real>)
    requires |b| == 96
    ensures |vs| == |ts|
  {
    seq(|ts|, k requires 0 <= k < |ts| => Point(b, curves, signal, ts[k]))
  }

  function Series(rows: seq<Row>, curves: map<Signal, map<int, real>>, signal: Signal, ts: seq<Stamp>): (vs: seq<real>)
    ensures |vs| == |ts|
  {
    SeriesOf(SignalBaseline(rows, signal), curves, signal, ts)
  }

  /** `build_forecast`'s result (before the timestamps are rendered). */
  datatype Forecast = Forecast(timestamps: seq<Stamp>, values: map<Signal, seq<real>>)

  /** The inner loop of `build_forecast`: one value per timestamp, appended in order. */
  method ForecastSeries(baseline: seq<Float>, curves: map<Signal, map<int, real>>, signal: Signal, timestamps: seq<Stamp>)
    returns (values: seq<real>)
    requires |baseline| == 96
    ensures values == SeriesOf(baseline, curves, signal, timestamps)
  {
    values := [];
    for k := 0 to |timestamps|
      invariant |values| == k
      invariant forall j :: 0 <= j < k ==> values[j] == Point(baseline, curves, signal, timestamps[j])
    {
      values := values + [Point(baseline, curves, signal, timestamps[k])];
    }
  }

  /**
   * `build_forecast(df, horizon_hours, ilc_curve)`, with the clock reading
   * `now` passed in for the empty history; None where the date arithmetic
   * overflows.
   */
  method BuildForecast(rows: seq<Row>, horizonHours: int, curves: map<Signal, map<int, real>>, now: Stamp)
    returns (r: Option<Forecast>)
    ensures r.None? <==> Timeline(rows, horizonHours, now).None?
    ensures (if rows == [] then now else Latest(rows)).date.year < 9999 && horizonHours < 24 * 365 ==> r.Some?
    ensures r.Some? ==> r.value.timestamps == Timeline(rows, horizonHours, now).value
    ensures r.Some? ==> r.value.values.Keys == {TotalW, L1W, L2W, L3W}
    ensures r.Some? ==> forall sig :: sig in r.value.values ==>
      r.value.values[sig] == Series(rows, curves, sig, r.value.timestamps)
  {
    var timeline := Timeline(rows, horizonHours, now);
    if (if rows == [] then now else Latest(rows)).date.year < 9999 && horizonHours < 24 * 365 {
      TimelineExists(rows, horizonHours, now);
    }
    if timeline.None? {
      return None;
    }
    var timestamps := timeline.value;
    var outputs := ForecastOutputs(rows, curves, Forecasted, timestamps);
    assert Forecasted == [TotalW, L1W, L2W, L3W];
    assert (set sig | sig in Forecasted) == {TotalW, L1W, L2W, L3W};
    r := Some(Forecast(timestamps, outputs));
  }

  /** The outer loop of `build_forecast`: one series per signal, keyed by the signal. */
  method ForecastOutputs(rows: seq<Row>, curves: map<Signal, map<int, real>>, signals: seq<Signal>, timestamps: seq<Stamp>)
    returns (outputs: map<Signal, seq<real>>)
    ensures outputs.Keys == set sig | sig in signals
    ensures forall sig :: sig in outputs ==> outputs[sig] == Series(rows, curves, sig, timestamps)
  {
    outputs := map[];
    for i := 0 to |signals|
      invariant outputs.Keys == set sig | sig in signals[..i]
      invariant forall sig :: sig in outputs ==> outputs[sig] == Series(rows, curves, sig, timestamps)
    {
      var signal := signals[i];
      var baseline := SignalBaseline(rows, signal);
      var values := ForecastSeries(baseline, curves, signal, timestamps);
      outputs := outputs[signal := values];
      assert signals[..i + 1] == signals[..i] + [signal];
    }
    assert signals[..|signals|] == signals;
  }

  /** Every forecast value is the clamped sum of the smoothed baseline and the correction at its slot. */
  lemma SeriesAt(rows: seq<Row>, curves: map<Signal, map<int, real>>, signal: Signal, ts: seq<Stamp>, k: nat)
    requires k < |ts|
    ensures Series(rows, curves, signal, ts)[k] >= 0.0
    ensures SignalBaseline(rows, signal)[BinOf(ts[k])].Num? ==>
      Series(rows, curves, signal, ts)[k] ==
        RealMax(0.0, SignalBaseline(rows, signal)[BinOf(ts[k])].v + CurveAt(curves, signal, BinOf(ts[k])))
    ensures SignalBaseline(rows, signal)[BinOf(ts[k])].NaN? ==> Series(rows, curves, signal, ts)[k] == 0.0
  {
  }

  /** The forecast's timeline: `Steps` instants, the first 15 minutes after the latest row, each slot one after the last. */
  lemma TimelineShape(rows: seq<Row>, horizonHours: int, now: Stamp)
    requires Timeline(rows, horizonHours, now).Some?
    ensures |Timeline(rows, horizonHours, now).value| == Steps(horizonHours)
    ensures Steps(horizonHours) > 0 ==>
      Plus15(if rows == [] then now else Latest(rows)) == Some(Timeline(rows, horizonHours, now).value[0])
    ensures SlotsAdvance(Timeline(rows, horizonHours, now).value)
  {
    var start := Plus15(if rows == [] then now else Latest(rows)).value;
    assert Timeline(rows, horizonHours, now) == Ticks(start, Steps(horizonHours));
    TicksAdvance(start, Steps(horizonHours));
  }

  /** Consecutive instants fall in consecutive slots, 95 wrapping to 0. */
  predicate SlotsAdvance(ts: seq<Stamp>)
  {
    forall k :: 0 <= k < |ts| - 1 ==> BinOf(ts[k + 1]) == (BinOf(ts[k]) + 1) % 96
  }

  /** Consecutive instants of a timeline fall in consecutive slots. */
  lemma TicksAdvance(t: Stamp, n: nat)
    requires Ticks(t, n).Some?
    ensures SlotsAdvance(Ticks(t, n).value)
  {
    var ts := Ticks(t, n).value;
    forall k | 0 <= k < |ts| - 1
      ensures BinOf(ts[k + 1]) == (BinOf(ts[k]) + 1) % 96
    {
      assert Plus15(ts[k]) == Some(ts[k + 1]);
      BinAdvances(ts[k]);
    }
  }

  /** The instants exist whenever the last of them stays within the last representable minute. */
  lemma {:induction false} TicksExist(t: Stamp, n: nat)
    requires MinuteIndex(t) + 15 * (n - 1) <= LastMinuteIndex
    ensures Ticks(t, n).Some?
    decreases n
  {
    if n > 1 {
      Plus15Index(t);
      TicksExist(Plus15(t).value, n - 1);
    }
  }

  /** A horizon under a year, from a latest row (or `now`) before the year 9999, has a timeline. */
  lemma TimelineExists(rows: seq<Row>, horizonHours: int, now: Stamp)
    requires (if rows == [] then now else Latest(rows)).date.year < 9999
    requires horizonHours < 24 * 365
    ensures Timeline(rows, horizonHours, now).Some?
  {
    var latest := if rows == [] then now else Latest(rows);
    YearBeforeLast(latest.date);
    assert MinuteIndex(latest) + 15 * (Steps(horizonHours) + 1) <= LastMinuteIndex;
    Plus15Index(latest);
    TicksExist(Plus15(latest).value, Steps(horizonHours));
  }

  /** The forecast starts after every recorded row. */
  lemma TimelineAfterHistory(rows: seq<Row>, horizonHours: int, now: Stamp, i: nat)
    requires Timeline(rows, horizonHours, now).Some? && Steps(horizonHours) > 0 && i < |rows|
    ensures StampBefore(rows[i].stamp, Timeline(rows, horizonHours, now).value[0])
  {
    var latest := Latest(rows);
    var start := Timeline(rows, horizonHours, now).value[0];
    assert Plus15(latest) == Some(start);
    StampOrder(rows[i].stamp, latest);
    StampOrder(latest, start);
  }

  /** With no history the baseline is zero, so the forecast is just the clamped correction. */
  lemma ColdStart(curves: map<Signal, map<int, real>>, signal: Signal, ts: seq<Stamp>, k: nat)
    requires k < |ts|
    ensures Series([], curves, signal, ts)[k] == RealMax(0.0, CurveAt(curves, signal, BinOf(ts[k])))
  {
    var b := ComputeBaseline(Column([], signal), 14);
    assert Column([], signal) == [];
    var m := AsMap(b);
    assert forall j :: 0 <= j < 96 ==> Get(m, j) == Num(0.0);
    SmoothConstantAt(m, 0.0, BinOf(ts[k]));
  }
}
