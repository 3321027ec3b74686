# energyhome_forecast: the forecasting and learning core, in Dafny

This project models the core of the `energyhome_forecast` Home Assistant add-on:

- the fixed day of 96 fifteen-minute slots;
- the per-slot baseline, averaged over the most recent 14 dates of binned history;
- the zero-padded 3-tap smoothing filter;
- the forecast assembled from the smoothed baseline and a correction curve;
- the iterative-learning-control (ILC) correction curve, learned from yesterday's readings;
- the once-a-day cycle that updates five curves in the add-on's store and then sets a date marker;
- the flooring of a poll instant to its bin;
- the estimate of a phase's grid power from its current when no power sensor reports;
- the clean-up of entity ids read from the configuration.

The modules follow the source files:

| module | file | models |
|---|---|---|
| `Optional` | optional.dfy | Python's `None` as `Option`, and `dict.get` on optional values |
| `Numbers` | numbers.dfy | Python floats as exact reals plus NaN, with the builtins `max` and `min` |
| `Calendar` | calendar.dfy | `date` and local `datetime`, one-day and 15-minute steps (OverflowError is `None`), `date.isoformat()` |
| `Records` | records.dfy | rows of the `binned` table and the one-column view the baseline reads |
| `Forecast` | forecast.dfy | `_bin_index`, `compute_baseline`, `smooth_baseline`, `build_forecast` |
| `Ilc` | ilc.dfy | `smooth_curve`, `update_ilc_curve` (its rows passed in), `should_update_ilc` |
| `App` | main.dfy | `_local_bin_start`, the grid-power fallback of `poll_once` and `latest`, `maybe_update_ilc` over a `Store` class |
| `Models` | models.dfy | `normalize_entity_id` |

Floats are modelled as `Float = Num(real) | NaN`:

- Arithmetic on `real` is exact.
- NaN is kept because the core really produces it. pandas averages a slot that has rows but no readings to NaN.
- NaN then flows on. Smoothing spreads it to the two neighbouring slots. `max(0.0, NaN)` turns it into a forecast of 0.0. The ILC update carries it into the curve.
- A curve that holds NaN cannot be saved (see `App.Saved`).

Loops in the source are loops in the model. Each method is proved equal to a specification function, and the lemmas are stated about those functions:

- `build_forecast`'s two loops;
- the two loops of `update_ilc_curve`, the second of them updating an `array` in place;
- the loop of `maybe_update_ilc` over the signals.

The add-on's SQLite database is the class `App.Store`:

- a metadata map;
- the stored curves per signal;
- the binned rows.

`maybe_update_ilc` changes the store's fields in place.

Where the code and its design description disagree, the model follows the code:

- The daily cycle tests whether any row exists from yesterday's midnight on, today's rows included (main.py:167-170). It does not test whether yesterday had rows. So it also runs when yesterday is empty but today is not.
- The ILC baseline is computed from yesterday's rows only. These are the rows fetched from yesterday's midnight on, cut to those dated before today (main.py:167-172).
- Smoothing pads with zeros at both ends of the day. It does not wrap around midnight.
- There is no learning-mode selector and no weekday baseline. `build_forecast` always adds the correction curve and forecasts four signals.
- With `alpha = 0` the curve is not left as it was. Each slot that receives a reading is clamped, and the whole curve is smoothed again (`Ilc.AlphaZeroSlot`, `Ilc.AlphaZeroKeepsZero`).
- A slot whose rows have no readings averages to NaN, not to 0.0 (`Forecast.BaselineWithoutReadings`). If yesterday's baseline is NaN at a slot that gets one of yesterday's readings, that signal's save fails. The cycle then ends without setting the marker, so it runs again on the next poll (`App.NaNBaselineFailsSave`, `App.RunTwice`).

## Model

| member | source | states |
|---|---|---|
| Numbers.PyMax | addons/energyhome_forecast/app/forecast.py:56 | Python's `max`: the larger of two finite values; when either side is NaN, the first argument (so `max(0.0, NaN)` is 0.0) |
| Numbers.PyMin | addons/energyhome_forecast/app/ilc.py:45 | Python's `min`: the smaller of two finite values; when either side is NaN, the first argument |
| Calendar.NextDay | addons/energyhome_forecast/app/forecast.py:42-44 | one day later; absent exactly at 9999-12-31 (OverflowError); otherwise strictly later |
| Calendar.PrevDay | addons/energyhome_forecast/app/main.py:163 | `today - timedelta(days=1)`: absent exactly at 0001-01-01; otherwise strictly earlier |
| Calendar.PrevNextRoundTrip | addons/energyhome_forecast/app/main.py:163-165 | going back a day and forward a day are inverse steps, in both orders |
| Calendar.NothingBetweenPrevDay | addons/energyhome_forecast/app/main.py:163-172 | a date at or after yesterday and before today is yesterday |
| Calendar.StampOrder | addons/energyhome_forecast/app/forecast.py:41 | the order of local timestamps is a strict total order, so the latest row is well defined |
| Calendar.Plus15 | addons/energyhome_forecast/app/forecast.py:42-44 | adding 15 minutes: absent only after 23:45 on 9999-12-31; otherwise a strictly later stamp whose minute of day advances by 15 mod 1440, with the same date or the next day |
| Calendar.YearLengthValue | addons/energyhome_forecast/app/forecast.py:42-44 | a year has 366 days when it is a leap year and 365 otherwise |
| Calendar.DaysBeforeNextYear | addons/energyhome_forecast/app/forecast.py:42-44 | the day count before year `y + 1` is the count before `y` plus the length of `y` |
| Calendar.DaysBeforeYearGrows | addons/energyhome_forecast/app/forecast.py:42-44 | a later year starts on a later (or the same) day number |
| Calendar.MonthEndWithinYear | addons/energyhome_forecast/app/forecast.py:42-44 | every month ends within its year |
| Calendar.NextDayNumber | addons/energyhome_forecast/app/forecast.py:42-44 | the day after a date has the next day number |
| Calendar.YearBeforeLast | addons/energyhome_forecast/app/forecast.py:42-44 | a date before the year 9999 lies at least 365 days before 9999-12-31 |
| Calendar.Plus15Index | addons/energyhome_forecast/app/forecast.py:42-44 | adding 15 minutes exists whenever the result stays within 9999-12-31 23:59, and moves the minute count on by exactly 15 |
| Calendar.Digits | addons/energyhome_forecast/app/main.py:195 | zero-padded rendering: exactly `width` decimal digit characters |
| Calendar.DigitsInjective | addons/energyhome_forecast/app/main.py:195 | numbers that fit the width have distinct renderings |
| Calendar.IsoDate | addons/energyhome_forecast/app/main.py:195 | `date.isoformat()`: ten characters with dashes at positions 4 and 7 |
| Calendar.IsoDateInjective | addons/energyhome_forecast/app/ilc.py:50-53 | distinct dates give distinct ISO strings, so the marker names one day |
| Records.ColumnTimesShared | addons/energyhome_forecast/app/forecast.py:18-19 | every value column of the same rows carries the same local dates, hours and minutes, row by row, so the bins and dates computed from `ts_local` are shared by all signals |
| Records.ColumnAppend | addons/energyhome_forecast/app/forecast.py:18-19 | the column of concatenated rows is the concatenation of their columns, and a row's sample has a reading exactly when the row has a value for that signal (a NULL gives no reading) |
| Forecast.BinIndex | addons/energyhome_forecast/app/forecast.py:10-11 | `int(hour * 4 + minute / 15)` with true division equals `hour * 4 + minute div 15` and lies in 0..95 |
| Forecast.BinAdvances | addons/energyhome_forecast/app/forecast.py:44-53 | 15 minutes later is the next slot, 95 wrapping to 0 |
| Forecast.ComputeBaseline | addons/energyhome_forecast/app/forecast.py:15-16 | the baseline has exactly the 96 slots; an empty history gives 0.0 in every slot |
| Forecast.SubsetCardinality | addons/energyhome_forecast/app/forecast.py:20 | a subset is no larger, and a proper subset is smaller |
| Forecast.RecentKeepsAllWhenFew | addons/energyhome_forecast/app/forecast.py:20-21 | with at most `days` distinct dates (or `days == 0`, Python's `[-0:]`), every date stays in the window |
| Forecast.RecentIsSuffix | addons/energyhome_forecast/app/forecast.py:20 | the window is a suffix of the sorted dates: a kept date keeps every later date |
| Forecast.LaterCountsDistinct | addons/energyhome_forecast/app/forecast.py:20 | two distinct dates have different numbers of later dates, that is, different positions in the sorted list |
| Forecast.CountBelow | addons/energyhome_forecast/app/forecast.py:20 | dates with fewer than `n` later dates number at most `n` |
| Forecast.RecentAtMost | addons/energyhome_forecast/app/forecast.py:20 | `sorted(dates)[-days:]` holds at most `days` dates |
| Forecast.EarliestDate | addons/energyhome_forecast/app/forecast.py:20 | a non-empty set of dates has an earliest one, before every other |
| Forecast.RecentExactly | addons/energyhome_forecast/app/forecast.py:20 | for `days > 0`, `sorted(dates)[-days:]` holds exactly `min(days, len(dates))` dates |
| Forecast.ValueSumBounds | addons/energyhome_forecast/app/forecast.py:22 | the sum of a slot's present readings lies between `lo` and `hi` times their count |
| Forecast.StepBounds | addons/energyhome_forecast/app/forecast.py:22 | adding one reading within [lo, hi] to a count and sum, or adding nothing, keeps the sum within the scaled bounds |
| Forecast.MeanBounds | addons/energyhome_forecast/app/forecast.py:22 | a sum of `n` values within [lo, hi], divided by `n`, lies in [lo, hi] |
| Forecast.SlotMeanBounds | addons/energyhome_forecast/app/forecast.py:22 | a group with readings has a finite mean within the bounds of those readings |
| Forecast.CountsOrdered | addons/energyhome_forecast/app/forecast.py:22 | a group's present readings are no more than its rows |
| Forecast.BaselineWithinReadings | addons/energyhome_forecast/app/forecast.py:20-23 | a slot with in-window readings is finite and lies within their bounds |
| Forecast.BaselineWithoutReadings | addons/energyhome_forecast/app/forecast.py:22-23 | a slot without in-window rows is 0.0; one whose rows hold no reading is NaN |
| Forecast.ConstantHistoryBaseline | addons/energyhome_forecast/app/forecast.py:20-23 | when every reading is `c` and every slot has one, every slot's baseline is `c` |
| Forecast.DenseAsMap | addons/energyhome_forecast/app/forecast.py:23-27 | reading the 96 slots back out of the dict `{i: s[i]}` with `.get(i, 0.0)` gives the sequence itself |
| Forecast.AsMapDense | addons/energyhome_forecast/app/forecast.py:27-30 | rebuilding a dict from its 96 slots keeps every slot's `.get(i, 0.0)` value and has exactly the keys 0..95 |
| Forecast.Dense | addons/energyhome_forecast/app/forecast.py:27 | the `np.array` of `get(i, 0.0)` has 96 entries |
| Forecast.SmoothBaseline | addons/energyhome_forecast/app/forecast.py:26-30 | the smoothed baseline has exactly 96 slots |
| Forecast.ConvolveFull | addons/energyhome_forecast/app/forecast.py:29 | numpy's full convolution: \|v\| + \|k\| - 1 entries |
| Forecast.ConvolveSame | addons/energyhome_forecast/app/forecast.py:29 | numpy's "same" convolution: as many entries as the input |
| Forecast.ThreeTaps | addons/energyhome_forecast/app/forecast.py:28-29 | three taps of 1/3 summed from 0.0 are the mean of the three inputs |
| Forecast.FullAt | addons/energyhome_forecast/app/forecast.py:29 | entry `n` of the full convolution sums the kernel's overlap with the input |
| Forecast.SmoothAt | addons/energyhome_forecast/app/forecast.py:26-30 | slot `i` is `(v[i-1] + v[i] + v[i+1]) / 3`, zero beyond either end |
| Forecast.SameAt | addons/energyhome_forecast/app/forecast.py:29 | "same" entry `i` is full entry `i + 1` |
| Forecast.ConvolveInterior | addons/energyhome_forecast/app/forecast.py:29 | inside the day the full convolution averages three neighbours |
| Forecast.ConvolveFirst | addons/energyhome_forecast/app/forecast.py:29 | at slot 0 the full convolution sees zero before the start |
| Forecast.ConvolveLast | addons/energyhome_forecast/app/forecast.py:29 | at slot 95 the full convolution sees zero after the end |
| Forecast.SmoothIsFullAt | addons/energyhome_forecast/app/forecast.py:26-30 | the filter's slot `i` is full-convolution entry `i + 1` |
| Forecast.SmoothFirst | addons/energyhome_forecast/app/forecast.py:26-30 | slot 0 averages a zero, slot 0 and slot 1 |
| Forecast.SmoothLast | addons/energyhome_forecast/app/forecast.py:26-30 | slot 95 averages slot 94, slot 95 and a zero |
| Forecast.SmoothInterior | addons/energyhome_forecast/app/forecast.py:26-30 | an inner slot averages itself and its two neighbours |
| Forecast.SmoothMatchesConvolutionAt | addons/energyhome_forecast/app/forecast.py:26-30 | each slot of the filter equals `np.convolve(values, ones(3)/3, mode="same")` there |
| Forecast.SmoothIsConvolveSame | addons/energyhome_forecast/app/forecast.py:26-30 | the filter is exactly numpy's "same" convolution with the uniform 3-tap kernel |
| Forecast.TapConstant | addons/energyhome_forecast/app/forecast.py:26-30 | a flat input `c` gives `c` inside the day and `2c/3` at both ends |
| Forecast.SmoothConstantAt | addons/energyhome_forecast/app/forecast.py:26-30 | the same, one slot of the filter at a time, for a dict that reads `c` at 0..95 |
| Forecast.SmoothConstant | addons/energyhome_forecast/app/forecast.py:26-30 | a constant `c` stays `c` at slots 1..94 and becomes `2c/3` at slots 0 and 95 |
| Forecast.TapBounds | addons/energyhome_forecast/app/forecast.py:26-30 | a finite tap of inputs within an interval holding 0 stays in that interval |
| Forecast.SmoothBoundsAt | addons/energyhome_forecast/app/forecast.py:26-30 | one slot of the filter keeps an interval holding 0.0 and every finite input |
| Forecast.SmoothBounds | addons/energyhome_forecast/app/forecast.py:26-30 | the filter never leaves an interval that holds 0.0 and every finite input |
| Forecast.TapFinite | addons/energyhome_forecast/app/forecast.py:26-30 | finite inputs give a finite tap |
| Forecast.SmoothFiniteAt | addons/energyhome_forecast/app/forecast.py:26-30 | finite inputs give a finite slot |
| Forecast.SmoothFinite | addons/energyhome_forecast/app/forecast.py:26-30 | finite inputs give finite outputs in all 96 slots |
| Forecast.TapNaN | addons/energyhome_forecast/app/forecast.py:26-30 | a NaN input spoils every tap that covers it |
| Forecast.SmoothNaNAt | addons/energyhome_forecast/app/forecast.py:26-30 | a NaN slot spoils slot `i` when `i` is within one of it |
| Forecast.SmoothNaN | addons/energyhome_forecast/app/forecast.py:26-30 | a NaN slot spoils itself and its neighbours |
| Forecast.ForecastValue | addons/energyhome_forecast/app/forecast.py:54-56 | `float(max(0.0, base + correction))` is never negative, is `max(0, base + correction)` for a finite base, and is 0.0 for a NaN base |
| Forecast.SignalBaseline | addons/energyhome_forecast/app/forecast.py:48-49 | the smoothed 14-day baseline has 96 slots |
| Forecast.Latest | addons/energyhome_forecast/app/forecast.py:41 | `df["ts_local"].max()` is some row's stamp, and no row comes after it |
| Forecast.Ticks | addons/energyhome_forecast/app/forecast.py:42-44 | `n` instants, the first at the start, each 15 minutes after the one before; absent only when some step overflows, which needs more than one instant |
| Forecast.TicksExist | addons/energyhome_forecast/app/forecast.py:42-44 | under Python `datetime` arithmetic, the instants exist whenever the last of them stays within the last minute of 9999-12-31, the largest `datetime` (the pandas range of history stamps is not modelled; see Left out) |
| Forecast.TimelineExists | addons/energyhome_forecast/app/forecast.py:38-44 | under Python `datetime` arithmetic, a horizon under a year, counted from a latest row (or `now`) dated before the year 9999, always has its timeline; the source's own bound on the `now` path, not its pandas bound with history (see Left out) |
| Forecast.TimelineShape | addons/energyhome_forecast/app/forecast.py:41-44 | `int(horizon_hours * 4)` timestamps, none for a negative horizon; the first is the latest row (or `now`) plus 15 minutes; the slot advances by 1 mod 96 per step (existence: `Forecast.TimelineExists`) |
| Forecast.TicksAdvance | addons/energyhome_forecast/app/forecast.py:44-53 | each instant of the timeline is 15 minutes after the one before, so each falls in the slot after the previous one's |
| Forecast.TimelineAfterHistory | addons/energyhome_forecast/app/forecast.py:41-42 | the first forecast instant comes after every recorded row |
| Forecast.SeriesOf | addons/energyhome_forecast/app/forecast.py:51-57 | one value per timestamp |
| Forecast.Series | addons/energyhome_forecast/app/forecast.py:47-57 | each signal's list has as many values as there are timestamps |
| Forecast.ForecastSeries | addons/energyhome_forecast/app/forecast.py:51-56 | the inner loop appends, for each timestamp in order, the clamped value at its slot |
| Forecast.ForecastOutputs | addons/energyhome_forecast/app/forecast.py:46-57 | the outer loop gives exactly the listed signals as keys, each holding that signal's series |
| Forecast.BuildForecast | addons/energyhome_forecast/app/forecast.py:33-59 | absent exactly when the timeline overflows `datetime`'s range, and present for a horizon under a year from a latest row (or `now`) before 9999 (the source's limit on the `datetime.now()` path; with history the pandas range applies, see Left out); otherwise the timestamps of the timeline and exactly the keys `total_w`, `l1_w`, `l2_w`, `l3_w`, each holding that signal's series |
| Forecast.SeriesAt | addons/energyhome_forecast/app/forecast.py:50-56 | every value is at least 0; it is `max(0, smoothed baseline + curve.get(slot, 0.0))` at its slot, or 0.0 where the baseline is NaN |
| Forecast.ColdStart | addons/energyhome_forecast/app/forecast.py:15-16 | with no history, each value is just `max(0, correction)` at its slot |
| Ilc.SmoothCurve | addons/energyhome_forecast/app/ilc.py:11-15 | `smooth_curve` is the same zero-padded 3-tap filter as `smooth_baseline` |
| Ilc.StartCurve | addons/energyhome_forecast/app/ilc.py:35 | the working curve has the 96 slots 0..95 |
| Ilc.Learn | addons/energyhome_forecast/app/ilc.py:36-45 | the learning loop keeps the 96 slots |
| Ilc.IlcCurve | addons/energyhome_forecast/app/ilc.py:18-47 | the returned curve has exactly the 96 slots |
| Ilc.UpdateIlcCurve | addons/energyhome_forecast/app/ilc.py:18-47 | the two loops and the smoothing compute `IlcCurve`, the curve the lemmas below describe |
| Ilc.PresentValues | addons/energyhome_forecast/app/ilc.py:29-33 | the first loop collects exactly the rows with a reading of the signal, in order |
| Ilc.LearnInto | addons/energyhome_forecast/app/ilc.py:35-45 | the second loop updates the curve in place, record by record, as `Learn` does |
| Ilc.ShouldUpdateIlc | addons/energyhome_forecast/app/ilc.py:50-53 | the cycle runs exactly when the marker is not today's ISO date: a missing or empty marker, or any other date, lets it run |
| Ilc.ShouldUpdateAfterMarker | addons/energyhome_forecast/app/ilc.py:50-53 | with a marker written on some day, the cycle runs exactly on the other days |
| Ilc.PresentAppend | addons/energyhome_forecast/app/ilc.py:30-33 | collecting readings distributes over concatenated row lists |
| Ilc.AbsentRowIgnored | addons/energyhome_forecast/app/ilc.py:31-33 | a row without a reading of the signal contributes nothing |
| Ilc.LearnAppend | addons/energyhome_forecast/app/ilc.py:36-45 | learning from `o1 + o2` is learning from `o1` and then from `o2` |
| Ilc.UnparsedSkipped | addons/energyhome_forecast/app/ilc.py:37-40 | a record whose timestamp fails to parse changes nothing |
| Ilc.LearnAt | addons/energyhome_forecast/app/ilc.py:36-45 | each slot ends as its own readings folded in record order into its starting value |
| Ilc.UntouchedSlot | addons/energyhome_forecast/app/ilc.py:36-45 | a slot no record lands in keeps its starting value |
| Ilc.ClampFacts | addons/energyhome_forecast/app/ilc.py:45 | clamping lands in [-cmax, cmax] and keeps finite values finite; it leaves a value already in range alone and is idempotent |
| Ilc.LearnWithin | addons/energyhome_forecast/app/ilc.py:36-45 | the learning loop keeps every finite slot in [-cmax, cmax] |
| Ilc.LearnFinite | addons/energyhome_forecast/app/ilc.py:36-45 | with a finite baseline, the learning loop keeps every slot finite |
| Ilc.StartWithin | addons/energyhome_forecast/app/ilc.py:35 | an existing curve within [-cmax, cmax] starts a finite working curve within it, 0.0 filling in missing slots |
| Ilc.IlcCurveBounded | addons/energyhome_forecast/app/ilc.py:35-47 | with `cmax >= 0` and an existing curve within [-cmax, cmax], every finite slot of the result is within [-cmax, cmax]; with a finite baseline every slot is finite |
| Ilc.FoldAlphaZero | addons/energyhome_forecast/app/ilc.py:44-45 | with `alpha = 0`, one or more updates of a slot clamp its starting value |
| Ilc.AlphaZeroSlot | addons/energyhome_forecast/app/ilc.py:44-45 | with `alpha = 0`, a touched slot becomes its clamped starting value and an untouched one keeps it |
| Ilc.AlphaZeroKeepsZero | addons/energyhome_forecast/app/ilc.py:44-47 | with `alpha = 0` and a finite baseline, an all-zero (or empty) existing curve returns all zeros |
| Ilc.NaNBaselinePoisons | addons/energyhome_forecast/app/ilc.py:42-45 | a NaN baseline at a slot that receives a reading makes that slot NaN |
| Ilc.NaNBaselineSpoilsCurve | addons/energyhome_forecast/app/ilc.py:42-47 | ... and the returned curve is then not finite |
| App.LocalBinStart | addons/energyhome_forecast/app/main.py:47-50 | the same date and hour; the minute floored to a multiple of `bin_minutes`, at most the original and within one bin of it; seconds and microseconds zero |
| App.FloorMultiple | addons/energyhome_forecast/app/main.py:49 | `(m // b) * b` is the multiple of `b` just at or below `m` |
| App.MulAtLeast | addons/energyhome_forecast/app/main.py:49 | a positive multiple of `b` is at least `b` |
| App.DivModUnique | addons/energyhome_forecast/app/main.py:49 | floor division has one quotient and one remainder |
| App.BinStartSameSlot | addons/energyhome_forecast/app/main.py:47-50 | with 15-minute bins, the bin start lies in the same forecast slot as the instant, at its slot's first minute |
| App.Fallback | addons/energyhome_forecast/app/main.py:104-113 | a phase's grid power is the measured power if present, else `current * grid_voltage_v` if the current is present, else absent |
| App.PollGridPowers | addons/energyhome_forecast/app/main.py:104-113 | the three phases of `poll_once`, reading missing keys as absent, each get the fallback |
| App.GetVal | addons/energyhome_forecast/app/main.py:303-310 | an unset or empty entity id gives nothing; a set id present in the latest values gives exactly its value; a value comes only from the latest values under that id |
| App.LatestGridPhase | addons/energyhome_forecast/app/main.py:325-341 | one phase of `latest`: its current, its power with the fallback, and the flag `grid_lN_w_estimated`, true exactly when the power was missing and the current present |
| App.EstimatedOnlyWhenMadeUp | addons/energyhome_forecast/app/main.py:325-341 | the estimated case is exactly the one where a power exists without a measured one |
| App.RowsFrom | addons/energyhome_forecast/app/main.py:167 | `fetch_binned_since(yesterday midnight)`: exactly the rows dated yesterday or later |
| App.RowsBefore | addons/energyhome_forecast/app/main.py:172 | exactly the rows dated before today |
| App.OrderedSnoc | addons/energyhome_forecast/app/main.py:167-172 | keeping some earlier rows of an ordered list, then its last row, stays ordered |
| App.RowsFromOrdered | addons/energyhome_forecast/app/storage.py:100-110 | `fetch_binned_since` returns its rows in ascending timestamp order |
| App.RowsBeforeOrdered | addons/energyhome_forecast/app/storage.py:114-125 | cutting the rows at a date keeps their ascending order |
| App.CycleRowsOrdered | addons/energyhome_forecast/app/main.py:167-172 | the rows the cycle learns from (yesterday's) come in ascending timestamp order, so the learning folds them in time order |
| App.AsIlcRowsAppend | addons/energyhome_forecast/app/ilc.py:28 | the rows `update_ilc_curve` fetches for concatenated row lists are the concatenation of the fetched rows |
| App.ObservationsAreReadings | addons/energyhome_forecast/app/ilc.py:28-33 | the observations the learning loop sees are exactly the rows' readings of the signal, in row order, each with its row's timestamp |
| App.CycleCurve | addons/energyhome_forecast/app/main.py:180-192 | the curve computed for one signal has 96 slots |
| App.Saved | addons/energyhome_forecast/app/main.py:193 | `save_ilc_curve` succeeds exactly when the curve is finite; slots 0..95 are then replaced and every other stored slot is kept |
| App.Store.MaybeUpdateIlc | addons/energyhome_forecast/app/main.py:157-195 | skipped exactly when the guard refuses; stops at a date overflow; stops when no row is dated yesterday or later. Those three change nothing. Otherwise the loop's curves and failing signal are those of `RunPolicy`; the marker is set to today's ISO date exactly when every save succeeded |
| App.Store.RunCycle | addons/energyhome_forecast/app/main.py:173-195 | update the curves of the policy, then set the marker only if no save failed |
| App.Store.SetMarker | addons/energyhome_forecast/app/main.py:195 | the marker key maps to today's ISO date and nothing else in the metadata changes |
| App.Store.UpdateCurves | addons/energyhome_forecast/app/main.py:173-193 | the signal loop computes `RunPolicy`: each curve is saved in turn and the first failed save ends the loop |
| App.Store.constructor | addons/energyhome_forecast/app/storage.py:22-23 | a store holds its binned rows in ascending `ts_local_bin_start` order (`Valid`) |
| App.GetMetadata | addons/energyhome_forecast/app/main.py:159 | `get_metadata` returns the stored value exactly when the key is stored, and nothing for a missing key |
| App.MetadataAfterSet | addons/energyhome_forecast/app/main.py:159-195 | reading the marker key after `set_metadata` gives the value just written; every other key reads as before |
| App.PolicyDistinct | addons/energyhome_forecast/app/main.py:173-179 | five signals, pairwise distinct |
| App.BaselineRowsAreYesterday | addons/energyhome_forecast/app/main.py:163-172 | every row in the ILC baseline is a stored row dated yesterday |
| App.PolicyWithinFrame | addons/energyhome_forecast/app/main.py:173-193 | whether a policy's curves are within bounds depends only on the curves of its own signals |
| App.RunPolicyKeepsOthers | addons/energyhome_forecast/app/main.py:173-193 | the loop leaves every signal outside the policy unchanged |
| App.RunPolicyBounded | addons/energyhome_forecast/app/main.py:173-193 | a completed loop with a bound-keeping step, started from curves within bounds, stores all 96 slots of every policy signal within its bound |
| App.RunPolicyCompletes | addons/energyhome_forecast/app/main.py:173-193 | a step that always saves completes the loop, and with a bound-keeping step the result is within bounds |
| App.CycleKeepsWithin | addons/energyhome_forecast/app/main.py:180-193 | the daily step saves, when it saves, a complete curve within `cmax` of a stored curve within `cmax` |
| App.CycleSaves | addons/energyhome_forecast/app/main.py:180-193 | with a finite baseline for the signal, the daily step saves its curve |
| App.PolicySignals | addons/energyhome_forecast/app/main.py:173-179 | the cycle updates `total_w`, `l1_w`, `l2_w`, `l3_w` and `inverter_w`, once each |
| App.PolicyUnfolded | addons/energyhome_forecast/app/main.py:173-179 | the policy's bounds, signal by signal: 4000 for `total_w` and `inverter_w`, 2000 for each load phase |
| App.CycleAlwaysSaves | addons/energyhome_forecast/app/main.py:173-193 | with all five baselines finite, the daily step saves every signal |
| App.PolicySaves | addons/energyhome_forecast/app/main.py:173-193 | a step that saves each of the five signals within its bound saves every signal of the policy |
| App.CycleBounded | addons/energyhome_forecast/app/main.py:173-193 | after a completed cycle, every ILC signal has all 96 slots within 4000 (total and inverter) or 2000 (each phase), given stored curves within those bounds |
| App.CycleKeepsGrid | addons/energyhome_forecast/app/main.py:173-179 | the cycle never touches the curves of the three grid signals |
| App.CycleCompletes | addons/energyhome_forecast/app/main.py:173-193 | with the stored curves within bounds and all five baselines finite, no save fails |
| App.NaNBaselineFailsSave | addons/energyhome_forecast/app/main.py:180-193 | a NaN in yesterday's smoothed baseline, at a slot that gets one of yesterday's readings, makes that signal's save fail |
| App.RunTwice | addons/energyhome_forecast/app/main.py:157-195 | on the same day, a completed cycle skips the second call; a skipped one skips again and changes no curve; after any other outcome the second call runs again |
| Models.SkipSpace | addons/energyhome_forecast/app/models.py:36 | the first non-whitespace index from `i` on, everything skipped being whitespace |
| Models.SkipSpaceBack | addons/energyhome_forecast/app/models.py:36 | going down from `j`, the end of the last non-whitespace character, everything skipped being whitespace |
| Models.StripStart | addons/energyhome_forecast/app/models.py:36 | where the stripped text starts: within the string |
| Models.StripEnd | addons/energyhome_forecast/app/models.py:36 | where the stripped text ends: not before it starts |
| Models.Strip | addons/energyhome_forecast/app/models.py:36 | `str.strip()` leaves no whitespace at either end and never grows |
| Models.LowerNoCapitals | addons/energyhome_forecast/app/models.py:41 | `s.lower()` leaves no ASCII capital |
| Models.LowerIdempotent | addons/energyhome_forecast/app/models.py:41 | lowering twice is lowering once |
| Models.TokenCaseless | addons/energyhome_forecast/app/models.py:41 | the disabling test is case-insensitive: a string and its lowered form are disabling alike |
| Models.NormalizeEntityId | addons/energyhome_forecast/app/models.py:32-43 | None maps to None; a result is non-empty, is not a disabling word and has no outer whitespace |
| Models.SkipSpaceOver | addons/energyhome_forecast/app/models.py:36 | leading whitespace before a non-space character is all that is skipped |
| Models.SkipSpaceBackOver | addons/energyhome_forecast/app/models.py:36 | trailing whitespace after a non-space character is all that is skipped |
| Models.StripUnique | addons/energyhome_forecast/app/models.py:36 | `strip` of whitespace, a text without outer whitespace, and whitespace is that text |
| Models.StripIdempotent | addons/energyhome_forecast/app/models.py:36 | stripping twice is stripping once |
| Models.BlankIsDisabled | addons/energyhome_forecast/app/models.py:41-42 | the empty string and whitespace-only strings map to None |
| Models.DisabledTokenNoSpace | addons/energyhome_forecast/app/models.py:41-42 | a disabling word is non-empty, has no outer whitespace and is not quoted |
| Models.DisabledTokenIsNone | addons/energyhome_forecast/app/models.py:41-42 | "none", "null" and "disabled" in any case, with any outer whitespace, map to None |
| Models.PlainIdKept | addons/energyhome_forecast/app/models.py:41-43 | an unquoted id that is not a disabling word comes back as itself, without its outer whitespace |
| Models.Between | addons/energyhome_forecast/app/models.py:39 | `s[1:-1]` of a quoted text is that text |
| Models.UnquoteQuoted | addons/energyhome_forecast/app/models.py:38-39 | a quoted text loses its quotes and the whitespace inside them |
| Models.QuotedIdUnquoted | addons/energyhome_forecast/app/models.py:38-43 | an id inside one pair of matching quotes comes back without the quotes and the whitespace on both sides of each quote |
| Models.OnePairOnly | addons/energyhome_forecast/app/models.py:38-39 | only one pair is removed: an id inside two pairs of quotes keeps the inner pair |
| Models.NotALetterNotAToken | addons/energyhome_forecast/app/models.py:41 | a string that does not start with a letter is not a disabling word |
| Models.LoneQuoteKept | addons/energyhome_forecast/app/models.py:38-39 | a lone quote character is shorter than 2 and is kept as it is |
| Models.EmptyQuotesAreNone | addons/energyhome_forecast/app/models.py:38-42 | quotes around nothing but whitespace map to None |
| Models.UnquoteSplits | addons/energyhome_forecast/app/models.py:38-39 | removing the quotes returns a piece of its input |
| Models.CleanedIsPiece | addons/energyhome_forecast/app/models.py:36-39 | the stripped, unquoted text is the piece of the raw input that starts at `CleanStart` |
| Models.NormalizedIsSlice | addons/energyhome_forecast/app/models.py:41-43 | a result is the piece of the input at `CleanStart`: normalisation only removes characters from the ends |
| Models.PieceOfPiece | addons/energyhome_forecast/app/models.py:39 | a piece of a piece of a string is a piece of that string |

## Left out

- Storage: SQLite I/O (storage.py) is not part of this model. The store is the class `App.Store`. `fetch_binned_since` and `fetch_binned_between` become filters on its rows by date (`App.RowsFrom`, `App.RowsBefore`); their SQL string comparisons of ISO timestamps are modelled as comparisons of local dates. The rows are held in ascending timestamp order, as `ORDER BY ts_local_bin_start ASC` returns them (`App.Store.Valid`, kept by `MaybeUpdateIlc`). The model orders rows by their local stamps only; two rows with the same local stamp (the repeated hour at the end of daylight saving time) are ordered by their offset in the string order, which is not modelled.
- `fetch_ilc_curve` becomes `App.Existing`. `save_ilc_curve`'s rollback on a NaN becomes `App.Saved` returning None; the earlier signals of the same cycle stay saved.
- Time-zone handling and the clock: `datetime.now()` in `build_forecast` is the parameter `now`. `astimezone` in `_local_bin_start` is left to the caller: `App.LocalBinStart` works on the local fields. The local day boundaries of `maybe_update_ilc` are whole local dates.
- Timestamp rendering: `isoformat()` of datetimes in `build_forecast`'s result is not modelled (the model returns `Stamp`s). `date.isoformat()` of the marker is modelled (`Calendar.IsoDate`).
- Floating point: arithmetic is exact over `real`; only NaN is kept. IEEE rounding, infinities and pandas' object dtypes are not modelled.
- Forecast.Latest: a row's `ts_local` is compared as a local wall-clock stamp. With rows in two UTC offsets (across a daylight-saving change), `pd.to_datetime(..., utc=False)` (main.py:57) gives no datetime column: depending on the pandas version it refuses mixed offsets or returns an object column, whose `.dt.date` raises (forecast.py:19, main.py:172). The source then fails the forecast over a window holding such a change, and the ILC cycle on the change day and the day after; the model computes a result in both cases.
- Forecast.BuildForecast: the existence bound of the model is Python `datetime`'s (up to 9999-12-31). Stamps from history are pandas `Timestamp`s of a nanosecond column, whose range ends at 2262-04-11 23:47:16.854775807, so `latest_local + timedelta(minutes=15)` (forecast.py:42) raises past that edge where the model gives a timeline (for example one row at 2262-04-11 23:45 with a 48-hour horizon). `pd.Timestamp(ts)` (forecast.py:53) may likewise refuse a `now`-based instant beyond that range, depending on the pandas version. That range is not modelled.
- App.LocalBinStart: requires `bin_minutes > 0`, since Python raises ZeroDivisionError at 0. `bin_minutes` and `grid_voltage_v` are parameters; they are not fields of the configuration classes in models.py.
- `poll_once` apart from its grid-power block, `poll_loop`, `latest` apart from its grid block, `build_history`, `startup_event` and the FastAPI endpoints: asyncio, HTTP and I/O plumbing.
- App.LatestGridPhase: models one phase of `latest`; the three phases are the same code with different entity ids.
- App.AsIlcRows: stored `ts_local_bin_start` strings are modelled as already-parsed stamps, so every fetched row has a timestamp. A string pandas cannot parse makes `_dataframe_from_rows` raise (main.py:57) and ends the cycle with an exception, which the model does not represent. A string pandas accepts but `datetime.fromisoformat` rejects is skipped by the learning loop (`Ilc.UnparsedSkipped` covers that skip) while still counted in the baseline; the model does not produce such a row.
- Models.Lower: lowers ASCII letters only. No other character lowers to a letter of "none", "null" or "disabled", except the Kelvin sign, which lowers to `k`, and no disabling word contains `k`. So the disabling test is the one of `str.lower()`.
- Models.IsSpace: Python's `str.isspace` over the Unicode whitespace characters, listed by code point.
- `load_config` and `_optional_env` in models.py, hello_world's models.py, ui.py, ha_client.py and the CSV import tool: configuration, presentation and I/O.
- A learning-mode selector, a weekday baseline and the forecasting of `inverter_w` do not exist in the code and are not modelled.
