# ExoplanetTransitChecker backend, modelled in Dafny

This project models the backend worker of ExoplanetTransitChecker. Given a catalog of known
transiting exoplanets, an observer and a window of nights, the worker reports which transits
the observer can actually watch. One job runs in this order:

1. **Static prefilter.** Each catalog entry is checked for declination and magnitude
   (`StaticFilter`).
2. **Transit prediction.** For the entries that pass, every transit overlapping the window is
   predicted from the ephemeris `T0 + n * period` (`TransitPredictor`).
3. **Curve generation.** Per-minute altitude curves are generated for the remaining targets and
   for the sun. The curves come from an astronomy library, so here they are a parameter
   (`Pipeline.Sky`).
4. **Validation.** Each transit is checked minute by minute. Its flag is cleared at the first
   minute where the target is too low or the sun too high (`Visibility`).
5. **Ranking.** The kept entries are sorted by magnitude or by transit depth with a stable sort
   (`Ranking`).

The worker itself (`Backend.BackendThread`) is a class with these parts:
- a single-slot job mailbox (request / get / clear);
- the job's counters, a `map<string, int>` that is reset per job;
- the list of results handed to the frontend. The poll step delivers a result before it empties
  the slot.

Julian Dates are exact `real`s:
- `math.floor` and float `//` become `JulianTime.Floor`.
- `int()` on a float becomes `JulianTime.Trunc`, which rounds toward zero.
- Every altitude curve has `N = MinuteCount(start, end)` samples. `N` is the floor of the
  window's length in minutes, or 0 for an empty or reversed window.

The engine is written as methods with loops. Each method is proved equal to a pure
function:
- `PredictTransits` is proved equal to `Predicted`.
- `ValidateTransit` and `ValidateTransits` are proved equal to `Checked` and `CheckAll`.
- `ExecuteJobInternal` is proved equal to `ExpectedResult`.

Lemmas then state what those functions mean:
- which epochs are emitted;
- which entries are reported;
- that the order is kept;
- that the sort is stable;
- that stricter thresholds only remove entries.

Some consequences of the code that the model keeps:
- **Epoch arithmetic.** Take a one-day period, `T0 = 2460000.0`, a 60-minute transit and the
  window JD 2460001.5 to 2460002.5. The transit of epoch 1 ends at JD 2460001.0208, before the
  window opens. The one transit emitted is that of epoch 2, centred at JD 2460002.0
  (backend.py:152-164). `TransitPredictor.OneDayExamplePredictsOne` proves this.
- **Minute offsets.** `int()` truncates minute offsets toward zero (backend.py:183-187), and so
  do `Visibility.StartMinute` and `Visibility.EndMinute`.
- **Scan clamp.** Only the first scanned index is clamped at 0. The end of the scan uses the
  unclamped start minute plus the duration (backend.py:191). `Visibility.ScanFrom` and
  `Visibility.ScanTo` keep that difference.
- **Latitude test.** Without a declination range, the code tests `lat > 0` (backend.py:238). At
  latitude 0 both branches give the bounds -90 and 90.
- **Periods.** Only entries that pass the prefilter are divided by their period
  (backend.py:146-154). A job therefore needs a positive period only for those entries
  (`Pipeline.PrefilteredPeriodsPositive`). Rejected entries may have any period.

## Model

| member | source | states |
|---|---|---|
| JulianTime.Floor | backend.py:154 | the epoch index is the mathematical floor: `r <= x < r + 1`, also for negative `x` |
| JulianTime.Trunc | backend.py:183-187 | `int()` of a float rounds toward zero: for `x >= 0` it is the floor, for `x < 0` it is the ceiling |
| JulianTime.MinuteCount | backend.py:276-278 | every curve's length `N` is the whole number of minutes in the window (`N <= W < N + 1`), and 0 when the window is reversed |
| Catalog.Filters.MinAltitude | backend.py:192 | the minimum target altitude, 0 when the job gives none. `Visibility.ValidateTransit` states the scan against it |
| Catalog.Filters.SunMaxAltitude | backend.py:189 | the maximum sun altitude, 90 when the job gives none. `Visibility.ValidateTransit` states the scan against it |
| StaticFilter.PassesFilters | backend.py:228-252 | an entry is kept if and only if its declination degrees lie in the bounds and the magnitude cutoff, when given, admits it. With a declination range the bounds are that range. Without one they are `[lat - 90, 90]` for `lat > 0` and `[-90, 90 + lat]` otherwise |
| StaticFilter.IgnoresDeclinationFraction | backend.py:230 | only the degrees component of the declination takes part in the filter |
| StaticFilter.RaisingMagnitudeCutoffKeeps | backend.py:247-250 | raising the magnitude cutoff never removes an entry that passed |
| TransitPredictor.TransitAt | backend.py:153-155 | the transit of epoch `n` is centred at `T0 + n * period` and lasts `duration / 1440` days |
| TransitPredictor.EpochBefore | backend.py:154 | the floor of `(start - T0) / period`. `TransitPredictor.EpochBeforeBrackets` states that it is the last epoch whose mid-time is at or before the window start |
| TransitPredictor.EpochBeforeBrackets | backend.py:152-155 | the starting epoch is the last one whose mid-time is at or before the window start |
| TransitPredictor.StartsIncrease | backend.py:158-164 | successive epochs start strictly later, so the loop moves forward |
| TransitPredictor.StepsDecrease | backend.py:158-164 | each step toward the window end uses up one of the finitely many remaining steps, so the loop ends |
| TransitPredictor.PredictTransits | backend.py:152-164 | the loop's output equals `Predicted`: the transits from the epoch before the window start on, kept when they overlap the window |
| TransitPredictor.Predicted | backend.py:152-164 | the transits the loop emits, from the starting epoch on. `TransitPredictor.PredictedProperties` and `TransitPredictor.PredictedExactly` state which they are |
| TransitPredictor.TransitsFrom | backend.py:158-164 | the transits the loop emits from a given epoch on, one loop step per epoch. `TransitPredictor.TransitsFromSound`, `TransitPredictor.TransitsFromComplete` and `TransitPredictor.TransitsFromConsecutive` state which they are, and `TransitPredictor.PredictTransits` is proved against it |
| TransitPredictor.TransitsFromSound | backend.py:158-162 | every emitted transit overlaps the window and is the transit of some epoch at or after the loop's starting epoch |
| TransitPredictor.TransitsFromComplete | backend.py:158-162 | every transit of an epoch at or after the starting epoch that overlaps the window is emitted |
| TransitPredictor.TransitsFromConsecutive | backend.py:164 | emitted transits are consecutive epochs: the i-th starts `i * period` after the first |
| TransitPredictor.PredictedProperties | backend.py:152-164 | predicted transits overlap the window, are valid, last the catalog duration, belong to consecutive epochs, and include every overlapping transit from the starting epoch on |
| TransitPredictor.EarlierEpochsEndBeforeWindow | backend.py:152-155 | for an entry shorter than its period, transits of epochs before the starting epoch end before the window opens |
| TransitPredictor.PredictedExactly | backend.py:152-164 | for such an entry, a transit of any epoch is predicted if and only if it overlaps the window |
| TransitPredictor.OneDayExamplePredictsOne | backend.py:152-164 | a one-day period with `T0 = 2460000.0` and a 60-minute duration over JD 2460001.5 to 2460002.5 yields exactly the epoch-2 transit, centred at JD 2460002.0 |
| Visibility.StartMinute | backend.py:183 | minutes from the window start to the transit start, truncated toward zero. `Visibility.ScanTo` and `Visibility.ValidateTransit` state what the scan does with it |
| Visibility.EndMinute | backend.py:186-187 | minutes to the transit end, truncated and capped at the window's length in minutes. `Visibility.ScanTo` bounds the scan by `N` through it |
| Visibility.ScanFrom | backend.py:191 | the first scanned index, the start minute clamped at 0. `Visibility.EmptyScanKeepsFlag` and `Visibility.ValidateTransit` use it |
| Visibility.ViolatesAt | backend.py:192-198 | one minute disqualifies a transit: the target is below the minimum altitude or the sun is above the maximum sun altitude. `Visibility.ValidateTransit` breaks exactly at such a minute |
| Visibility.HasViolation | backend.py:191-198 | some scanned minute disqualifies the transit. `Visibility.ValidateTransit` clears the flag exactly when it holds, and `Visibility.StricterThresholdsKeepViolations` states that it persists under stricter thresholds |
| Visibility.Checked | backend.py:192-198 | the transit with its flag cleared exactly when a scanned minute disqualifies it. `Visibility.ValidateTransit` is proved equal to it, and `Visibility.CheckedOnlyClears` states that it only clears |
| Visibility.ScanTo | backend.py:183-191 | the scan never reaches past the end of a curve of `N` samples |
| Visibility.CheckAll | backend.py:182-199 | validation keeps the transits' number and order, and validates each transit on its own |
| Visibility.ValidateTransit | backend.py:183-198 | the scan clears the flag exactly when some scanned minute has the target below the minimum altitude (default 0) or the sun above the maximum sun altitude (default 90); otherwise the transit is unchanged |
| Visibility.ValidateTransits | backend.py:181-201 | the loop returns every transit validated, and the entry's flag is true if and only if some validated transit is still valid |
| Visibility.CheckedOnlyClears | backend.py:192-198 | validation only ever clears a flag and never moves a transit |
| Visibility.EmptyScanKeepsFlag | backend.py:191 | a transit whose scan range is empty keeps its flag |
| Visibility.StricterThresholdsKeepViolations | backend.py:189-198 | a higher minimum altitude or a lower maximum sun altitude keeps every disqualifying minute disqualifying |
| Ranking.Insert | backend.py:225 | inserting into a sorted sequence keeps it sorted and adds exactly the new element |
| Ranking.SortBy | backend.py:225 | the sort's output is ordered by the key and is a permutation of its input |
| Ranking.InsertStable | backend.py:225 | insertion keeps the order of the elements that share a key |
| Ranking.SortByStable | backend.py:225 | the sort is stable: elements with equal keys keep their input order |
| Ranking.MagnitudeKey | backend.py:218 | the magnitude ranking key, brightest first. `Ranking.SortExoplanets` states the ordering it yields |
| Ranking.TransitDepthKey | backend.py:220 | the depth ranking key `1 - depth`, deepest first. `Ranking.SortExoplanets` states the ordering it yields |
| Ranking.SortExoplanets | backend.py:214-226 | "Magnitude" yields a permutation with non-decreasing magnitude. "Transit depth" yields a permutation with non-increasing transit depth. Any other order returns the entries unchanged |
| Ranking.SortExoplanetsStable | backend.py:225 | entries tied on the chosen key keep their relative order |
| Pipeline.GenerateAltitudeGraphs | backend.py:254-295 | one curve of `N` samples per entry to plot, in the entries' order |
| Pipeline.PassCount | backend.py:145-150 | the number of entries that pass the prefilter. The contract only bounds it by the catalog's size; `Pipeline.SurvivorsStep` and `Backend.BackendThread.PredictCandidates` tie it to the counters |
| Pipeline.Survivors | backend.py:145-170 | the entries sent to curve generation have positive periods and number at most those that pass the prefilter |
| Pipeline.Survives | backend.py:146-167 | an entry reaches curve generation when it passes the prefilter and has a predicted transit. `Pipeline.SurvivorsMembership` states that the first pass keeps exactly these entries |
| Pipeline.SurvivorsStep | backend.py:145-170 | one more catalog entry extends the survivors by that entry exactly when it passes the prefilter and its predicted transits are not empty, and the prefilter count by one exactly when it passes |
| Pipeline.Validated | backend.py:181-199 | one entry's predicted transits after the validation loop. `Backend.BackendThread.ValidateCandidates` computes it through `Visibility.ValidateTransits`, and `Pipeline.ValidTransitHasEpoch` states what a valid one means |
| Pipeline.Kept | backend.py:174-205 | the kept result entries. The contract only bounds them by one per entry to plot; `Pipeline.KeptMembership` and `Pipeline.KeptAppend` state what they are |
| Pipeline.ExpectedResult | backend.py:207-212 | the job's result: the selected entries ranked by the chosen order, the sun's curve and the window. `Backend.BackendThread.ExecuteJobInternal` is proved to return it, and `Pipeline.SelectedMembership` and `Ranking.SortExoplanets` state its content |
| Pipeline.Selected | backend.py:145-205 | the unranked result list. `Pipeline.SelectedMembership`, `Pipeline.EntryReported`, `Pipeline.SelectedAppend` and `Pipeline.StricterThresholdsReportFewer` state its content, order and monotonicity |
| Pipeline.SurvivorsMembership | backend.py:145-170 | an entry reaches curve generation if and only if it is in the catalog, passes the prefilter and has a transit in the window |
| Pipeline.KeptMembership | backend.py:174-205 | a result entry is kept if and only if its entry was to be plotted and has a valid transit, and it carries all its validated transits and its own curve |
| Pipeline.SelectedMembership | backend.py:145-205 | before ranking, the result entries are exactly the catalog entries that pass the prefilter and keep a valid transit. Each one carries all its predicted transits after validation, valid or not, and its own curve |
| Pipeline.EntryReported | backend.py:145-205 | a catalog entry appears in the result if and only if it passes the prefilter and one of its predicted transits stays valid |
| Pipeline.ObservableAtSomeEpoch | backend.py:145-205 | for an entry shorter than its period, it is reported if and only if it passes the prefilter and some epoch's transit overlaps the window with no disqualifying scanned minute |
| Pipeline.ValidTransitHasEpoch | backend.py:174-205 | a transit still valid after validation belongs to an epoch that overlaps the window and has no disqualifying scanned minute |
| Pipeline.EpochKeepsValidTransit | backend.py:152-205 | for an entry shorter than its period, such an epoch leaves the entry with a valid transit |
| Pipeline.SurvivorsAppend | backend.py:145-170 | the first pass keeps catalog order: the survivors of a catalog made of two parts are those of the first part followed by those of the second |
| Pipeline.KeptAppend | backend.py:174-205 | the validation pass keeps the order of the entries to plot |
| Pipeline.SelectedAppend | backend.py:145-205 | the unranked result keeps catalog order across a split of the catalog |
| Pipeline.StricterThresholdsKeepObservable | backend.py:189-198 | an entry still observable under stricter altitude thresholds was observable under the original ones |
| Pipeline.StricterThresholdsReportFewer | backend.py:189-198 | a higher minimum altitude or a lower maximum sun altitude can only remove entries from the result |
| Backend.Count | backend.py:105-108 | a counter's value, 0 when it was never added to. `Backend.BackendThread.AddStat` states the update through it |
| Backend.OtherStatsUntouched | backend.py:104-108 | proof helper about maps: `AddStat`'s frame on one of the job's keys leaves every key outside the job's four unchanged |
| Backend.OnlyJobStats | backend.py:93-115 | proof helper about maps: counters that start from `JobStarted`'s empty map and change only on the job's keys hold only those keys |
| Backend.BackendThread.constructor | backend.py:16-26 | a new worker holds its catalog, an empty job slot, no counters and no deliveries |
| Backend.BackendThread.RequestJob | backend.py:77-83 | a job is accepted if and only if the slot was empty, and a busy slot keeps its job |
| Backend.BackendThread.GetRequestedJob | backend.py:85-87 | reports the slot's content |
| Backend.BackendThread.ClearRequestedJob | backend.py:89-91 | the slot is empty afterwards |
| Backend.BackendThread.JobStarted | backend.py:93-95 | the counters are reset to none |
| Backend.BackendThread.AddStat | backend.py:104-108 | the counter becomes its old value, 0 when absent, plus `value`, and every other counter is unchanged |
| Backend.BackendThread.AnalyzeEntry | backend.py:146-164 | a rejected entry counts one rejection and yields no transits. An entry that passes counts one analysis and yields its predicted transits. The other counters are unchanged |
| Backend.BackendThread.PredictCandidates | backend.py:145-170 | the first pass returns the survivors in catalog order, each with its predicted transits. It counts rejections and analyses, and the other counters are unchanged |
| Backend.BackendThread.ValidateCandidates | backend.py:174-205 | the second pass returns exactly the kept result entries. It counts one plot per entry to plot and one addition per kept entry |
| Backend.BackendThread.ExecuteJobInternal | backend.py:133-212 | the engine's result is the ranked selection together with the sun's curve and the window. The four counters grow by the rejected, analysed, plotted and added counts |
| Backend.BackendThread.ExecuteJob | backend.py:110-115 | the result is the job's expected result, and the counters hold only this job's four tallies: rejected, analysed, curves computed and entries added |
| Backend.BackendThread.OnBackendJobDone | backend.py:68 | the result is handed to the frontend while the slot is still in its current state |
| Backend.BackendThread.RunOnce | backend.py:65-69 | a waiting job is run and its expected result is delivered while the slot is still occupied, and only then is the slot emptied. The counters then hold exactly that job's four tallies. With no job, nothing changes |

## Left out

- Timezone handling is not modelled: the local-noon anchoring of the window dates and the
  observer timezone in the result (backend.py:117-131, 211-212) call external timezone
  databases. A job gives its window directly as Julian Dates, and the result carries no
  timezone.
- The coordinate transforms (star and sun altitude over the window) call an astronomy library.
  They are the two functions of `Pipeline.Sky`, assumed to return `N` samples each. The
  formatting of right ascension and declination as strings for that library is not modelled.
- Reading the catalog file (backend.py:31-57) is not modelled: the catalog is the constructor's
  parameter.
- The model assumes every entry that passes the prefilter has a positive period. For such an
  entry with period 0, the division at backend.py:154 raises an exception. The run loop
  (backend.py:65-69) does not catch it, so the worker thread dies with the job slot still
  occupied. With a negative period, the prediction loop never ends when the first transit
  starts before the window's end. When it starts at or after the window's end, the source
  finds no transits and goes on, but the model excludes that case as well. Neither failure is
  modelled. Entries the prefilter rejects are never divided by (backend.py:146-148) and may
  have any period.
- Threads, the job lock, the sleep between polls, the kill signal and the repeated polling
  (backend.py:59-75) are not modelled. `Backend.BackendThread.RunOnce` is one poll of the loop.
- `job_ended`, the timing and all `print` calls are output only, so they are left out.
- Floating-point rounding is not modelled. Julian Dates and minutes are exact reals, and the
  microsecond rounding of Julian Date to datetime conversions is ignored.
- The source validates transit dictionaries in place, and they are shared between the
  predicted lists and the result. The model validates by value (`Visibility.Checked`) and puts
  the validated transits in the result, which has the same visible effect. Aliasing itself is
  not modelled.
- The x-axis arrays of the curves are only an index range, so the model keeps only the
  altitude samples.
