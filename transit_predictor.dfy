/** Epoch/period arithmetic: which periodic transits of an entry overlap the
    window `[startJd, endJd)`. */
module TransitPredictor {
  import opened JulianTime
  import opened Catalog

  /** The transit duration as a fraction of a day. */
  function JdDuration(e: Exoplanet): real {
    e.duration / MinutesPerDay
  }

  /** The transit of epoch `n`: the one whose mid-time is `t0 + n * period`. */
  function TransitAt(e: Exoplanet, n: int): (t: Transit)
    ensures (t.start + t.end) / 2.0 == e.t0 + n as real * e.period
    ensures t.end - t.start == JdDuration(e)
    ensures t.valid
  {
    var start := n as real * e.period + e.t0 - JdDuration(e) / 2.0;
    Transit(start, start + JdDuration(e), true)
  }

  /** A transit overlaps the window when it starts before the window ends and
      ends after the window starts. */
  predicate Overlaps(t: Transit, startJd: real, endJd: real) {
    t.start < endJd && t.end > startJd
  }

  /** The epoch of the transit whose mid-time is at or just before `startJd`
      (mathematical floor, also for windows before `t0`). */
  function EpochBefore(e: Exoplanet, startJd: real): int
    requires e.period > 0.0
  {
    Floor((startJd - e.t0) / e.period)
  }

  lemma EpochBeforeBrackets(e: Exoplanet, startJd: real)
    requires e.period > 0.0
    ensures e.t0 + EpochBefore(e, startJd) as real * e.period <= startJd
    ensures startJd < e.t0 + (EpochBefore(e, startJd) + 1) as real * e.period
  {
    var x := (startJd - e.t0) / e.period;
    var n := EpochBefore(e, startJd);
    assert x * e.period == startJd - e.t0;
    ScaleWeak(n as real, x, e.period);
    ScaleStrict(x, (n + 1) as real, e.period);
  }

  /** Multiplying by a positive period keeps an order. */
  lemma ScaleWeak(a: real, b: real, p: real)
    requires p > 0.0 && a <= b
    ensures a * p <= b * p
  {
    assert (b - a) * p >= 0.0;
    assert (b - a) * p == b * p - a * p;
  }

  /** Multiplying by a positive period keeps a strict order. */
  lemma ScaleStrict(a: real, b: real, p: real)
    requires p > 0.0 && a < b
    ensures a * p < b * p
  {
    assert (b - a) * p > 0.0;
    assert (b - a) * p == b * p - a * p;
  }

  /** Transits of later epochs start later. */
  lemma StartsIncrease(e: Exoplanet, i: int, j: int)
    requires e.period > 0.0 && i < j
    ensures TransitAt(e, i).start < TransitAt(e, j).start
  {
    ScaleStrict(i as real, j as real, e.period);
    assert TransitAt(e, i).start == i as real * e.period + e.t0 - JdDuration(e) / 2.0;
    assert TransitAt(e, j).start == j as real * e.period + e.t0 - JdDuration(e) / 2.0;
  }

  /** The next epoch's transit starts exactly one period later. */
  lemma NextStart(e: Exoplanet, n: int)
    ensures TransitAt(e, n + 1).start == TransitAt(e, n).start + e.period
  {
    assert (n + 1) as real * e.period == n as real * e.period + e.period;
  }

  /** How many more loop steps remain from epoch `n` before the start passes `endJd`. */
  function Steps(e: Exoplanet, n: int, endJd: real): nat
    requires e.period > 0.0
  {
    var start := TransitAt(e, n).start;
    if start < endJd then Floor((endJd - start) / e.period) + 1 else 0
  }

  lemma StepsDecrease(e: Exoplanet, n: int, endJd: real)
    requires e.period > 0.0 && TransitAt(e, n).start < endJd
    ensures Steps(e, n + 1, endJd) < Steps(e, n, endJd)
  {
    var s := TransitAt(e, n).start;
    var s' := TransitAt(e, n + 1).start;
    NextStart(e, n);
    DivideLessOnePeriod(endJd - s, e.period);
  }

  lemma DivideLessOnePeriod(a: real, p: real)
    requires p > 0.0
    ensures (a - p) / p == a / p - 1.0
  {
    assert p / p == 1.0;
    assert (a - p) / p == a / p - p / p;
  }

  /** The transits the prediction loop emits from epoch `n` on, oldest first. */
  function TransitsFrom(e: Exoplanet, n: int, startJd: real, endJd: real): seq<Transit>
    requires e.period > 0.0
    decreases Steps(e, n, endJd)
  {
    var t := TransitAt(e, n);
    if t.start < endJd then
      StepsDecrease(e, n, endJd);
      (if t.end > startJd then [t] else []) + TransitsFrom(e, n + 1, startJd, endJd)
    else
      []
  }

  /** The transits of an entry that the source predicts for the window. */
  function Predicted(e: Exoplanet, startJd: real, endJd: real): seq<Transit>
    requires e.period > 0.0
  {
    TransitsFrom(e, EpochBefore(e, startJd), startJd, endJd)
  }

  /** The prediction loop: from the transit at or before the window start, step
      forward one period at a time while the transit starts before the window
      ends, keeping each one that ends after the window starts. */
  method PredictTransits(e: Exoplanet, startJd: real, endJd: real) returns (transits: seq<Transit>)
    requires e.period > 0.0
    ensures transits == Predicted(e, startJd, endJd)
  {
    var x := startJd - e.t0;
    var jdDuration := e.duration / MinutesPerDay;
    var transitsSinceT0 := Floor(x / e.period);
    var lastTransitStart := transitsSinceT0 as real * e.period + e.t0 - jdDuration / 2.0;
    ghost var n := transitsSinceT0;

    transits := [];
    while lastTransitStart < endJd
      invariant lastTransitStart == TransitAt(e, n).start
      invariant transits + TransitsFrom(e, n, startJd, endJd) == Predicted(e, startJd, endJd)
      decreases Steps(e, n, endJd)
    {
      StepsDecrease(e, n, endJd);
      if lastTransitStart + jdDuration > startJd {
        transits := transits + [Transit(lastTransitStart, lastTransitStart + jdDuration, true)];
      }
      lastTransitStart := lastTransitStart + e.period;
      n := n + 1;
    }
  }

  /** Everything emitted from epoch `n` on overlaps the window and is the
      transit of some epoch at or after `n`. */
  lemma {:induction false} TransitsFromSound(e: Exoplanet, n: int, startJd: real, endJd: real)
    requires e.period > 0.0
    ensures forall t | t in TransitsFrom(e, n, startJd, endJd) ::
              Overlaps(t, startJd, endJd) && exists m :: n <= m && t == TransitAt(e, m)
    decreases Steps(e, n, endJd)
  {
    var t := TransitAt(e, n);
    if t.start < endJd {
      StepsDecrease(e, n, endJd);
      TransitsFromSound(e, n + 1, startJd, endJd);
    }
  }

  /** Every transit of an epoch at or after `n` that overlaps the window is emitted. */
  lemma {:induction false} TransitsFromComplete(e: Exoplanet, n: int, m: int, startJd: real, endJd: real)
    requires e.period > 0.0 && n <= m
    requires Overlaps(TransitAt(e, m), startJd, endJd)
    ensures TransitAt(e, m) in TransitsFrom(e, n, startJd, endJd)
    decreases m - n
  {
    if n < m {
      StartsIncrease(e, n, m);
      TransitsFromComplete(e, n + 1, m, startJd, endJd);
    }
  }

  /** Transits spaced `p` apart stay so when one more is put in front, `p` before the first. */
  lemma PrependPeriodic(t: Transit, rest: seq<Transit>, ts: seq<Transit>, p: real)
    requires ts == [t] + rest
    requires rest != [] ==> rest[0].start == t.start + p
    requires forall j | 0 <= j < |rest| :: rest[j].start == rest[0].start + j as real * p
    ensures forall i | 0 <= i < |ts| :: ts[i].start == ts[0].start + i as real * p
  {
    forall i | 0 < i < |ts|
      ensures ts[i].start == ts[0].start + i as real * p
    {
      assert ts[i] == rest[i - 1];
      assert (i - 1) as real * p + p == i as real * p;
    }
  }

  /** The emitted transits start one period after another: the i-th starts
      exactly i periods after the first. */
  lemma {:induction false} TransitsFromConsecutive(e: Exoplanet, n: int, startJd: real, endJd: real)
    requires e.period > 0.0
    ensures forall i | 0 <= i < |TransitsFrom(e, n, startJd, endJd)| ::
              TransitsFrom(e, n, startJd, endJd)[i].start
              == TransitsFrom(e, n, startJd, endJd)[0].start + i as real * e.period
    decreases Steps(e, n, endJd)
  {
    var t := TransitAt(e, n);
    var ts := TransitsFrom(e, n, startJd, endJd);
    if t.start < endJd {
      StepsDecrease(e, n, endJd);
      TransitsFromConsecutive(e, n + 1, startJd, endJd);
      var rest := TransitsFrom(e, n + 1, startJd, endJd);
      if t.end > startJd {
        assert ts == [t] + rest;
        if rest != [] {
          NextStart(e, n);
          StepsDecrease(e, n + 1, endJd);
          assert rest[0] == TransitAt(e, n + 1);
        }
        PrependPeriodic(t, rest, ts, e.period);
      } else {
        assert ts == rest;
      }
    }
  }

  /** The predicted transits all overlap the window, last exactly the entry's
      duration, start valid, and the i-th starts i periods after the first; every
      overlapping transit from the epoch at or before the window start on is among them. */
  lemma PredictedProperties(e: Exoplanet, startJd: real, endJd: real)
    requires e.period > 0.0
    ensures forall t | t in Predicted(e, startJd, endJd) ::
              Overlaps(t, startJd, endJd) && t.valid && t.end - t.start == JdDuration(e)
    ensures forall t | t in Predicted(e, startJd, endJd) :: exists m :: t == TransitAt(e, m)
    ensures forall i | 0 <= i < |Predicted(e, startJd, endJd)| ::
              Predicted(e, startJd, endJd)[i].start
              == Predicted(e, startJd, endJd)[0].start + i as real * e.period
    ensures forall m | EpochBefore(e, startJd) <= m && Overlaps(TransitAt(e, m), startJd, endJd) ::
              TransitAt(e, m) in Predicted(e, startJd, endJd)
  {
    var n := EpochBefore(e, startJd);
    TransitsFromSound(e, n, startJd, endJd);
    TransitsFromConsecutive(e, n, startJd, endJd);
    assert Predicted(e, startJd, endJd) == TransitsFrom(e, n, startJd, endJd);
    forall m | n <= m && Overlaps(TransitAt(e, m), startJd, endJd)
      ensures TransitAt(e, m) in Predicted(e, startJd, endJd)
    {
      TransitsFromComplete(e, n, m, startJd, endJd);
    }
  }

  /** For a well-formed entry no transit of an epoch before the starting one
      reaches into the window, so starting the loop there misses nothing. */
  lemma EarlierEpochsEndBeforeWindow(e: Exoplanet, startJd: real, m: int)
    requires WellFormed(e)
    requires m < EpochBefore(e, startJd)
    ensures TransitAt(e, m).end <= startJd
  {
    var n := EpochBefore(e, startJd);
    EpochBeforeBrackets(e, startJd);
    assert (n - 1 - m) as real * e.period >= 0.0;
    assert m as real * e.period <= (n - 1) as real * e.period;
    assert JdDuration(e) < e.period;
  }

  /** For a well-formed entry the prediction is exact: the transit of any epoch
      is predicted if and only if it overlaps the window. */
  lemma PredictedExactly(e: Exoplanet, startJd: real, endJd: real, m: int)
    requires WellFormed(e)
    ensures TransitAt(e, m) in Predicted(e, startJd, endJd) <==> Overlaps(TransitAt(e, m), startJd, endJd)
  {
    PredictedProperties(e, startJd, endJd);
    if m < EpochBefore(e, startJd) {
      EarlierEpochsEndBeforeWindow(e, startJd, m);
    }
  }

  /** A one-day period, a 60-minute transit and `t0` at JD 2460000.0. */
  function OneDayExample(): Exoplanet {
    Exoplanet("", "", Sexagesimal(0.0, 0.0, 0.0), Sexagesimal(0.0, 0.0, 0.0),
              0.0, 0.0, 60.0, 1.0, 2460000.0)
  }

  /** Worked example: over the window JD 2460001.5 to 2460002.5 exactly one
      transit is predicted, centred at JD 2460002.0; the one of epoch 1 ends
      at 2460001.0 + 1/48, before the window starts. */
  lemma OneDayExamplePredictsOne()
    ensures Predicted(OneDayExample(), 2460001.5, 2460002.5) == [TransitAt(OneDayExample(), 2)]
    ensures var t := TransitAt(OneDayExample(), 2); (t.start + t.end) / 2.0 == 2460002.0
  {
    var e := OneDayExample();
    assert EpochBefore(e, 2460001.5) == 1;
    assert TransitsFrom(e, 3, 2460001.5, 2460002.5) == [];
    assert TransitsFrom(e, 2, 2460001.5, 2460002.5) == [TransitAt(e, 2)];
    assert TransitsFrom(e, 1, 2460001.5, 2460002.5) == [TransitAt(e, 2)];
  }
}
