/** What one job computes, stated as functions of the catalog, the job and
    the altitude curves: prefilter, prediction, validation and ranking. */
module Pipeline {
  import opened Catalog
  import opened StaticFilter
  import opened TransitPredictor
  import opened Visibility
  import opened Ranking

  /** The coordinate transforms the engine calls but does not implement:
      per-minute altitude of a catalog entry, and of the sun, for an observer
      over a window. */
  datatype Sky = Sky(
    starAltitude: (Observer, real, real, Exoplanet) -> seq<real>,
    sunAltitude: (Observer, real, real) -> seq<real>)

  function StarCurve(sky: Sky, job: JobRequest, e: Exoplanet): seq<real> {
    sky.starAltitude(job.observer, job.startJd, job.endJd, e)
  }

  function SunCurve(sky: Sky, job: JobRequest): seq<real> {
    sky.sunAltitude(job.observer, job.startJd, job.endJd)
  }

  /** The transforms return one sample per minute of the window for every
      entry and for the sun. */
  ghost predicate Rectangular(sky: Sky, job: JobRequest) {
    OnGrid(SunCurve(sky, job), job) && forall e :: OnGrid(StarCurve(sky, job, e), job)
  }

  /** The altitude curves of the entries to plot, one per entry, in their order. */
  function GenerateAltitudeGraphs(toPlot: seq<Exoplanet>, job: JobRequest, sky: Sky): (graphs: seq<seq<real>>)
    requires Rectangular(sky, job)
    ensures |graphs| == |toPlot|
    ensures forall k | 0 <= k < |toPlot| :: OnGrid(graphs[k], job) && graphs[k] == StarCurve(sky, job, toPlot[k])
  {
    seq(|toPlot|, k requires 0 <= k < |toPlot| => StarCurve(sky, job, toPlot[k]))
  }

  /** How many entries of `db` pass the prefilter. */
  function PassCount(db: seq<Exoplanet>, job: JobRequest): (n: nat)
    ensures n <= |db|
  {
    if db == [] then 0
    else PassCount(db[..|db| - 1], job) + (if PassesFilters(db[|db| - 1], job.observer, job.filters) then 1 else 0)
  }

  /** Every entry the prefilter lets through has a positive period: the
      prediction divides by the period and steps forward by it, so a job can
      only complete when this holds. Entries the prefilter rejects are never
      divided by and may have any period. */
  predicate PrefilteredPeriodsPositive(db: seq<Exoplanet>, job: JobRequest) {
    forall k | 0 <= k < |db| :: PassesFilters(db[k], job.observer, job.filters) ==> db[k].period > 0.0
  }

  /** An entry reaches curve generation: it passes the prefilter and has a
      transit in the window. */
  predicate Survives(e: Exoplanet, job: JobRequest)
    requires PassesFilters(e, job.observer, job.filters) ==> e.period > 0.0
  {
    PassesFilters(e, job.observer, job.filters) && Predicted(e, job.startJd, job.endJd) != []
  }

  /** The entries that reach curve generation, in catalog order. */
  function Survivors(db: seq<Exoplanet>, job: JobRequest): (r: seq<Exoplanet>)
    requires PrefilteredPeriodsPositive(db, job)
    ensures PeriodsPositive(r)
    ensures |r| <= PassCount(db, job)
  {
    if db == [] then []
    else
      var e := db[|db| - 1];
      Survivors(db[..|db| - 1], job) + (if Survives(e, job) then [e] else [])
  }

  /** The transits of an entry after validation against its curve and the sun's. */
  function Validated(e: Exoplanet, job: JobRequest, sky: Sky): seq<Transit>
    requires e.period > 0.0 && Rectangular(sky, job)
  {
    CheckAll(Predicted(e, job.startJd, job.endJd), e.duration, job, StarCurve(sky, job, e), SunCurve(sky, job))
  }

  /** Extending the catalog prefix by one entry extends the survivors by that
      entry exactly when it passes the prefilter and has predicted transits, and
      the prefilter count by one exactly when it passes. */
  lemma SurvivorsStep(db: seq<Exoplanet>, i: nat, job: JobRequest, transits: seq<Transit>)
    requires PrefilteredPeriodsPositive(db, job) && i < |db|
    requires transits == if PassesFilters(db[i], job.observer, job.filters)
                         then Predicted(db[i], job.startJd, job.endJd) else []
    ensures PrefilteredPeriodsPositive(db[..i], job) && PrefilteredPeriodsPositive(db[..i + 1], job)
    ensures Survivors(db[..i + 1], job) == Survivors(db[..i], job) + (if transits != [] then [db[i]] else [])
    ensures PassCount(db[..i + 1], job)
            == PassCount(db[..i], job) + (if PassesFilters(db[i], job.observer, job.filters) then 1 else 0)
  {
    assert db[..i + 1][..i] == db[..i];
    assert db[..i + 1][i] == db[i];
    assert Survives(db[i], job) <==> transits != [];
  }

  /** The result entries for the entries to plot that keep at least one valid transit. */
  function Kept(toPlot: seq<Exoplanet>, job: JobRequest, sky: Sky): (r: seq<ResultEntry>)
    requires PeriodsPositive(toPlot) && Rectangular(sky, job)
    ensures |r| <= |toPlot|
  {
    if toPlot == [] then []
    else
      var e := toPlot[|toPlot| - 1];
      Kept(toPlot[..|toPlot| - 1], job, sky)
      + (if AnyValid(Validated(e, job, sky)) then [ResultEntry(e, Validated(e, job, sky), StarCurve(sky, job, e))] else [])
  }

  /** The result entries of a job before ranking. */
  function Selected(db: seq<Exoplanet>, job: JobRequest, sky: Sky): seq<ResultEntry>
    requires PrefilteredPeriodsPositive(db, job) && Rectangular(sky, job)
  {
    Kept(Survivors(db, job), job, sky)
  }

  datatype JobResult = JobResult(exoplanets: seq<ResultEntry>, sunAltGraph: seq<real>, startJd: real, endJd: real)

  /** The result a job delivers. */
  function ExpectedResult(db: seq<Exoplanet>, job: JobRequest, sky: Sky): JobResult
    requires PrefilteredPeriodsPositive(db, job) && Rectangular(sky, job)
  {
    JobResult(SortExoplanets(Selected(db, job, sky), job.filters.order), SunCurve(sky, job), job.startJd, job.endJd)
  }

  /** An entry the engine reports: it passes the prefilter and at least one of
      its predicted transits has no disqualifying minute. */
  predicate Observable(e: Exoplanet, job: JobRequest, sky: Sky)
    requires Rectangular(sky, job)
  {
    e.period > 0.0 && PassesFilters(e, job.observer, job.filters) && AnyValid(Validated(e, job, sky))
  }

  lemma {:induction false} SurvivorsMembership(db: seq<Exoplanet>, job: JobRequest, e: Exoplanet)
    requires PrefilteredPeriodsPositive(db, job)
    ensures e in Survivors(db, job) <==> e in db && e.period > 0.0 && Survives(e, job)
  {
    if db != [] {
      var init := db[..|db| - 1];
      SurvivorsMembership(init, job, e);
      assert db == init + [db[|db| - 1]];
    }
  }

  lemma {:induction false} KeptMembership(toPlot: seq<Exoplanet>, job: JobRequest, sky: Sky, r: ResultEntry)
    requires PeriodsPositive(toPlot) && Rectangular(sky, job)
    ensures r in Kept(toPlot, job, sky) <==>
              && r.details in toPlot
              && r.details.period > 0.0
              && AnyValid(Validated(r.details, job, sky))
              && r.transits == Validated(r.details, job, sky)
              && r.altGraph == StarCurve(sky, job, r.details)
  {
    if toPlot != [] {
      var init := toPlot[..|toPlot| - 1];
      KeptMembership(init, job, sky, r);
      assert toPlot == init + [toPlot[|toPlot| - 1]];
    }
  }

  /** The result entries before ranking are exactly the catalog entries the
      engine can report, each carrying all its predicted transits (valid or
      not) after validation and its own altitude curve. */
  lemma SelectedMembership(db: seq<Exoplanet>, job: JobRequest, sky: Sky, r: ResultEntry)
    requires PrefilteredPeriodsPositive(db, job) && Rectangular(sky, job)
    ensures r in Selected(db, job, sky) <==>
              && r.details in db
              && Observable(r.details, job, sky)
              && r.transits == Validated(r.details, job, sky)
              && r.altGraph == StarCurve(sky, job, r.details)
  {
    var e := r.details;
    KeptMembership(Survivors(db, job), job, sky, r);
    SurvivorsMembership(db, job, e);
    if e.period > 0.0 && AnyValid(Validated(e, job, sky)) {
      assert |Validated(e, job, sky)| == |Predicted(e, job.startJd, job.endJd)|;
    }
  }

  /** A catalog entry appears in the result if and only if it passes the
      prefilter and one of its predicted transits stays valid. */
  lemma EntryReported(db: seq<Exoplanet>, job: JobRequest, sky: Sky, e: Exoplanet)
    requires PrefilteredPeriodsPositive(db, job) && Rectangular(sky, job)
    ensures (exists r | r in Selected(db, job, sky) :: r.details == e) <==> e in db && Observable(e, job, sky)
  {
    if e in db && Observable(e, job, sky) {
      var r := ResultEntry(e, Validated(e, job, sky), StarCurve(sky, job, e));
      SelectedMembership(db, job, sky, r);
    }
    forall r | r in Selected(db, job, sky) && r.details == e
      ensures e in db && Observable(e, job, sky)
    {
      SelectedMembership(db, job, sky, r);
    }
  }

  /** A valid transit after validation is the transit of an epoch that
      overlaps the window and has no disqualifying scanned minute. */
  lemma ValidTransitHasEpoch(e: Exoplanet, job: JobRequest, sky: Sky)
    requires e.period > 0.0 && Rectangular(sky, job)
    requires AnyValid(Validated(e, job, sky))
    ensures exists n :: && Overlaps(TransitAt(e, n), job.startJd, job.endJd)
                        && !HasViolation(TransitAt(e, n), e.duration, job, StarCurve(sky, job, e), SunCurve(sky, job))
  {
    var ts := Predicted(e, job.startJd, job.endJd);
    PredictedProperties(e, job.startJd, job.endJd);
    var k :| 0 <= k < |ts| && Validated(e, job, sky)[k].valid;
    assert ts[k] in ts;
    var m :| ts[k] == TransitAt(e, m);
    assert !HasViolation(TransitAt(e, m), e.duration, job, StarCurve(sky, job, e), SunCurve(sky, job));
  }

  /** For a well-formed entry, the transit of an epoch that overlaps the window
      and has no disqualifying scanned minute stays valid after validation. */
  lemma EpochKeepsValidTransit(e: Exoplanet, job: JobRequest, sky: Sky, n: int)
    requires WellFormed(e) && Rectangular(sky, job)
    requires Overlaps(TransitAt(e, n), job.startJd, job.endJd)
    requires !HasViolation(TransitAt(e, n), e.duration, job, StarCurve(sky, job, e), SunCurve(sky, job))
    ensures AnyValid(Validated(e, job, sky))
  {
    var ts := Predicted(e, job.startJd, job.endJd);
    PredictedExactly(e, job.startJd, job.endJd, n);
    var k :| 0 <= k < |ts| && ts[k] == TransitAt(e, n);
    assert Validated(e, job, sky)[k].valid;
  }

  /** For a well-formed entry, being reported means passing the prefilter and
      having a transit of some epoch that overlaps the window and has no
      disqualifying minute in its scan. */
  lemma ObservableAtSomeEpoch(e: Exoplanet, job: JobRequest, sky: Sky)
    requires WellFormed(e) && Rectangular(sky, job)
    ensures Observable(e, job, sky) <==>
              && PassesFilters(e, job.observer, job.filters)
              && exists n :: && Overlaps(TransitAt(e, n), job.startJd, job.endJd)
                             && !HasViolation(TransitAt(e, n), e.duration, job, StarCurve(sky, job, e), SunCurve(sky, job))
  {
    if AnyValid(Validated(e, job, sky)) {
      ValidTransitHasEpoch(e, job, sky);
    }
    forall n | Overlaps(TransitAt(e, n), job.startJd, job.endJd)
                 && !HasViolation(TransitAt(e, n), e.duration, job, StarCurve(sky, job, e), SunCurve(sky, job))
      ensures AnyValid(Validated(e, job, sky))
    {
      EpochKeepsValidTransit(e, job, sky, n);
    }
  }

  lemma AppendPeriodsPositive(a: seq<Exoplanet>, b: seq<Exoplanet>)
    requires PeriodsPositive(a) && PeriodsPositive(b)
    ensures PeriodsPositive(a + b)
  {
    assert forall k | 0 <= k < |a + b| :: (a + b)[k] == if k < |a| then a[k] else b[k - |a|];
  }

  lemma AppendPrefilteredPeriodsPositive(a: seq<Exoplanet>, b: seq<Exoplanet>, job: JobRequest)
    requires PrefilteredPeriodsPositive(a, job) && PrefilteredPeriodsPositive(b, job)
    ensures PrefilteredPeriodsPositive(a + b, job)
  {
    assert forall k | 0 <= k < |a + b| :: (a + b)[k] == if k < |a| then a[k] else b[k - |a|];
  }

  /** Dropping the last entry of `a + b`, for a non-empty `b`, drops the last entry of `b`. */
  lemma DropLast(a: seq<Exoplanet>, b: seq<Exoplanet>)
    requires b != []
    ensures (a + b)[..|a + b| - 1] == a + b[..|b| - 1]
    ensures (a + b)[|a + b| - 1] == b[|b| - 1]
  {
  }

  lemma {:induction false} SurvivorsAppend(a: seq<Exoplanet>, b: seq<Exoplanet>, job: JobRequest)
    requires PrefilteredPeriodsPositive(a, job) && PrefilteredPeriodsPositive(b, job)
    ensures PrefilteredPeriodsPositive(a + b, job)
    ensures Survivors(a + b, job) == Survivors(a, job) + Survivors(b, job)
  {
    AppendPrefilteredPeriodsPositive(a, b, job);
    if b != [] {
      var init := b[..|b| - 1];
      DropLast(a, b);
      assert PrefilteredPeriodsPositive(init, job);
      SurvivorsAppend(a, init, job);
    } else {
      assert a + b == a;
    }
  }

  lemma {:induction false} KeptAppend(a: seq<Exoplanet>, b: seq<Exoplanet>, job: JobRequest, sky: Sky)
    requires PeriodsPositive(a) && PeriodsPositive(b) && Rectangular(sky, job)
    ensures PeriodsPositive(a + b)
    ensures Kept(a + b, job, sky) == Kept(a, job, sky) + Kept(b, job, sky)
  {
    AppendPeriodsPositive(a, b);
    if b != [] {
      var init := b[..|b| - 1];
      DropLast(a, b);
      assert PeriodsPositive(init);
      KeptAppend(a, init, job, sky);
    } else {
      assert a + b == a;
    }
  }

  /** The unranked result keeps catalog order: the result for a catalog made
      of two parts is the result for the first part followed by that for the second. */
  lemma SelectedAppend(a: seq<Exoplanet>, b: seq<Exoplanet>, job: JobRequest, sky: Sky)
    requires PrefilteredPeriodsPositive(a, job) && PrefilteredPeriodsPositive(b, job) && Rectangular(sky, job)
    ensures PrefilteredPeriodsPositive(a + b, job)
    ensures Selected(a + b, job, sky) == Selected(a, job, sky) + Selected(b, job, sky)
  {
    SurvivorsAppend(a, b, job);
    KeptAppend(Survivors(a, job), Survivors(b, job), job, sky);
  }

  /** With stricter altitude thresholds, an entry that stays observable was
      observable under the original ones. */
  lemma StricterThresholdsKeepObservable(e: Exoplanet, job: JobRequest, stricter: Filters, sky: Sky)
    requires Rectangular(sky, job)
    requires stricter.maxMag == job.filters.maxMag && stricter.decRange == job.filters.decRange
    requires job.filters.MinAltitude() <= stricter.MinAltitude()
    requires stricter.SunMaxAltitude() <= job.filters.SunMaxAltitude()
    requires Rectangular(sky, job.(filters := stricter))
    requires Observable(e, job.(filters := stricter), sky)
    ensures Observable(e, job, sky)
  {
    var job' := job.(filters := stricter);
    var alt, sun := StarCurve(sky, job, e), SunCurve(sky, job);
    assert StarCurve(sky, job', e) == alt && SunCurve(sky, job') == sun;
    var ts := Predicted(e, job.startJd, job.endJd);
    var k :| 0 <= k < |ts| && Validated(e, job', sky)[k].valid;
    if HasViolation(ts[k], e.duration, job, alt, sun) {
      StricterThresholdsKeepViolations(ts[k], e.duration, job, stricter, alt, sun);
    }
    assert Validated(e, job, sky)[k].valid;
  }

  /** A higher minimum target altitude or a lower maximum sun altitude, with
      the other filters unchanged, can only remove entries from the result. */
  lemma StricterThresholdsReportFewer(db: seq<Exoplanet>, job: JobRequest, stricter: Filters, sky: Sky, e: Exoplanet)
    requires PrefilteredPeriodsPositive(db, job) && Rectangular(sky, job)
    requires stricter.maxMag == job.filters.maxMag && stricter.decRange == job.filters.decRange
    requires job.filters.MinAltitude() <= stricter.MinAltitude()
    requires stricter.SunMaxAltitude() <= job.filters.SunMaxAltitude()
    ensures Rectangular(sky, job.(filters := stricter))
    ensures (exists r | r in Selected(db, job.(filters := stricter), sky) :: r.details == e) ==>
              (exists r | r in Selected(db, job, sky) :: r.details == e)
  {
    var job' := job.(filters := stricter);
    assert forall x :: StarCurve(sky, job', x) == StarCurve(sky, job, x);
    EntryReported(db, job', sky, e);
    EntryReported(db, job, sky, e);
    if e in db && Observable(e, job', sky) {
      StricterThresholdsKeepObservable(e, job, stricter, sky);
    }
  }
}
