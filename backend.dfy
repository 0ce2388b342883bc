/** The backend worker: the single job slot, the per-job counters and the job
    itself, run sequentially (the lock and the polling thread are not modelled). */
module Backend {
  import opened Optional
  import opened Catalog
  import opened StaticFilter
  import opened TransitPredictor
  import opened Visibility
  import opened Ranking
  import opened Pipeline

  const RejectedKey := "Exoplanets Reject by star"
  const AnalyzedKey := "Exoplanets Analized"
  const PlottedKey := "Exoplanet plots calculated"
  const AddedKey := "Exoplanet Added"
  const JobStatKeys := {RejectedKey, AnalyzedKey, PlottedKey, AddedKey}

  /** A counter's value, 0 while its key is absent. */
  function Count(stats: map<string, int>, key: string): int {
    if key in stats then stats[key] else 0
  }

  lemma StatKeysDistinct()
    ensures RejectedKey != AnalyzedKey && RejectedKey != PlottedKey && RejectedKey != AddedKey
    ensures AnalyzedKey != PlottedKey && AnalyzedKey != AddedKey && PlottedKey != AddedKey
  {
    assert |RejectedKey| == 25 && |AnalyzedKey| == 19 && |PlottedKey| == 26 && |AddedKey| == 15;
  }

  /** Updating one of the job's counters leaves every other counter as it was. */
  lemma OtherStatsUntouched(before: map<string, int>, after: map<string, int>, key: string)
    requires key in JobStatKeys
    requires after - {key} == before - {key}
    ensures after - JobStatKeys == before - JobStatKeys
  {
    forall k | k !in JobStatKeys
      ensures (k in after <==> k in before) && (k in after ==> after[k] == before[k])
    {
      assert k in after - {key} <==> k in after;
      assert k in before - {key} <==> k in before;
      if k in after {
        assert (after - {key})[k] == after[k];
        assert (before - {key})[k] == before[k];
      }
    }
  }

  lemma OnlyJobStats(stats: map<string, int>)
    requires stats - JobStatKeys == map[]
    ensures stats.Keys <= JobStatKeys
  {
    forall k | k in stats ensures k in JobStatKeys {
      assert k !in stats - JobStatKeys;
    }
  }

  /** The counters of one job and nothing else: entries rejected by the
      prefilter, entries analysed, curves computed and entries added to the result. */
  ghost predicate JobTallies(stats: map<string, int>, db: seq<Exoplanet>, request: JobRequest, sky: Sky)
    requires PrefilteredPeriodsPositive(db, request) && Rectangular(sky, request)
  {
    && stats.Keys <= JobStatKeys
    && Count(stats, RejectedKey) == |db| - PassCount(db, request)
    && Count(stats, AnalyzedKey) == PassCount(db, request)
    && Count(stats, PlottedKey) == |Survivors(db, request)|
    && Count(stats, AddedKey) == |Selected(db, request, sky)|
  }

  /** One result handed to the frontend, and whether the job slot was still
      occupied at that moment. */
  datatype Delivery = Delivery(result: JobResult, slotOccupied: bool)

  class BackendThread {
    var exoplanetDb: seq<Exoplanet>
    var job: Option<JobRequest>
    var stats: map<string, int>
    var deliveries: seq<Delivery>

    /** A worker over a loaded catalog, with an empty slot and no counters. */
    constructor (db: seq<Exoplanet>)
      ensures exoplanetDb == db && job == None && stats == map[] && deliveries == []
    {
      exoplanetDb := db;
      job := None;
      stats := map[];
      deliveries := [];
    }

    /** Accept a job only while the slot is empty; a busy slot is left as it is. */
    method RequestJob(request: JobRequest) returns (accepted: bool)
      modifies this`job
      ensures accepted <==> old(job).None?
      ensures job == if accepted then Some(request) else old(job)
    {
      if job.Some? {
        return false;
      }
      job := Some(request);
      return true;
    }

    method GetRequestedJob() returns (request: Option<JobRequest>)
      ensures request == job
    {
      request := job;
    }

    method ClearRequestedJob()
      modifies this`job
      ensures job == None
    {
      job := None;
    }

    /** Reset the counters at the start of a job. */
    method JobStarted()
      modifies this`stats
      ensures stats == map[]
    {
      stats := map[];
    }

    /** Add `value` to one counter, starting it at 0; the others are untouched. */
    method AddStat(key: string, value: int)
      modifies this`stats
      ensures key in stats && stats[key] == Count(old(stats), key) + value
      ensures forall k | k != key :: Count(stats, k) == Count(old(stats), k)
      ensures stats - {key} == old(stats) - {key}
    {
      if key !in stats {
        stats := stats[key := 0];
      }
      stats := stats[key := stats[key] + value];
    }

    /** The first half of the engine: prefilter each catalog entry and predict
        the transits of those that pass, keeping the entries with at least one. */
    method PredictCandidates(db: seq<Exoplanet>, request: JobRequest)
      returns (exoplanetsToPlot: seq<Exoplanet>, exoplanetTransits: seq<seq<Transit>>)
      requires PrefilteredPeriodsPositive(db, request)
      modifies this`stats
      ensures exoplanetsToPlot == Survivors(db, request)
      ensures |exoplanetTransits| == |exoplanetsToPlot|
      ensures forall k | 0 <= k < |exoplanetsToPlot| ::
                exoplanetTransits[k] == Predicted(exoplanetsToPlot[k], request.startJd, request.endJd)
      ensures Count(stats, RejectedKey) == Count(old(stats), RejectedKey) + |db| - PassCount(db, request)
      ensures Count(stats, AnalyzedKey) == Count(old(stats), AnalyzedKey) + PassCount(db, request)
      ensures Count(stats, PlottedKey) == Count(old(stats), PlottedKey)
      ensures Count(stats, AddedKey) == Count(old(stats), AddedKey)
      ensures stats - JobStatKeys == old(stats) - JobStatKeys
    {
      exoplanetsToPlot := [];
      exoplanetTransits := [];
      for i := 0 to |db|
        invariant PrefilteredPeriodsPositive(db[..i], request)
        invariant exoplanetsToPlot == Survivors(db[..i], request)
        invariant |exoplanetTransits| == |exoplanetsToPlot|
        invariant forall k | 0 <= k < |exoplanetsToPlot| ::
                    exoplanetTransits[k] == Predicted(exoplanetsToPlot[k], request.startJd, request.endJd)
        invariant Count(stats, RejectedKey) == Count(old(stats), RejectedKey) + i - PassCount(db[..i], request)
        invariant Count(stats, AnalyzedKey) == Count(old(stats), AnalyzedKey) + PassCount(db[..i], request)
        invariant Count(stats, PlottedKey) == Count(old(stats), PlottedKey)
        invariant Count(stats, AddedKey) == Count(old(stats), AddedKey)
        invariant stats - JobStatKeys == old(stats) - JobStatKeys
      {
        var exoplanet := db[i];
        var transits := AnalyzeEntry(exoplanet, request);
        SurvivorsStep(db, i, request, transits);
        if |transits| == 0 {
          continue;
        }
        exoplanetsToPlot := exoplanetsToPlot + [exoplanet];
        exoplanetTransits := exoplanetTransits + [transits];
      }
      assert db[..|db|] == db;
    }

    /** The first pass's work on one catalog entry: an entry the prefilter
        rejects is counted as rejected and yields no transits; one that passes
        is counted as analysed and yields its predicted transits. */
    method AnalyzeEntry(exoplanet: Exoplanet, request: JobRequest) returns (transits: seq<Transit>)
      requires PassesFilters(exoplanet, request.observer, request.filters) ==> exoplanet.period > 0.0
      modifies this`stats
      ensures transits == if PassesFilters(exoplanet, request.observer, request.filters)
                          then Predicted(exoplanet, request.startJd, request.endJd) else []
      ensures Count(stats, RejectedKey) == Count(old(stats), RejectedKey)
              + (if PassesFilters(exoplanet, request.observer, request.filters) then 0 else 1)
      ensures Count(stats, AnalyzedKey) == Count(old(stats), AnalyzedKey)
              + (if PassesFilters(exoplanet, request.observer, request.filters) then 1 else 0)
      ensures Count(stats, PlottedKey) == Count(old(stats), PlottedKey)
      ensures Count(stats, AddedKey) == Count(old(stats), AddedKey)
      ensures stats - JobStatKeys == old(stats) - JobStatKeys
    {
      StatKeysDistinct();
      if !PassesFilters(exoplanet, request.observer, request.filters) {
        AddStat(RejectedKey, 1);
        OtherStatsUntouched(old(stats), stats, RejectedKey);
        return [];
      }
      AddStat(AnalyzedKey, 1);
      OtherStatsUntouched(old(stats), stats, AnalyzedKey);
      transits := PredictTransits(exoplanet, request.startJd, request.endJd);
    }

    /** The second half of the engine: validate every transit of each entry to
        plot against its curve and the sun's, keeping the entries with a valid one. */
    method ValidateCandidates(exoplanetsToPlot: seq<Exoplanet>, exoplanetTransits: seq<seq<Transit>>,
                              plotGraphs: seq<seq<real>>, sunAltGraph: seq<real>, request: JobRequest, sky: Sky)
      returns (exoplanets: seq<ResultEntry>)
      requires PeriodsPositive(exoplanetsToPlot) && Rectangular(sky, request)
      requires |exoplanetTransits| == |exoplanetsToPlot| && |plotGraphs| == |exoplanetsToPlot|
      requires forall k | 0 <= k < |exoplanetsToPlot| ::
                 && exoplanetTransits[k] == Predicted(exoplanetsToPlot[k], request.startJd, request.endJd)
                 && plotGraphs[k] == StarCurve(sky, request, exoplanetsToPlot[k])
      requires sunAltGraph == SunCurve(sky, request)
      modifies this`stats
      ensures exoplanets == Kept(exoplanetsToPlot, request, sky)
      ensures Count(stats, RejectedKey) == Count(old(stats), RejectedKey)
      ensures Count(stats, AnalyzedKey) == Count(old(stats), AnalyzedKey)
      ensures Count(stats, PlottedKey) == Count(old(stats), PlottedKey) + |exoplanetsToPlot|
      ensures Count(stats, AddedKey) == Count(old(stats), AddedKey) + |exoplanets|
      ensures stats - JobStatKeys == old(stats) - JobStatKeys
    {
      StatKeysDistinct();
      exoplanets := [];
      for exId := 0 to |exoplanetsToPlot|
        invariant exoplanets == Kept(exoplanetsToPlot[..exId], request, sky)
        invariant Count(stats, RejectedKey) == Count(old(stats), RejectedKey)
        invariant Count(stats, AnalyzedKey) == Count(old(stats), AnalyzedKey)
        invariant Count(stats, PlottedKey) == Count(old(stats), PlottedKey) + exId
        invariant Count(stats, AddedKey) == Count(old(stats), AddedKey) + |exoplanets|
        invariant stats - JobStatKeys == old(stats) - JobStatKeys
      {
        var altGraph := plotGraphs[exId];
        var transits := exoplanetTransits[exId];
        var exoplanet := exoplanetsToPlot[exId];
        assert exoplanetsToPlot[..exId + 1][..exId] == exoplanetsToPlot[..exId];
        assert exoplanetsToPlot[..exId + 1][exId] == exoplanet;
        ghost var before := stats;
        AddStat(PlottedKey, 1);
        OtherStatsUntouched(before, stats, PlottedKey);

        var checked, hasValidTransits := ValidateTransits(transits, exoplanet.duration, request, altGraph, sunAltGraph);
        if hasValidTransits {
          before := stats;
          AddStat(AddedKey, 1);
          OtherStatsUntouched(before, stats, AddedKey);
          exoplanets := exoplanets + [ResultEntry(exoplanet, checked, altGraph)];
        }
      }
      assert exoplanetsToPlot[..|exoplanetsToPlot|] == exoplanetsToPlot;
    }

    /** The engine: prefilter and predict for each catalog entry, generate the
        curves of the survivors in one batch, validate every transit, rank. */
    method ExecuteJobInternal(request: JobRequest, sky: Sky) returns (result: JobResult)
      requires PrefilteredPeriodsPositive(exoplanetDb, request) && Rectangular(sky, request)
      modifies this`stats
      ensures result == ExpectedResult(exoplanetDb, request, sky)
      ensures Count(stats, RejectedKey)
              == Count(old(stats), RejectedKey) + |exoplanetDb| - PassCount(exoplanetDb, request)
      ensures Count(stats, AnalyzedKey) == Count(old(stats), AnalyzedKey) + PassCount(exoplanetDb, request)
      ensures Count(stats, PlottedKey) == Count(old(stats), PlottedKey) + |Survivors(exoplanetDb, request)|
      ensures Count(stats, AddedKey) == Count(old(stats), AddedKey) + |Selected(exoplanetDb, request, sky)|
      ensures stats - JobStatKeys == old(stats) - JobStatKeys
    {
      var sunAltGraph := SunCurve(sky, request);
      var exoplanetsToPlot, exoplanetTransits := PredictCandidates(exoplanetDb, request);
      var plotGraphs := GenerateAltitudeGraphs(exoplanetsToPlot, request, sky);
      var exoplanets := ValidateCandidates(exoplanetsToPlot, exoplanetTransits, plotGraphs, sunAltGraph, request, sky);
      exoplanets := SortExoplanets(exoplanets, request.filters.order);
      result := JobResult(exoplanets, sunAltGraph, request.startJd, request.endJd);
    }

    /** Run one job with fresh counters; afterwards the counters hold exactly
        this job's tallies. */
    method ExecuteJob(request: JobRequest, sky: Sky) returns (result: JobResult)
      requires PrefilteredPeriodsPositive(exoplanetDb, request) && Rectangular(sky, request)
      modifies this`stats
      ensures result == ExpectedResult(exoplanetDb, request, sky)
      ensures JobTallies(stats, exoplanetDb, request, sky)
    {
      JobStarted();
      result := ExecuteJobInternal(request, sky);
      assert stats - JobStatKeys == map[];
      OnlyJobStats(stats);
    }

    /** The frontend's callback: it receives the result while the slot is as it is now. */
    method OnBackendJobDone(result: JobResult)
      modifies this`deliveries
      ensures deliveries == old(deliveries) + [Delivery(result, job.Some?)]
    {
      deliveries := deliveries + [Delivery(result, job.Some?)];
    }

    /** One poll of the worker loop: if a job is waiting, run it, deliver its
        result and only then empty the slot. */
    method RunOnce(sky: Sky)
      requires job.Some? ==> PrefilteredPeriodsPositive(exoplanetDb, job.value) && Rectangular(sky, job.value)
      modifies this`stats, this`job, this`deliveries
      ensures job == None
      ensures old(job).None? ==> deliveries == old(deliveries) && stats == old(stats)
      ensures old(job).Some? ==>
                deliveries == old(deliveries) + [Delivery(ExpectedResult(exoplanetDb, old(job).value, sky), true)]
      ensures old(job).Some? ==> JobTallies(stats, exoplanetDb, old(job).value, sky)
    {
      var pending := GetRequestedJob();
      if pending.None? {
        return;
      }
      var result := ExecuteJob(pending.value, sky);
      OnBackendJobDone(result);
      ClearRequestedJob();
    }
  }
}
