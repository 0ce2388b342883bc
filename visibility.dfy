/** Per-minute validation of predicted transits against the altitude curves. */
module Visibility {
  import opened JulianTime
  import opened Catalog

  /** Minutes from the window start to the transit start, truncated toward zero. */
  function StartMinute(t: Transit, job: JobRequest): int {
    Trunc((t.start - job.startJd) * MinutesPerDay)
  }

  /** Minutes from the window start to the transit end, capped at the window length
      (both truncated toward zero). */
  function EndMinute(t: Transit, job: JobRequest): int {
    var toEnd := Trunc((t.end - job.startJd) * MinutesPerDay);
    var window := Trunc(WindowMinutes(job.startJd, job.endJd));
    if toEnd < window then toEnd else window
  }

  /** First curve index scanned: the start minute, clamped at 0. */
  function ScanFrom(t: Transit, job: JobRequest): nat {
    var s := StartMinute(t, job);
    if s > 0 then s else 0
  }

  /** End (exclusive) of the scanned indices: the capped end minute, or the
      unclamped start minute plus the catalog duration truncated to whole
      minutes, whichever is smaller. It never exceeds the curve length N. */
  function ScanTo(t: Transit, duration: real, job: JobRequest): (hi: int)
    ensures hi <= MinuteCount(job.startJd, job.endJd)
  {
    var byDuration := StartMinute(t, job) + Trunc(duration);
    var e := EndMinute(t, job);
    if e < byDuration then e else byDuration
  }

  /** Curves sampled once a minute over the job's window, as the generator produces them. */
  predicate OnGrid(curve: seq<real>, job: JobRequest) {
    |curve| == MinuteCount(job.startJd, job.endJd)
  }

  /** Minute `i` disqualifies the transit: the target is below the minimum
      altitude or the sun is above the maximum sun altitude. */
  predicate ViolatesAt(i: nat, alt: seq<real>, sun: seq<real>, filters: Filters)
    requires i < |alt| && i < |sun|
  {
    alt[i] < filters.MinAltitude() || sun[i] > filters.SunMaxAltitude()
  }

  /** Some scanned minute disqualifies the transit. */
  predicate HasViolation(t: Transit, duration: real, job: JobRequest, alt: seq<real>, sun: seq<real>)
    requires OnGrid(alt, job) && OnGrid(sun, job)
  {
    exists i: nat | ScanFrom(t, job) <= i < ScanTo(t, duration, job) :: ViolatesAt(i, alt, sun, job.filters)
  }

  /** The transit after validation: its flag cleared when a scanned minute
      disqualifies it, and nothing else changed. */
  function Checked(t: Transit, duration: real, job: JobRequest, alt: seq<real>, sun: seq<real>): Transit
    requires OnGrid(alt, job) && OnGrid(sun, job)
  {
    t.(valid := t.valid && !HasViolation(t, duration, job, alt, sun))
  }

  /** All transits of one entry after validation, in their order. */
  function CheckAll(ts: seq<Transit>, duration: real, job: JobRequest, alt: seq<real>, sun: seq<real>): (r: seq<Transit>)
    requires OnGrid(alt, job) && OnGrid(sun, job)
    ensures |r| == |ts|
    ensures forall k | 0 <= k < |ts| :: r[k] == Checked(ts[k], duration, job, alt, sun)
  {
    if ts == [] then []
    else CheckAll(ts[..|ts| - 1], duration, job, alt, sun) + [Checked(ts[|ts| - 1], duration, job, alt, sun)]
  }

  predicate AnyValid(ts: seq<Transit>) {
    exists k | 0 <= k < |ts| :: ts[k].valid
  }

  /** The scan of one transit: walk the curve indices of the transit and stop
      at the first minute where the target is too low or the sun too high,
      clearing the transit's flag. */
  method ValidateTransit(t: Transit, duration: real, job: JobRequest, alt: seq<real>, sun: seq<real>)
    returns (r: Transit)
    requires OnGrid(alt, job) && OnGrid(sun, job)
    ensures r == Checked(t, duration, job, alt, sun)
  {
    r := t;
    var maxSunAlt := job.filters.SunMaxAltitude();
    var lo, hi := ScanFrom(t, job), ScanTo(t, duration, job);
    var i := lo;
    while i < hi
      invariant lo <= i && (i <= hi || i == lo)
      invariant forall k: nat | lo <= k < i :: !ViolatesAt(k, alt, sun, job.filters)
      invariant r == t
    {
      if alt[i] < job.filters.MinAltitude() {
        assert ViolatesAt(i, alt, sun, job.filters);
        r := r.(valid := false);
        break;
      }
      if sun[i] > maxSunAlt {
        assert ViolatesAt(i, alt, sun, job.filters);
        r := r.(valid := false);
        break;
      }
      i := i + 1;
    }
  }

  /** Validate every transit of one entry and report whether any stayed valid. */
  method ValidateTransits(ts: seq<Transit>, duration: real, job: JobRequest, alt: seq<real>, sun: seq<real>)
    returns (checked: seq<Transit>, hasValidTransits: bool)
    requires OnGrid(alt, job) && OnGrid(sun, job)
    ensures checked == CheckAll(ts, duration, job, alt, sun)
    ensures hasValidTransits <==> AnyValid(checked)
  {
    checked := [];
    hasValidTransits := false;
    for j := 0 to |ts|
      invariant checked == CheckAll(ts[..j], duration, job, alt, sun)
      invariant hasValidTransits <==> AnyValid(checked)
    {
      var transit := ValidateTransit(ts[j], duration, job, alt, sun);
      checked := checked + [transit];
      assert ts[..j + 1][..j] == ts[..j];
      if transit.valid {
        hasValidTransits := true;
      }
    }
    assert ts[..|ts|] == ts;
  }

  /** Validation only ever clears the flag: a transit valid afterwards was
      valid before, and its start and end are untouched. */
  lemma CheckedOnlyClears(t: Transit, duration: real, job: JobRequest, alt: seq<real>, sun: seq<real>)
    requires OnGrid(alt, job) && OnGrid(sun, job)
    ensures Checked(t, duration, job, alt, sun).valid ==> t.valid
    ensures Checked(t, duration, job, alt, sun).start == t.start
    ensures Checked(t, duration, job, alt, sun).end == t.end
  {
  }

  /** A transit whose scan range is empty keeps its flag: no minute is examined. */
  lemma EmptyScanKeepsFlag(t: Transit, duration: real, job: JobRequest, alt: seq<real>, sun: seq<real>)
    requires OnGrid(alt, job) && OnGrid(sun, job)
    requires ScanTo(t, duration, job) <= ScanFrom(t, job)
    ensures Checked(t, duration, job, alt, sun) == t
  {
  }

  /** Stricter thresholds (a higher minimum altitude, a lower maximum sun
      altitude) can only add disqualifying minutes. */
  lemma StricterThresholdsKeepViolations(t: Transit, duration: real, job: JobRequest, stricter: Filters,
                                         alt: seq<real>, sun: seq<real>)
    requires OnGrid(alt, job) && OnGrid(sun, job)
    requires job.filters.MinAltitude() <= stricter.MinAltitude()
    requires stricter.SunMaxAltitude() <= job.filters.SunMaxAltitude()
    requires HasViolation(t, duration, job, alt, sun)
    ensures HasViolation(t, duration, job.(filters := stricter), alt, sun)
  {
    var i: nat :| ScanFrom(t, job) <= i < ScanTo(t, duration, job) && ViolatesAt(i, alt, sun, job.filters);
    assert ViolatesAt(i, alt, sun, stricter);
  }
}
