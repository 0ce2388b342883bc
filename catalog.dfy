/** The entities the engine works on: catalog entries, the observer, the
    filters of a job, predicted transits and result entries. */
module Catalog {
  import opened Optional
  import opened JulianTime

  /** A sexagesimal triplet: hours (or degrees), minutes, seconds. */
  datatype Sexagesimal = Sexagesimal(whole: real, minutes: real, seconds: real)

  /** One catalog entry; `duration` is in minutes, `period` in days, `t0` a Julian Date. */
  datatype Exoplanet = Exoplanet(
    star: string,
    planet: string,
    ra: Sexagesimal,
    dec: Sexagesimal,
    mag: real,
    transitDv: real,
    duration: real,
    period: real,
    t0: real)

  /** The catalog invariant: a positive period, and no transit longer than its period. */
  predicate WellFormed(e: Exoplanet) {
    e.period > 0.0 && e.duration < e.period * MinutesPerDay
  }

  /** Every entry has a positive period. The engine needs this of the entries
      that reach prediction and validation (the survivors and the entries to
      plot); of the whole catalog it needs only `Pipeline.PrefilteredPeriodsPositive`. */
  predicate PeriodsPositive(db: seq<Exoplanet>) {
    forall k | 0 <= k < |db| :: db[k].period > 0.0
  }

  datatype Observer = Observer(lon: real, lat: real, height: real)

  /** The filters of a job; an absent key of the source's dictionary is `None`. */
  datatype Filters = Filters(
    maxMag: Option<real>,
    decRange: Option<(real, real)>,
    minAltitude: Option<real>,
    sunMaxAltitude: Option<real>,
    order: string)
  {
    /** Lowest acceptable target altitude, 0 degrees unless given. */
    function MinAltitude(): real { minAltitude.GetOr(0.0) }

    /** Highest acceptable sun altitude, 90 degrees unless given. */
    function SunMaxAltitude(): real { sunMaxAltitude.GetOr(90.0) }
  }

  /** A job, with its window already converted to Julian Dates (local noon to local noon, in UTC). */
  datatype JobRequest = JobRequest(startJd: real, endJd: real, observer: Observer, filters: Filters)

  /** One predicted transit, start and end as Julian Dates, with its visibility flag. */
  datatype Transit = Transit(start: real, end: real, valid: bool)

  /** One kept catalog entry with all its transits in the window and its altitude curve. */
  datatype ResultEntry = ResultEntry(details: Exoplanet, transits: seq<Transit>, altGraph: seq<real>)
}
