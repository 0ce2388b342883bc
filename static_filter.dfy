/** The cheap per-entry prefilter applied before any transit prediction. */
module StaticFilter {
  import opened Optional
  import opened Catalog

  /** Whether a catalog entry survives the declination and magnitude filters.
      Only the degrees component of the declination is compared. Without a
      declination range the bounds come from the observer's latitude: north of
      the equator an entry below `lat - 90` never rises, otherwise one above
      `90 + lat` never rises; the other bound stays at the pole. */
  function PassesFilters(e: Exoplanet, observer: Observer, filters: Filters): (keep: bool)
    ensures filters.decRange.Some? ==>
              (keep <==> filters.decRange.value.0 <= e.dec.whole <= filters.decRange.value.1
                         && MagnitudeAdmitted(e, filters))
    ensures filters.decRange.None? && observer.lat > 0.0 ==>
              (keep <==> observer.lat - 90.0 <= e.dec.whole <= 90.0 && MagnitudeAdmitted(e, filters))
    ensures filters.decRange.None? && observer.lat <= 0.0 ==>
              (keep <==> -90.0 <= e.dec.whole <= 90.0 + observer.lat && MagnitudeAdmitted(e, filters))
  {
    var dec := e.dec.whole;
    var (minDec, maxDec) :=
      match filters.decRange
      case Some(range) => range
      case None =>
        if observer.lat > 0.0 then (observer.lat - 90.0, 90.0) else (-90.0, 90.0 + observer.lat);
    if dec < minDec || dec > maxDec then false
    else if filters.maxMag.Some? && e.mag > filters.maxMag.value then false
    else true
  }

  /** The magnitude cutoff, when one is given, admits magnitudes up to and including it. */
  predicate MagnitudeAdmitted(e: Exoplanet, filters: Filters) {
    filters.maxMag.None? || e.mag <= filters.maxMag.value
  }

  /** The arcminutes and arcseconds of the declination play no part in the prefilter. */
  lemma IgnoresDeclinationFraction(e: Exoplanet, minutes: real, seconds: real, observer: Observer, filters: Filters)
    ensures PassesFilters(e.(dec := Sexagesimal(e.dec.whole, minutes, seconds)), observer, filters)
         == PassesFilters(e, observer, filters)
  {
  }

  /** Raising the magnitude cutoff never removes an entry that passed. */
  lemma RaisingMagnitudeCutoffKeeps(e: Exoplanet, observer: Observer, filters: Filters, cutoff: real)
    requires filters.maxMag.Some? && filters.maxMag.value <= cutoff
    requires PassesFilters(e, observer, filters)
    ensures PassesFilters(e, observer, filters.(maxMag := Some(cutoff)))
  {
  }
}
