/**
 * The decision logic of helper.py: reducing a geocoder response to one point,
 * finding the station nearest to that point, picking a postal code, and
 * reading the remaining lease. Every HTTP call is replaced by its response,
 * passed in as a parameter.
 */
module Helper {
  import opened Wrappers

  /** The geocoder's marker for a candidate that has no postal code. */
  const NIL := "NIL"

  /** Attempts the retry policy allows around every network call (helper.py:22). */
  const MaxTries := 8

  datatype GeoPoint = GeoPoint(lat: real, lon: real)

  /** The reserved "not found" point; a real coordinate pair, not a null. */
  const NotFound := GeoPoint(0.0, 0.0)

  /** One entry of the geocoder's `results` list. */
  datatype Candidate = Candidate(postal: string, latitude: real, longitude: real)

  /** One row of the station table: its `location` column is the name. */
  datatype Station = Station(name: string, location: GeoPoint)

  /** The station table read once from mrt_stations.csv; never empty. */
  type StationTable = s: seq<Station> | |s| > 0 witness [Station("", GeoPoint(0.0, 0.0))]

  datatype Axis = Lat | Lon

  function Coord(c: Candidate, axis: Axis): real {
    match axis
    case Lat => c.latitude
    case Lon => c.longitude
  }

  function Pick(p: GeoPoint, axis: Axis): real {
    match axis
    case Lat => p.lat
    case Lon => p.lon
  }

  // ---------------------------------------------------------------------------
  // get_lat_lon
  // ---------------------------------------------------------------------------

  /** The candidates that have a postal code, in response order. */
  function Remaining(results: seq<Candidate>): (kept: seq<Candidate>)
    ensures |kept| <= |results|
  {
    if results == [] then []
    else (if results[0].postal != NIL then [results[0]] else []) + Remaining(results[1..])
  }

  /** The sum of one coordinate over a list of candidates. */
  function Sum(cs: seq<Candidate>, axis: Axis): real {
    if cs == [] then 0.0 else Sum(cs[..|cs| - 1], axis) + Coord(cs[|cs| - 1], axis)
  }

  /** The arithmetic mean of the candidates' coordinates, or the sentinel when there are none. */
  function Mean(cs: seq<Candidate>): GeoPoint {
    if |cs| == 0 then NotFound
    else GeoPoint(Sum(cs, Lat) / |cs| as real, Sum(cs, Lon) / |cs| as real)
  }

  /** What get_lat_lon makes of a geocoder response. */
  function Geocode(results: seq<Candidate>): GeoPoint {
    Mean(Remaining(results))
  }

  /** get_lat_lon, given the geocoder's `results` list. */
  method GetLatLon(results: seq<Candidate>) returns (p: GeoPoint)
    ensures p == Geocode(results)
  {
    var kept := Remaining(results);
    var lat, lon := 0.0, 0.0;
    for i := 0 to |kept|
      invariant lat == Sum(kept[..i], Lat)
      invariant lon == Sum(kept[..i], Lon)
    {
      assert kept[..i + 1][..i] == kept[..i];
      assert Sum(kept[..i + 1], Lat) == lat + kept[i].latitude;
      assert Sum(kept[..i + 1], Lon) == lon + kept[i].longitude;
      lat := lat + kept[i].latitude;
      lon := lon + kept[i].longitude;
    }
    assert kept[..|kept|] == kept;
    assert lat == Sum(kept, Lat) && lon == Sum(kept, Lon);
    var c := |kept|;
    p := if c != 0 then GeoPoint(lat / c as real, lon / c as real) else NotFound;
  }

  /** The kept candidates are exactly the response's candidates whose postal is not NIL. */
  lemma {:induction false} RemainingMembers(results: seq<Candidate>)
    ensures forall c :: c in Remaining(results) <==> c in results && c.postal != NIL
  {
    if results != [] {
      RemainingMembers(results[1..]);
      assert forall c :: c in results <==> c == results[0] || c in results[1..];
    }
  }

  lemma {:induction false} RemainingAppend(a: seq<Candidate>, b: seq<Candidate>)
    ensures Remaining(a + b) == Remaining(a) + Remaining(b)
  {
    if a == [] {
      assert a + b == b;
    } else {
      assert (a + b)[0] == a[0];
      assert (a + b)[1..] == a[1..] + b;
      RemainingAppend(a[1..], b);
      assert Remaining(a + b) == (if a[0].postal != NIL then [a[0]] else []) + Remaining(a[1..] + b);
    }
  }

  /** A candidate whose postal is NIL never contributes, wherever it stands in the response. */
  lemma NilCandidateIgnored(before: seq<Candidate>, c: Candidate, after: seq<Candidate>)
    requires c.postal == NIL
    ensures Remaining(before + [c] + after) == Remaining(before + after)
    ensures Geocode(before + [c] + after) == Geocode(before + after)
  {
    var kept := Remaining(before) + Remaining(after);
    calc {
      Remaining(before + [c] + after);
      { RemainingAppend(before + [c], after); }
      Remaining(before + [c]) + Remaining(after);
      { RemainingAppend(before, [c]); assert Remaining([c]) == []; }
      kept;
      { RemainingAppend(before, after); }
      Remaining(before + after);
    }
  }

  /** With no candidate left after the filter the result is exactly the sentinel. */
  lemma AllNilGivesNotFound(results: seq<Candidate>)
    requires forall c :: c in results ==> c.postal == NIL
    ensures Geocode(results) == NotFound
  {
    RemainingMembers(results);
  }

  lemma MeanIsQuotient(cs: seq<Candidate>, axis: Axis)
    requires cs != []
    ensures Pick(Mean(cs), axis) == Sum(cs, axis) / |cs| as real
  {
    match axis
    case Lat =>
    case Lon =>
  }

  /** With N >= 1 candidates, each coordinate of the mean times N is the sum of that coordinate. */
  lemma MeanTimesCount(cs: seq<Candidate>, axis: Axis)
    requires cs != []
    ensures Pick(Mean(cs), axis) * |cs| as real == Sum(cs, axis)
  {
    MeanIsQuotient(cs, axis);
    DivTimes(Pick(Mean(cs), axis), Sum(cs, axis), |cs| as real);
  }

  lemma DivTimes(m: real, s: real, n: real)
    requires n > 0.0 && m == s / n
    ensures m * n == s
  {
  }

  /** x added to itself n times. */
  function Times(x: real, n: nat): real {
    if n == 0 then 0.0 else Times(x, n - 1) + x
  }

  lemma {:induction false} TimesIsProduct(x: real, n: nat)
    ensures Times(x, n) == x * n as real
  {
    if n > 0 {
      TimesIsProduct(x, n - 1);
      assert x * n as real == x * (n - 1) as real + x;
    }
  }

  lemma {:induction false} SumWithin(cs: seq<Candidate>, axis: Axis, lo: real, hi: real)
    requires forall c :: c in cs ==> lo <= Coord(c, axis) <= hi
    ensures Times(lo, |cs|) <= Sum(cs, axis) <= Times(hi, |cs|)
  {
    if cs != [] {
      var init := cs[..|cs| - 1];
      assert forall c :: c in init ==> c in cs;
      assert cs[|cs| - 1] in cs;
      SumWithin(init, axis, lo, hi);
    }
  }

  /** Dividing bounds on a total by a positive divisor bounds the quotient. */
  lemma RealQuotientWithin(total: real, n: real, lo: real, hi: real)
    requires n > 0.0 && lo * n <= total <= hi * n
    ensures lo <= total / n <= hi
  {
    var q := total / n;
    assert q * n == total;
    assert (q - lo) * n == total - lo * n;
    assert (hi - q) * n == hi * n - total;
  }

  lemma QuotientWithin(total: real, k: nat, lo: real, hi: real)
    requires k > 0 && Times(lo, k) <= total <= Times(hi, k)
    ensures lo <= total / k as real <= hi
  {
    TimesIsProduct(lo, k);
    TimesIsProduct(hi, k);
    RealQuotientWithin(total, k as real, lo, hi);
  }

  /** The averaged point lies within the range spanned by the candidates it averages. */
  lemma MeanWithinRange(cs: seq<Candidate>, axis: Axis, lo: real, hi: real)
    requires cs != []
    requires forall c :: c in cs ==> lo <= Coord(c, axis) <= hi
    ensures lo <= Pick(Mean(cs), axis) <= hi
  {
    SumWithin(cs, axis, lo, hi);
    MeanIsQuotient(cs, axis);
    QuotientWithin(Sum(cs, axis), |cs|, lo, hi);
  }

  /** A single usable candidate is returned as it is, not averaged with anything. */
  lemma SingleCandidateExact(results: seq<Candidate>, c: Candidate)
    requires Remaining(results) == [c]
    ensures Geocode(results) == GeoPoint(c.latitude, c.longitude)
  {
    assert [c][..0] == [];
    assert Sum([c], Lat) == c.latitude;
    assert Sum([c], Lon) == c.longitude;
  }

  // ---------------------------------------------------------------------------
  // get_nearst_mrt
  // ---------------------------------------------------------------------------

  /** Squared Euclidean distance on raw degrees; its argmin is the argmin of the distance. */
  function SqDist(p: GeoPoint, q: GeoPoint): real {
    (p.lat - q.lat) * (p.lat - q.lat) + (p.lon - q.lon) * (p.lon - q.lon)
  }

  /** Row i is no farther from p than any row, and every earlier row is strictly farther. */
  ghost predicate IsFirstNearest(stations: seq<Station>, p: GeoPoint, i: int) {
    && 0 <= i < |stations|
    && (forall j :: 0 <= j < |stations| ==> SqDist(stations[i].location, p) <= SqDist(stations[j].location, p))
    && (forall j :: 0 <= j < i ==> SqDist(stations[i].location, p) < SqDist(stations[j].location, p))
  }

  /** The row np.argmin picks: the first row at minimum distance. */
  function Nearest(stations: StationTable, p: GeoPoint): (i: nat)
    ensures IsFirstNearest(stations, p, i)
  {
    if |stations| == 1 then 0
    else
      var k := Nearest(stations[..|stations| - 1], p);
      var last := |stations| - 1;
      if SqDist(stations[last].location, p) < SqDist(stations[k].location, p) then last else k
  }

  /** At most one row is the first nearest, so the row is determined by the table and the point. */
  lemma FirstNearestUnique(stations: seq<Station>, p: GeoPoint, i: int, j: int)
    requires IsFirstNearest(stations, p, i) && IsFirstNearest(stations, p, j)
    ensures i == j
  {
    assert SqDist(stations[i].location, p) <= SqDist(stations[j].location, p);
    assert SqDist(stations[j].location, p) <= SqDist(stations[i].location, p);
  }

  /** The argmin over the distances from p to every row. */
  method ArgMin(stations: StationTable, p: GeoPoint) returns (best: nat)
    ensures IsFirstNearest(stations, p, best)
  {
    best := 0;
    var i := 1;
    while i < |stations|
      invariant 1 <= i <= |stations|
      invariant IsFirstNearest(stations[..i], p, best)
    {
      if SqDist(stations[i].location, p) < SqDist(stations[best].location, p) {
        best := i;
      }
      i := i + 1;
    }
    assert stations[..|stations|] == stations;
  }

  /** What get_nearst_mrt returns: a station name and that station's coordinates. */
  function NearestMrt(results: seq<Candidate>, stations: StationTable): (r: (string, GeoPoint))
    ensures Geocode(results) == NotFound ==> r == (NIL, NotFound)
    ensures Geocode(results) != NotFound ==>
      exists i :: IsFirstNearest(stations, Geocode(results), i) && r == (stations[i].name, stations[i].location)
  {
    var geo := Geocode(results);
    if geo == NotFound then (NIL, geo)
    else
      var i := Nearest(stations, geo);
      (stations[i].name, stations[i].location)
  }

  /** get_nearst_mrt, given the geocoder's response for the address and the station table. */
  method GetNearestMrt(results: seq<Candidate>, stations: StationTable) returns (name: string, location: GeoPoint)
    ensures (name, location) == NearestMrt(results, stations)
  {
    var geo := GetLatLon(results);
    if geo == NotFound {
      return NIL, geo;
    }
    var i := ArgMin(stations, geo);
    FirstNearestUnique(stations, geo, i, Nearest(stations, geo));
    name, location := stations[i].name, stations[i].location;
  }

  /** A point that sits on a station's coordinates is matched to a station at distance 0. */
  lemma OnStationMatchesAtZero(results: seq<Candidate>, stations: StationTable, k: int)
    requires 0 <= k < |stations| && stations[k].location == Geocode(results)
    requires Geocode(results) != NotFound
    ensures SqDist(NearestMrt(results, stations).1, Geocode(results)) == 0.0
  {
    var geo := Geocode(results);
    var i := Nearest(stations, geo);
    assert NearestMrt(results, stations).1 == stations[i].location;
    assert SqDist(stations[i].location, geo) <= SqDist(stations[k].location, geo) == 0.0;
    SqDistNonNegative(stations[i].location, geo);
  }

  lemma SqDistNonNegative(p: GeoPoint, q: GeoPoint)
    ensures SqDist(p, q) >= 0.0
  {
    var a, b := p.lat - q.lat, p.lon - q.lon;
    assert a * a >= 0.0 && b * b >= 0.0;
  }

  // ---------------------------------------------------------------------------
  // get_postal and get_lease_remaining_years
  // ---------------------------------------------------------------------------

  /** The postal code get_postal reports for a response. */
  function FirstPostal(results: seq<Candidate>): (postal: string)
    ensures postal == NIL <==> forall k :: 0 <= k < |results| ==> results[k].postal == NIL
    ensures postal != NIL ==>
      exists i :: 0 <= i < |results| && results[i].postal == postal &&
        forall k :: 0 <= k < i ==> results[k].postal == NIL
  {
    if results == [] then NIL
    else if results[0].postal != NIL then results[0].postal
    else
      var rest := FirstPostal(results[1..]);
      assert forall k :: 0 < k < |results| ==> results[k] == results[1..][k - 1];
      rest
  }

  /** get_postal, given the geocoder's `results` list: a scan with an early return. */
  method GetPostal(results: seq<Candidate>) returns (postal: string)
    ensures postal == FirstPostal(results)
  {
    for i := 0 to |results|
      invariant FirstPostal(results) == FirstPostal(results[i..])
    {
      assert results[i..][1..] == results[i + 1..];
      if results[i].postal != NIL {
        return results[i].postal;
      }
    }
    return NIL;
  }

  /** The postal code reported is the one of the first candidate the geocode filter keeps. */
  lemma {:induction false} FirstPostalIsFirstKept(results: seq<Candidate>)
    ensures FirstPostal(results) == if Remaining(results) == [] then NIL else Remaining(results)[0].postal
  {
    if results != [] && results[0].postal == NIL {
      assert results == [results[0]] + results[1..];
      FirstPostalIsFirstKept(results[1..]);
    }
  }

  /** The parsed XML of the lease service: LeaseInformation / LeaseRemaining, each possibly absent. */
  datatype LeaseDocument = LeaseDocument(leaseInformation: Option<LeaseInformation>)
  datatype LeaseInformation = LeaseInformation(leaseRemaining: Option<int>)

  /** The remaining lease in a document, 0 when either key is missing. */
  function LeaseRemainingOrZero(doc: LeaseDocument): (years: int)
    ensures doc.leaseInformation.None? ==> years == 0
    ensures doc.leaseInformation.Some? && doc.leaseInformation.value.leaseRemaining.None? ==> years == 0
    ensures doc.leaseInformation.Some? && doc.leaseInformation.value.leaseRemaining.Some? ==>
      years == doc.leaseInformation.value.leaseRemaining.value
  {
    match doc.leaseInformation
    case None => 0
    case Some(info) => info.leaseRemaining.GetOr(0)
  }

  /**
   * get_lease_remaining_years, given the geocoder's response and the lease
   * service as a function from postal code to parsed document. `asked` lists
   * the postal codes the lease service was asked about, in order.
   */
  method GetLeaseRemainingYears(results: seq<Candidate>, leaseService: string -> LeaseDocument)
    returns (years: int, asked: seq<string>)
    ensures FirstPostal(results) == NIL ==> years == 0 && asked == []
    ensures FirstPostal(results) != NIL ==> asked == [FirstPostal(results)]
    ensures FirstPostal(results) != NIL ==> years == LeaseRemainingOrZero(leaseService(FirstPostal(results)))
  {
    var postal := GetPostal(results);
    if postal == NIL {
      return 0, [];
    }
    asked := [postal];
    var doc := leaseService(postal);
    years := LeaseRemainingOrZero(doc);
  }
}
