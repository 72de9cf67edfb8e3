/**
 * The enrichment job of main.py: for each normalised address, skip it when
 * the Address table already holds it, otherwise look up its nearest station,
 * ask the routing service for a walking time to that station and a transit
 * time to work, and store one record only when every step succeeded.
 *
 * The geocoder, the station table and the routing service are bundled in
 * `Services`; each request the step issues is returned in order, so that
 * "no lookup is made" can be stated.
 */
module Pipeline {
  import opened Wrappers
  import opened Helper

  /** The fixed destination of the transit query (main.py:17). */
  const WorkLocation := "GOOGLE SINGAPORE"

  /** The two reference times of main.py:15-16, kept symbolic. */
  datatype Moment = NextSaturday11am | NextMonday9am

  datatype Mode = Walking | Transit

  datatype Destination = Coordinates(point: GeoPoint) | Place(name: string)

  datatype Timing = DepartAt(moment: Moment) | ArriveBy(moment: Moment)

  /** One distance_matrix call: origin address, destination, mode and reference time. */
  datatype RouteQuery = RouteQuery(origin: string, destination: Destination, mode: Mode, timing: Timing)

  /** An external request made while enriching an address. */
  datatype Request = GeocodeRequest(address: string) | RouteRequest(query: RouteQuery)

  /**
   * The external collaborators, each replaced by its answers: the geocoder's
   * `results` list for an address, the station table, and the duration in
   * seconds of a route query (None when the response lacks the duration field).
   */
  datatype Services = Services(
    geocoder: string -> seq<Candidate>,
    stations: StationTable,
    routes: RouteQuery -> Option<nat>)

  /** One row of the Address table. */
  datatype Record = Record(location: string, mrt: string, minWalkToMrt: int, minToWork: int)

  /** The requests an enrichment attempt made, and the record it produced if it succeeded. */
  datatype Attempt = Attempt(calls: seq<Request>, record: Option<Record>)

  /** Walking to the station's coordinates, leaving next Saturday at 11:00 (main.py:42). */
  function WalkQuery(address: string, station: GeoPoint): RouteQuery {
    RouteQuery(address, Coordinates(station), Walking, DepartAt(NextSaturday11am))
  }

  /** Transit to the work location, arriving next Monday at 09:00 (main.py:45). */
  function WorkQuery(address: string): RouteQuery {
    RouteQuery(address, Place(WorkLocation), Transit, ArriveBy(NextMonday9am))
  }

  /** Seconds to whole minutes by floor division, as Python's `// 60`. */
  function ToMinutes(seconds: int): (minutes: int)
    ensures minutes * 60 <= seconds < minutes * 60 + 60
    ensures seconds >= 0 ==> minutes >= 0
  {
    // For a positive divisor Dafny's Euclidean division is floor division.
    seconds / 60
  }

  /** Durations are truncated, not rounded. */
  lemma TruncatesNotRounds()
    ensures ToMinutes(125) == 2 && ToMinutes(179) == 2 && ToMinutes(59) == 0
  {
  }

  // ---------------------------------------------------------------------------
  // The per-address decision, as a function of the services' answers
  // ---------------------------------------------------------------------------

  /** What a full run of the per-address sequence asks for and produces. */
  function Enrich(address: string, env: Services): (a: Attempt)
    ensures 1 <= |a.calls| <= 3 && a.calls[0] == GeocodeRequest(address)
    ensures NearestMrt(env.geocoder(address), env.stations).0 == NIL ==>
      a == Attempt([GeocodeRequest(address)], None)
    ensures NearestMrt(env.geocoder(address), env.stations).0 != NIL ==>
      |a.calls| >= 2 && a.calls[1] == RouteRequest(WalkQuery(address, NearestMrt(env.geocoder(address), env.stations).1))
    ensures env.routes(WalkQuery(address, NearestMrt(env.geocoder(address), env.stations).1)).None? ==> |a.calls| <= 2
    ensures |a.calls| == 3 ==> a.calls[2] == RouteRequest(WorkQuery(address))
    ensures (NearestMrt(env.geocoder(address), env.stations).0 != NIL && env.routes(WalkQuery(address, NearestMrt(env.geocoder(address), env.stations).1)).Some?) ==> |a.calls| == 3
    ensures forall k :: 1 <= k < |a.calls| ==>
      a.calls[k] == RouteRequest(WalkQuery(address, NearestMrt(env.geocoder(address), env.stations).1)) ||
      a.calls[k] == RouteRequest(WorkQuery(address))
    ensures a.record.Some? <==>
      && NearestMrt(env.geocoder(address), env.stations).0 != NIL
      && env.routes(WalkQuery(address, NearestMrt(env.geocoder(address), env.stations).1)).Some?
      && env.routes(WorkQuery(address)).Some?
    ensures a.record.Some? ==>
      && a.record.value.location == address
      && a.record.value.mrt == NearestMrt(env.geocoder(address), env.stations).0
      && a.record.value.minWalkToMrt >= 0
      && a.record.value.minToWork >= 0
  {
    var (mrt, mrtGeo) := NearestMrt(env.geocoder(address), env.stations);
    if mrt == NIL then Attempt([GeocodeRequest(address)], None)
    else
      var walkQuery := WalkQuery(address, mrtGeo);
      match env.routes(walkQuery)
      case None => Attempt([GeocodeRequest(address), RouteRequest(walkQuery)], None)
      case Some(walkSeconds) =>
        var workQuery := WorkQuery(address);
        var calls := [GeocodeRequest(address), RouteRequest(walkQuery), RouteRequest(workQuery)];
        match env.routes(workQuery)
        case None => Attempt(calls, None)
        case Some(workSeconds) =>
          Attempt(calls, Some(Record(address, mrt, ToMinutes(walkSeconds), ToMinutes(workSeconds))))
  }

  /** A record holds the minutes of the services' own durations. */
  lemma EnrichedMinutes(address: string, env: Services)
    requires Enrich(address, env).record.Some?
    ensures
      var r := Enrich(address, env).record.value;
      var geo := NearestMrt(env.geocoder(address), env.stations).1;
      && r.minWalkToMrt * 60 <= env.routes(WalkQuery(address, geo)).value < r.minWalkToMrt * 60 + 60
      && r.minToWork * 60 <= env.routes(WorkQuery(address)).value < r.minToWork * 60 + 60
  {
  }

  /** A walking time without a transit time stores nothing. */
  lemma AllOrNothing(address: string, env: Services)
    requires env.routes(WorkQuery(address)).None?
    ensures Enrich(address, env).record.None?
  {
  }

  /** Every key names its own record: no two records share a location. */
  predicate KeyedByLocation(records: map<string, Record>) {
    forall k :: k in records ==> records[k].location == k
  }

  /** What every record this job writes satisfies. */
  predicate WellFormed(records: map<string, Record>) {
    && KeyedByLocation(records)
    && forall k :: k in records ==>
      records[k].mrt != NIL && records[k].minWalkToMrt >= 0 && records[k].minToWork >= 0
  }

  /** The table after processing one address. */
  function Step(records: map<string, Record>, address: string, env: Services): (r: map<string, Record>)
    ensures address in records ==> r == records
    ensures forall k :: k != address ==> (k in r <==> k in records)
    ensures forall k :: k in records ==> k in r && r[k] == records[k]
    ensures address !in records ==> (address in r <==> Enrich(address, env).record.Some?)
    ensures address !in records && address in r ==> r[address] == Enrich(address, env).record.value
  {
    if address in records then records
    else
      match Enrich(address, env).record
      case None => records
      case Some(rec) => records[address := rec]
  }

  lemma StepWellFormed(records: map<string, Record>, address: string, env: Services)
    requires WellFormed(records)
    ensures WellFormed(Step(records, address, env))
  {
  }

  /** Processing the same address twice is processing it once. */
  lemma StepIdempotent(records: map<string, Record>, address: string, env: Services)
    ensures Step(Step(records, address, env), address, env) == Step(records, address, env)
  {
  }

  // ---------------------------------------------------------------------------
  // The Address table
  // ---------------------------------------------------------------------------

  /** The Address table: `location` is its unique key. */
  class AddressTable {
    var records: map<string, Record>

    ghost predicate Valid()
      reads this
    {
      KeyedByLocation(records)
    }

    constructor ()
      ensures Valid() && records == map[]
    {
      records := map[];
    }

    /** Address.selectBy(location=...).count() != 0 */
    method Exists(location: string) returns (found: bool)
      ensures found <==> location in records
    {
      found := location in records;
    }

    /** Creating an Address row; a second row with the same location violates the unique constraint. */
    method Insert(r: Record) returns (ok: bool)
      requires Valid()
      modifies this
      ensures Valid()
      ensures ok <==> r.location !in old(records)
      ensures records == if ok then old(records)[r.location := r] else old(records)
    {
      ok := r.location !in records;
      if ok {
        records := records[r.location := r];
      }
    }
  }

  /** _populate_single_record: returns the external requests it made, in order. */
  method PopulateSingleRecord(table: AddressTable, address: string, env: Services) returns (calls: seq<Request>)
    requires table.Valid()
    modifies table
    ensures table.Valid()
    ensures table.records == Step(old(table.records), address, env)
    ensures address in old(table.records) ==> calls == []
    ensures address !in old(table.records) ==> calls == Enrich(address, env).calls
  {
    var present := table.Exists(address);
    if present {
      return [];
    }
    calls := [GeocodeRequest(address)];
    var mrt, mrtGeo := GetNearestMrt(env.geocoder(address), env.stations);
    if mrt == NIL {
      return;
    }
    var walkQuery := WalkQuery(address, mrtGeo);
    calls := calls + [RouteRequest(walkQuery)];
    var walk := env.routes(walkQuery);
    if walk.None? {
      return;
    }
    var minWalkToMrt := ToMinutes(walk.value);
    var workQuery := WorkQuery(address);
    calls := calls + [RouteRequest(workQuery)];
    var work := env.routes(workQuery);
    if work.None? {
      return;
    }
    var minToWork := ToMinutes(work.value);
    var ok := table.Insert(Record(address, mrt, minWalkToMrt, minToWork));
  }

  // ---------------------------------------------------------------------------
  // The whole job
  // ---------------------------------------------------------------------------

  /** The table after processing a list of addresses one at a time, in order. */
  function Run(records: map<string, Record>, addresses: seq<string>, env: Services): map<string, Record> {
    if addresses == [] then records
    else Step(Run(records, addresses[..|addresses| - 1], env), addresses[|addresses| - 1], env)
  }

  /** Records already stored are never altered or removed. */
  lemma {:induction false} RunKeepsExisting(records: map<string, Record>, addresses: seq<string>, env: Services)
    ensures forall k :: k in records ==> k in Run(records, addresses, env) && Run(records, addresses, env)[k] == records[k]
  {
    if addresses != [] {
      RunKeepsExisting(records, addresses[..|addresses| - 1], env);
    }
  }

  /** Every new record belongs to an address of the list. */
  lemma {:induction false} RunAddsOnlyListed(records: map<string, Record>, addresses: seq<string>, env: Services)
    ensures forall k :: k in Run(records, addresses, env) ==> k in records || k in addresses
  {
    if addresses != [] {
      var init := addresses[..|addresses| - 1];
      RunAddsOnlyListed(records, init, env);
      assert forall k :: k in init ==> k in addresses;
    }
  }

  /** A listed address not stored before is stored afterwards exactly when its enrichment succeeds, with that record. */
  lemma {:induction false} RunStoresEnriched(records: map<string, Record>, addresses: seq<string>, env: Services)
    ensures forall a :: a in addresses && a !in records ==>
      && (a in Run(records, addresses, env) <==> Enrich(a, env).record.Some?)
      && (a in Run(records, addresses, env) ==> Run(records, addresses, env)[a] == Enrich(a, env).record.value)
  {
    if addresses != [] {
      var init := addresses[..|addresses| - 1];
      var last := addresses[|addresses| - 1];
      RunStoresEnriched(records, init, env);
      forall a | a in addresses && a !in records
        ensures && (a in Run(records, addresses, env) <==> Enrich(a, env).record.Some?)
                && (a in Run(records, addresses, env) ==> Run(records, addresses, env)[a] == Enrich(a, env).record.value)
      {
        if a != last {
          assert a in init by {
            var i :| 0 <= i < |addresses| && addresses[i] == a;
            assert init[i] == a;
          }
        } else if a in Run(records, init, env) {
          assert a in init by {
            RunAddsOnlyListed(records, init, env);
          }
        }
      }
    }
  }

  /** Every record the job writes is well formed, and so stays the table. */
  lemma {:induction false} RunWellFormed(records: map<string, Record>, addresses: seq<string>, env: Services)
    requires WellFormed(records)
    ensures WellFormed(Run(records, addresses, env))
  {
    if addresses != [] {
      RunWellFormed(records, addresses[..|addresses| - 1], env);
      StepWellFormed(Run(records, addresses[..|addresses| - 1], env), addresses[|addresses| - 1], env);
    }
  }

  /** Each address of the list is stored, or its enrichment stores nothing. */
  ghost predicate Settled(records: map<string, Record>, addresses: seq<string>, env: Services) {
    forall a :: a in addresses ==> a in records || Enrich(a, env).record.None?
  }

  lemma {:induction false} RunSettledUnchanged(records: map<string, Record>, addresses: seq<string>, env: Services)
    requires Settled(records, addresses, env)
    ensures Run(records, addresses, env) == records
  {
    if addresses != [] {
      var init := addresses[..|addresses| - 1];
      assert forall a :: a in init ==> a in addresses;
      RunSettledUnchanged(records, init, env);
      assert addresses[|addresses| - 1] in addresses;
    }
  }

  /**
   * Re-running the job on the same list, while the services answer as before,
   * changes nothing. Whatever the services answer, a re-run still keeps every
   * stored record (RunKeepsExisting) and stores a new one only from enrichment
   * (RunStoresEnriched).
   */
  lemma RunIdempotent(records: map<string, Record>, addresses: seq<string>, env: Services)
    ensures Run(Run(records, addresses, env), addresses, env) == Run(records, addresses, env)
  {
    var done := Run(records, addresses, env);
    RunKeepsExisting(records, addresses, env);
    RunStoresEnriched(records, addresses, env);
    RunSettledUnchanged(done, addresses, env);
  }

  // ---------------------------------------------------------------------------
  // The address list: drop missing entries, upper-case, keep first occurrences
  // ---------------------------------------------------------------------------

  /** ASCII upper-casing of one character. */
  function UpperChar(c: char): char {
    if 'a' <= c <= 'z' then (c as int - 32) as char else c
  }

  predicate IsUpper(s: string) {
    forall i :: 0 <= i < |s| ==> !('a' <= s[i] <= 'z')
  }

  function Upper(s: string): (u: string)
    ensures |u| == |s| && IsUpper(u)
    ensures forall i :: 0 <= i < |s| && !('a' <= s[i] <= 'z') ==> u[i] == s[i]
    ensures forall i :: 0 <= i < |s| && 'a' <= s[i] <= 'z' ==> u[i] as int == s[i] as int - ('a' as int - 'A' as int)
  {
    seq(|s|, i requires 0 <= i < |s| => UpperChar(s[i]))
  }

  lemma UpperIdempotent(s: string)
    ensures Upper(Upper(s)) == Upper(s)
  {
  }

  /** `dropna().str.upper()`: the present entries, upper-cased, in order. */
  function UpperPresent(column: seq<Option<string>>): (r: seq<string>)
    ensures |r| <= |column|
    ensures forall x :: x in r <==> exists s :: Some(s) in column && x == Upper(s)
  {
    if column == [] then []
    else
      var rest := UpperPresent(column[1..]);
      assert forall o :: o in column <==> o == column[0] || o in column[1..];
      match column[0]
      case None => rest
      case Some(s) => [Upper(s)] + rest
  }

  /**
   * The present entries keep their order: a missing entry contributes nothing,
   * a present one its upper-casing, and concatenated columns give concatenated lists.
   */
  lemma {:induction false} UpperPresentAppend(xs: seq<Option<string>>, ys: seq<Option<string>>)
    ensures UpperPresent([None]) == []
    ensures forall s :: UpperPresent([Some(s)]) == [Upper(s)]
    ensures UpperPresent(xs + ys) == UpperPresent(xs) + UpperPresent(ys)
  {
    var none: seq<Option<string>> := [None];
    assert none[1..] == [];
    forall s ensures UpperPresent([Some(s)]) == [Upper(s)] {
      assert [Some(s)][1..] == [];
    }
    if xs != [] {
      assert (xs + ys)[1..] == xs[1..] + ys;
      UpperPresentAppend(xs[1..], ys);
    } else {
      assert xs + ys == ys;
    }
  }

  predicate Distinct(xs: seq<string>) {
    forall i, j :: 0 <= i < j < |xs| ==> xs[i] != xs[j]
  }

  /** The position of the first occurrence of x. */
  function FirstIndex(xs: seq<string>, x: string): (i: nat)
    requires x in xs
    ensures i < |xs| && xs[i] == x && x !in xs[..i]
  {
    if xs[0] == x then 0 else 1 + FirstIndex(xs[1..], x)
  }

  /** `unique()`: each element once, at the place of its first occurrence. */
  function Unique(xs: seq<string>): (u: seq<string>)
    ensures Distinct(u)
    ensures forall x :: x in u <==> x in xs
  {
    if xs == [] then []
    else
      var init := Unique(xs[..|xs| - 1]);
      var last := xs[|xs| - 1];
      assert forall x :: x in xs <==> x in xs[..|xs| - 1] || x == last;
      if last in init then init else init + [last]
  }

  lemma {:induction false} FirstIndexInPrefix(xs: seq<string>, ys: seq<string>, x: string)
    requires x in xs
    ensures FirstIndex(xs + ys, x) == FirstIndex(xs, x)
  {
    if xs[0] != x {
      assert (xs + ys)[1..] == xs[1..] + ys;
      FirstIndexInPrefix(xs[1..], ys, x);
    }
  }

  /** Unique keeps the order in which elements first occur. */
  lemma {:induction false} UniqueKeepsFirstOrder(xs: seq<string>)
    ensures forall i, j :: 0 <= i < j < |Unique(xs)| ==>
      FirstIndex(xs, Unique(xs)[i]) < FirstIndex(xs, Unique(xs)[j])
  {
    if xs != [] {
      var init := xs[..|xs| - 1];
      var last := xs[|xs| - 1];
      var u := Unique(init);
      UniqueKeepsFirstOrder(init);
      assert xs == init + [last];
      forall x | x in init
        ensures FirstIndex(xs, x) == FirstIndex(init, x) < |init|
      {
        FirstIndexInPrefix(init, [last], x);
      }
      if last !in init {
        assert FirstIndex(xs, last) == |init|;
      }
    }
  }

  /** The address list the job processes (main.py:61). */
  function NormalizeAddresses(column: seq<Option<string>>): (addresses: seq<string>)
    ensures Distinct(addresses)
    ensures forall a :: a in addresses ==> IsUpper(a)
    ensures forall a :: a in addresses <==> exists s :: Some(s) in column && a == Upper(s)
    ensures forall a :: a in addresses <==> a in UpperPresent(column)
    ensures forall i, j :: 0 <= i < j < |addresses| ==>
      FirstIndex(UpperPresent(column), addresses[i]) < FirstIndex(UpperPresent(column), addresses[j])
  {
    UniqueKeepsFirstOrder(UpperPresent(column));
    Unique(UpperPresent(column))
  }

  /** The pool's work (main.py:63-64), done one address at a time in list order. */
  method PopulateAll(table: AddressTable, addresses: seq<string>, env: Services)
    requires table.Valid()
    modifies table
    ensures table.Valid()
    ensures table.records == Run(old(table.records), addresses, env)
  {
    ghost var start := table.records;
    var i := 0;
    while i < |addresses|
      invariant 0 <= i <= |addresses|
      invariant table.Valid()
      invariant table.records == Run(start, addresses[..i], env)
    {
      assert addresses[..i + 1][..i] == addresses[..i];
      assert Run(start, addresses[..i + 1], env) == Step(Run(start, addresses[..i], env), addresses[i], env);
      var _ := PopulateSingleRecord(table, addresses[i], env);
      i := i + 1;
    }
    assert addresses[..|addresses|] == addresses;
  }

  /** populate_timings_db, given the listing column and the services. */
  method PopulateTimingsDb(table: AddressTable, column: seq<Option<string>>, env: Services)
    requires table.Valid()
    modifies table
    ensures table.Valid()
    ensures table.records == Run(old(table.records), NormalizeAddresses(column), env)
  {
    var addresses := NormalizeAddresses(column);
    PopulateAll(table, addresses, env);
  }
}
