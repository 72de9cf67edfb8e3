# find_house enrichment core, in Dafny

This project models the decision logic of a batch job that enriches
Singapore property listings with commute facts. For each address the job
finds the nearest MRT station, the walking time to that station, and the
transit time to a fixed work location (`GOOGLE SINGAPORE`). It then stores at
most one record per address in the `Address` table.

Every external service is replaced by its answer, passed in as a value:

- the OneMap geocoder: its `results` list, a `seq<Candidate>`;
- the station table: a non-empty `StationTable`;
- the Google distance-matrix service: a function from a `RouteQuery` to
  `Option<nat>` seconds (`None` when the response has no duration field);
- the HDB lease service: a function from a postal code to a parsed `LeaseDocument`.

Modules:

- `Helper` (helper.py) reduces a geocoder response to one point. It drops
  candidates whose postal is `NIL` and averages the rest. The result is the
  sentinel `(0, 0)` when no candidate is left. It finds the first station row
  at minimum distance from that point, picks the first non-`NIL` postal code,
  and reads the remaining lease, falling back to 0. `GetLatLon`, `ArgMin` and
  `GetPostal` are loops proved against the functions `Geocode`, `Nearest`
  and `FirstPostal`.
- `Pipeline` (main.py) holds the `Address` table as the class `AddressTable`.
  Its map from location to record is keyed by the unique `location` column.
  `PopulateSingleRecord` is the per-address step. It returns the external
  requests it made, in order, so that "no lookup is made" can be stated.
  `PopulateTimingsDb` normalises the address list, and `PopulateAll` runs the
  step over it in order. Both are proved against the functions `Enrich`, `Step` and `Run`.
  The lemmas about `Run` state the table's lifecycle: records are never
  altered or removed, new records come only from listed addresses, and a
  re-run while the services answer as before changes nothing. Whatever the
  services answer, a re-run still keeps every stored record
  (`RunKeepsExisting`) and stores a new one only as its enrichment gives it
  (`RunStoresEnriched`).

Call-name mismatch: main.py:38 calls `helper.getNearestMRT`, but helper.py
defines that function as `get_nearst_mrt` (helper.py:40). As written, every
address not yet stored would therefore fail with an attribute error before
any lookup. The model uses the evidently intended `get_nearst_mrt`
(`Helper.GetNearestMrt`).

## Model

| member | source | states |
|---|---|---|
| `Helper.RemainingMembers` | helper.py:30 | the kept candidates are exactly those of the response whose postal is not `NIL` |
| `Helper.GetLatLon` | helper.py:24-37 | the accumulating loop returns the mean of the kept candidates, or `(0, 0)` when none is kept |
| `Helper.NilCandidateIgnored` | helper.py:30 | inserting a `NIL`-postal candidate anywhere in a response changes neither the kept list nor the geocoded point |
| `Helper.AllNilGivesNotFound` | helper.py:36-37 | when every candidate's postal is `NIL` the result is exactly the sentinel `(0, 0)` |
| `Helper.MeanTimesCount` | helper.py:31-37 | for N >= 1 kept candidates, each coordinate of their mean (the result) times N is the sum of that coordinate over them |
| `Helper.MeanWithinRange` | helper.py:31-37 | each coordinate of the averaged point lies between the least and greatest values of the averaged candidates |
| `Helper.SingleCandidateExact` | helper.py:31-37 | a single kept candidate is returned with its own coordinates |
| `Helper.Nearest` | helper.py:46 | the chosen row is no farther than any row, and every earlier row is strictly farther (first minimum, as `np.argmin`) |
| `Helper.FirstNearestUnique` | helper.py:46 | at most one row satisfies the first-minimum property, so the choice is determined |
| `Helper.ArgMin` | helper.py:46 | the loop tracking the best index returns the first row at minimum distance |
| `Helper.NearestMrt` | helper.py:40-48 | the sentinel point gives `('NIL', (0, 0))` whatever the station table; otherwise the name and coordinates come from one first-nearest row |
| `Helper.GetNearestMrt` | helper.py:40-48 | geocodes, short-circuits on the sentinel, and otherwise returns the first-nearest row's name and coordinates |
| `Helper.OnStationMatchesAtZero` | helper.py:46-48 | a point on a station's coordinates is matched to a station at distance 0 |
| `Helper.FirstPostal` | helper.py:64-67 | `NIL` exactly when every candidate's postal is `NIL`; otherwise the postal of the first such candidate, all earlier ones being `NIL` |
| `Helper.GetPostal` | helper.py:57-67 | the scan with an early return gives the first non-`NIL` postal, else `NIL` |
| `Helper.FirstPostalIsFirstKept` | helper.py:64-67 | the postal reported is that of the first candidate the geocode filter keeps |
| `Helper.LeaseRemainingOrZero` | helper.py:82-87 | the `LeaseRemaining` value when both keys are present, and 0 when either is missing |
| `Helper.GetLeaseRemainingYears` | helper.py:74-87 | 0 and no lease request when the postal is `NIL`; otherwise exactly one lease request, for that postal, and the lease field of its document, or 0 |
| `Pipeline.ToMinutes` | main.py:44 | floor division by 60: minutes*60 <= seconds < minutes*60 + 60, and non-negative for non-negative seconds |
| `Pipeline.TruncatesNotRounds` | main.py:47 | 125 s and 179 s give 2 minutes and 59 s gives 0 |
| `Pipeline.Enrich` | main.py:38-52 | one to three requests, the geocode first; a `NIL` station makes only the geocode request and stores nothing; otherwise the second request is the walk to the station's coordinates, a missing walking duration ends the requests there, and a walking duration is always followed by the transit query to `WORK_LOCATION` as the third request; a record exists exactly when the station and both durations exist, for this address and this station, with non-negative minutes |
| `Pipeline.EnrichedMinutes` | main.py:44-47 | the stored minutes are the truncated walking and transit durations the service returned |
| `Pipeline.AllOrNothing` | main.py:41-50 | a missing transit duration stores nothing, even when the walking leg succeeded |
| `Pipeline.Step` | main.py:35-52 | an address already stored leaves the table unchanged; otherwise only that key may be added, exactly when enrichment succeeds; no other entry changes |
| `Pipeline.StepWellFormed` | main.py:52 | a step keeps every record keyed by its location, with a non-`NIL` station and non-negative minutes |
| `Pipeline.StepIdempotent` | main.py:36-37 | processing an address a second time changes nothing |
| `Pipeline.AddressTable.constructor` | main.py:26-31 | the table starts empty |
| `Pipeline.AddressTable.Exists` | main.py:36 | true exactly when a row with that location exists |
| `Pipeline.AddressTable.Insert` | main.py:27 | adds the row when its location is new; a duplicate location is refused and leaves the table unchanged |
| `Pipeline.PopulateSingleRecord` | main.py:35-52 | the new table is `Step` of the old one; a stored address makes no request; otherwise the requests are those of `Enrich` |
| `Pipeline.RunKeepsExisting` | main.py:36 | processing a list never alters or removes a stored record |
| `Pipeline.RunAddsOnlyListed` | main.py:61-64 | every record after the run was stored before or belongs to a listed address |
| `Pipeline.RunStoresEnriched` | main.py:63-64 | a listed address not stored before is stored afterwards exactly when its enrichment succeeds, with the enriched record |
| `Pipeline.RunWellFormed` | main.py:52 | one record per location, each with a non-`NIL` station and non-negative minutes, is kept over a whole run |
| `Pipeline.RunIdempotent` | main.py:36-37 | running the job again on the same list, while the services answer as before, leaves the table as the first run did |
| `Pipeline.Upper` | main.py:61 | same length, each lower-case ASCII letter replaced by its upper-case letter, other characters unchanged |
| `Pipeline.UpperIdempotent` | main.py:61 | upper-casing twice is upper-casing once |
| `Pipeline.UpperPresent` | main.py:61 | no longer than the column; its elements are exactly the upper-casings of the non-missing column entries |
| `Pipeline.UpperPresentAppend` | main.py:61 | a missing entry contributes nothing, a present one its upper-casing, and a concatenated column gives the concatenated lists, so the entries keep their column order |
| `Pipeline.Unique` | main.py:61 | no element twice, and the same elements as the input |
| `Pipeline.UniqueKeepsFirstOrder` | main.py:61 | the elements appear in the order of their first occurrence in the input |
| `Pipeline.NormalizeAddresses` | main.py:61 | distinct, upper-case addresses, exactly the upper-casings of the non-missing entries, in the order of their first occurrence among the upper-cased present entries |
| `Pipeline.PopulateAll` | main.py:63-64 | processing the addresses one at a time leaves the table equal to `Run` of the old table over the list |
| `Pipeline.PopulateTimingsDb` | main.py:55-64 | the final table is `Run` of the old table over the normalised list |

## Left out

- HTTP requests, `urllib.parse.quote_plus`, request headers and the `_current_ms` cache-buster (helper.py:16-17, helper.py:25-29, helper.py:59-63, helper.py:78-81): the responses are parameters.
- Failed requests: in the model every service always answers. In the source a geocoder or lease request that still fails after `Helper.MaxTries` attempts raises, and the distance-matrix calls (main.py:42-47) have no retry and raise the client library's own errors. Either exception leaves `_populate_single_record` uncaught (main.py:48 catches only `KeyError`), `p.imap` re-raises it in the driver (main.py:64), and the job ends.
- The `backoff` retry decorator with Fibonacci delays and random jitter (helper.py:20-23 and its repeats): a foreign library with timing and randomness. Only its limit is recorded, as `Helper.MaxTries`.
- The process pool, `tqdm` progress and `cpu_count` (main.py:3, main.py:14, main.py:63-64): the driver is a sequential loop in list order. Within one run no two workers handle the same location, because `unique()` (main.py:61) removes duplicates before the list reaches `p.imap`. A duplicate-key error needs two jobs running at once on the same `timings.sqlite`, which is not modelled. There the unique key still refuses a second row for one location, as `AddressTable.Insert` refusing a duplicate models, but the source does not catch the integrity error: `p.imap` re-raises it in the driver (main.py:64) and the job ends.
- SQLObject and SQLite setup (main.py:19-31): the table is a map from location to record. The duplicate-key exception is modelled as `Insert` returning false.
- CSV loading and the memoised station table (helper.py:49-50, main.py:60): the station table is a parameter and is non-empty by its type, because `np.argmin` raises on an empty table.
- `scipy.spatial.distance.cdist` (helper.py:46): replaced by a loop over squared Euclidean distances. The square root is monotone, so both have the same argmin.
- `xmltodict` parsing and the `float()` / `int()` conversions (helper.py:34-35, helper.py:83-84): coordinates arrive as reals and the lease field as an optional integer. A conversion error is not modelled.
- Helper.GetLeaseRemainingYears: returns 0 for an empty `<LeaseInformation/>` element or a text-only one, because `LeaseDocument` cannot represent them. xmltodict gives `None` or a string for such an element, so the lookup at helper.py:84 raises `TypeError` in the source. Neither `except KeyError` nor `backoff` handles that error, so the job ends.
- Floating point: coordinates are exact reals. The sentinel test compares exactly, as the source does, so a genuine mean of exactly `(0, 0)` is also treated as not found.
- The distance-matrix response path `rows[0].elements[0].duration.value` (main.py:44, main.py:47): only whether the duration is present is modelled. An empty `rows` or `elements` list raises an index error that the `except KeyError` does not catch; this is not modelled.
- The `region='SG'` and `units='metric'` arguments (main.py:42-46) are the same on every query and are not part of `RouteQuery`.
- The `arrow` timestamps `SAT_11AM` and `MON_9AM` (main.py:15-16) are the symbolic values `NextSaturday11am` and `NextMonday9am`.
- Upper-casing (main.py:61) is ASCII-only; Unicode case mapping, which can change a string's length, is not modelled.
- Reading the API key file (main.py:57-58).
