/** The nearby search of the API (internal/nearby/search.go): filter, order, limit, and say why nothing was found. */
module NearbySearch {
  import opened Wrappers
  import opened Ordering
  import opened Facilities
  import opened NearbyInput
  import Text

  const DISTANCE_KIND := "straight_line"
  const MAX_PLACE_LABEL_LENGTH := 300
  const MAX_RESULTS := 5
  const NOTE_SCOPE := "周辺の登録情報です。"
  const NOTE_NO_GUARANTEE := "現在の営業・滑走可否を保証しません。"
  const NOTE_ADVICE := "訪問前に出典と利用ルールを確認してください。"
  const AVAILABILITY_NOTE := NOTE_SCOPE + NOTE_NO_GUARANTEE + NOTE_ADVICE

  datatype Status = Ok | NoMatches | DataUnavailable | LocationNotFound | LocationAmbiguous | OtherStatus

  datatype Match = Match(facility: Facility, distanceKm: real)

  /** candidates are the captions (labels) of the places to choose from. */
  datatype Response = Response(
    status: Status,
    matches: seq<Match>,
    candidates: seq<string>,
    distanceKind: string,
    limit: int,
    radiusKm: real,
    sort: string,
    availabilityNote: string)

  /** A geocoder result. */
  datatype Place = Place(caption: string, location: Location)

  datatype SearchError = Invalid | Unavailable

  type Distance = (Location, Location) -> real

  predicate ValidPlace(p: Place) {
    && Text.Presentable(p.caption, MAX_PLACE_LABEL_LENGTH)
    && -90.0 <= p.location.latitude <= 90.0 && -180.0 <= p.location.longitude <= 180.0
  }

  predicate GenreWanted(f: Facility, input: Input) {
    input.genre == "" || GenreText(f.genre) == input.genre
  }

  predicate Wanted(f: Facility, input: Input, now: int) {
    IsNearbySearchable(f, now) && GenreWanted(f, input)
  }

  /** Nearer first, then the smaller ID. */
  predicate MatchBefore(a: Match, b: Match) {
    if a.distanceKm != b.distanceKm then a.distanceKm < b.distanceKm else StringLess(a.facility.id, b.facility.id)
  }

  // ---------- what the search owes ----------

  ghost function InRadius(catalog: Catalog, center: Location, distance: Distance, input: Input): set<Facility> {
    set f | f in WithActivity(catalog, "skateboard") && distance(center, f.location) <= input.radiusKm
  }

  ghost function MatchSet(fs: set<Facility>, center: Location, distance: Distance, input: Input, now: int): set<Match> {
    set f | f in fs && Wanted(f, input, now) :: Match(f, distance(center, f.location))
  }

  ghost predicate OneMatchPerFacility(ms: set<Match>) {
    forall a, b | a in ms && b in ms && a.facility.id == b.facility.id :: a == b
  }

  lemma MatchOrder(ms: set<Match>)
    requires OneMatchPerFacility(ms)
    ensures StrictTotalOn(MatchBefore, ms)
  {
    StringOrder();
  }

  lemma MatchSetOrder(fs: set<Facility>, center: Location, distance: Distance, input: Input, now: int)
    requires KeyedById(fs)
    ensures StrictTotalOn(MatchBefore, MatchSet(fs, center, distance, input, now))
  {
    MatchOrder(MatchSet(fs, center, distance, input, now));
  }

  function Truncated<T>(s: seq<T>, limit: int): seq<T>
    requires limit >= 0
  {
    if |s| > limit then s[..limit] else s
  }

  /** Why nothing is listed: the radius knows no record, or one whose facts are not good enough, or only other genres. */
  ghost function EmptyStatus(fs: set<Facility>, now: int): Status {
    if fs == {} || exists f :: f in fs && !IsNearbySearchable(f, now) then DataUnavailable else NoMatches
  }

  function Envelope(input: Input, status: Status): Response {
    Response(status, [], [], DISTANCE_KIND, input.limit, input.radiusKm, input.sort, AVAILABILITY_NOTE)
  }

  ghost function Near(fs: set<Facility>, center: Location, distance: Distance, input: Input, now: int): Response
    requires KeyedById(fs) && ValidInput(input)
  {
    MatchSetOrder(fs, center, distance, input, now);
    var ms := MatchSet(fs, center, distance, input, now);
    if ms == {} then Envelope(input, EmptyStatus(fs, now))
    else Envelope(input, Ok).(matches := Truncated(Ranking(MatchBefore, ms), input.limit))
  }

  function Labels(places: seq<Place>): seq<string> {
    seq(|places|, i requires 0 <= i < |places| => places[i].caption)
  }

  /** places is None when the geocoder fails, times out or the request is cancelled. */
  ghost function Found(catalog: Catalog, places: Option<seq<Place>>, distance: Distance, input: Input, now: int)
    : Result<Response, SearchError>
    requires Keyed(catalog)
  {
    if !ValidInput(input) then Failure(Invalid)
    else if places.None? then Failure(Unavailable)
    else if places.value == [] then Success(Envelope(input, LocationNotFound))
    else if exists p :: p in places.value && !ValidPlace(p) then Failure(Unavailable)
    else if |places.value| > 1 then
      Success(Envelope(input, LocationAmbiguous).(candidates := Labels(Truncated(places.value, MAX_RESULTS))))
    else
      var center := places.value[0].location;
      Success(Near(InRadius(catalog, center, distance, input), center, distance, input, now))
  }

  // ---------- the search ----------

  method AllValid(places: seq<Place>) returns (ok: bool)
    ensures ok <==> forall p | p in places :: ValidPlace(p)
  {
    hide ValidPlace;
    for i := 0 to |places|
      invariant forall p | p in places[..i] :: ValidPlace(p)
    {
      assert places[..i + 1] == places[..i] + [places[i]];
      assert places[i] in places;
      if !ValidPlace(places[i]) { return false; }
    }
    assert places[..|places|] == places;
    return true;
  }

  method CandidateLabels(places: seq<Place>) returns (labels: seq<string>)
    ensures labels == Labels(places)
  {
    labels := [];
    for i := 0 to |places|
      invariant labels == Labels(places[..i])
    {
      labels := labels + [places[i].caption];
    }
    assert places[..|places|] == places;
  }

  ghost function NearAmong(fs: seq<Facility>, center: Location, distance: Distance, input: Input): set<Facility> {
    set f | f in fs && distance(center, f.location) <= input.radiusKm
  }

  /** The state of the scan over the facilities fs. */
  ghost predicate Scanned(fs: seq<Facility>, center: Location, distance: Distance, input: Input, now: int,
                          matches: seq<Match>, nearbyRecords: nat, insufficientEvidence: bool)
  {
    var near := NearAmong(fs, center, distance, input);
    && NoDuplicates(matches) && Elements(matches) == MatchSet(near, center, distance, input, now)
    && (nearbyRecords == 0 <==> near == {})
    && (insufficientEvidence <==> exists f :: f in near && !IsNearbySearchable(f, now))
  }

  lemma ScanOutside(fs: seq<Facility>, f: Facility, center: Location, distance: Distance, input: Input, now: int,
                    matches: seq<Match>, nearbyRecords: nat, insufficientEvidence: bool)
    requires Scanned(fs, center, distance, input, now, matches, nearbyRecords, insufficientEvidence)
    requires distance(center, f.location) > input.radiusKm
    ensures Scanned(fs + [f], center, distance, input, now, matches, nearbyRecords, insufficientEvidence)
  {
    hide IsNearbySearchable, GenreWanted;
    assert NearAmong(fs + [f], center, distance, input) == NearAmong(fs, center, distance, input);
  }

  lemma ScanInside(fs: seq<Facility>, f: Facility, center: Location, distance: Distance, input: Input, now: int,
                   matches: seq<Match>, nearbyRecords: nat, insufficientEvidence: bool)
    requires Scanned(fs, center, distance, input, now, matches, nearbyRecords, insufficientEvidence) && f !in fs
    requires distance(center, f.location) <= input.radiusKm
    ensures Scanned(fs + [f], center, distance, input, now,
                    if Wanted(f, input, now) then matches + [Match(f, distance(center, f.location))] else matches,
                    nearbyRecords + 1, insufficientEvidence || !IsNearbySearchable(f, now))
  {
    hide IsNearbySearchable, GenreWanted;
    var near := NearAmong(fs, center, distance, input);
    var m := Match(f, distance(center, f.location));
    assert NearAmong(fs + [f], center, distance, input) == near + {f};
    if Wanted(f, input, now) {
      assert MatchSet(near + {f}, center, distance, input, now) == MatchSet(near, center, distance, input, now) + {m};
      assert m !in Elements(matches);
      assert Elements(matches + [m]) == Elements(matches) + {m};
    } else {
      assert MatchSet(near + {f}, center, distance, input, now) == MatchSet(near, center, distance, input, now);
    }
  }

  method Scan(fs: seq<Facility>, center: Location, distance: Distance, input: Input, now: int)
    returns (matches: seq<Match>, nearbyRecords: nat, insufficientEvidence: bool)
    requires NoDuplicates(fs)
    ensures Scanned(fs, center, distance, input, now, matches, nearbyRecords, insufficientEvidence)
  {
    matches, nearbyRecords, insufficientEvidence := [], 0, false;
    for i := 0 to |fs|
      invariant Scanned(fs[..i], center, distance, input, now, matches, nearbyRecords, insufficientEvidence)
    {
      hide IsNearbySearchable, GenreWanted, Scanned;
      assert fs[..i + 1] == fs[..i] + [fs[i]];
      var spot := fs[i];
      var km := distance(center, spot.location);
      if km > input.radiusKm {
        ScanOutside(fs[..i], spot, center, distance, input, now, matches, nearbyRecords, insufficientEvidence);
        continue;
      }
      ScanInside(fs[..i], spot, center, distance, input, now, matches, nearbyRecords, insufficientEvidence);
      nearbyRecords := nearbyRecords + 1;
      if !IsNearbySearchable(spot, now) {
        insufficientEvidence := true;
        continue;
      }
      if !GenreWanted(spot, input) { continue; }
      matches := matches + [Match(spot, km)];
    }
    assert fs[..|fs|] == fs;
  }

  lemma ScannedListing(catalog: Catalog, center: Location, distance: Distance, input: Input, now: int,
                       matches: seq<Match>, nearbyRecords: nat, insufficientEvidence: bool)
    requires Keyed(catalog)
    requires Scanned(Listing(catalog, "skateboard"), center, distance, input, now, matches, nearbyRecords, insufficientEvidence)
    ensures var near := InRadius(catalog, center, distance, input);
            && Elements(matches) == MatchSet(near, center, distance, input, now) && NoDuplicates(matches)
            && StrictTotalOn(MatchBefore, Elements(matches))
            && EmptyStatus(near, now) == if nearbyRecords == 0 || insufficientEvidence then DataUnavailable else NoMatches
  {
    hide IsNearbySearchable, GenreWanted, MatchBefore;
    var listing := Listing(catalog, "skateboard");
    assert forall f :: f in listing <==> f in Elements(listing);
    assert InRadius(catalog, center, distance, input) == NearAmong(listing, center, distance, input);
    MatchSetOrder(InRadius(catalog, center, distance, input), center, distance, input, now);
  }

  method SearchNear(catalog: Catalog, center: Location, distance: Distance, input: Input, now: int) returns (r: Response)
    requires Keyed(catalog) && ValidInput(input)
    ensures r == Near(InRadius(catalog, center, distance, input), center, distance, input, now)
  {
    hide IsNearbySearchable, GenreWanted, MatchBefore, Scanned, EmptyStatus, InRadius;
    var listing := List(catalog, "skateboard");
    DistinctWhenSorted(listing);
    var matches, nearbyRecords, insufficientEvidence := Scan(listing, center, distance, input, now);
    ScannedListing(catalog, center, distance, input, now, matches, nearbyRecords, insufficientEvidence);
    matches := SortSlice(MatchBefore, matches);
    if |matches| > input.limit {
      matches := matches[..input.limit];
    }
    r := Envelope(input, Ok).(matches := matches);
    if |matches| == 0 {
      r := r.(status := NoMatches);
      if nearbyRecords == 0 || insufficientEvidence {
        r := r.(status := DataUnavailable);
      }
    }
  }

  method Search(catalog: Catalog, places: Option<seq<Place>>, distance: Distance, input: Input, now: int)
    returns (r: Result<Response, SearchError>)
    requires Keyed(catalog)
    ensures r == Found(catalog, places, distance, input, now)
  {
    hide ValidPlace, Near;
    if !ValidInput(input) { return Failure(Invalid); }
    if places.None? { return Failure(Unavailable); }
    if |places.value| == 0 { return Success(Envelope(input, LocationNotFound)); }
    var ok := AllValid(places.value);
    if !ok { return Failure(Unavailable); }
    if |places.value| > 1 {
      var labels := CandidateLabels(Truncated(places.value, MAX_RESULTS));
      return Success(Envelope(input, LocationAmbiguous).(candidates := labels));
    }
    var response := SearchNear(catalog, places.value[0].location, distance, input, now);
    return Success(response);
  }

  // ---------- laws ----------

  /**
   The list is the first `limit` of the eligible spots in (distance, ID) order: it holds
   only eligible spots, in order, and every eligible spot left out comes after all of them.
   */
  lemma ListedFirst(fs: set<Facility>, center: Location, distance: Distance, input: Input, now: int)
    requires KeyedById(fs) && ValidInput(input)
    ensures var listed := Near(fs, center, distance, input, now).matches;
            var all := MatchSet(fs, center, distance, input, now);
            && Elements(listed) <= all && StrictlySorted(MatchBefore, listed)
            && |listed| == (if |all| > input.limit then input.limit else |all|)
            && (forall x, y | x in listed && y in all && y !in listed :: MatchBefore(x, y))
  {
    hide MatchBefore, MatchSet;
    MatchSetOrder(fs, center, distance, input, now);
    var all := MatchSet(fs, center, distance, input, now);
    var ranked := Ranking(MatchBefore, all);
    var k := if |all| > input.limit then input.limit else |all|;
    TopIsBest(MatchBefore, all, k);
    assert ranked[..|ranked|] == ranked;
    assert Elements(ranked[..k]) <= Elements(ranked);
  }

  lemma LimitIsNoFilter(fs: set<Facility>, center: Location, distance: Distance, input: Input, more: int, now: int)
    ensures MatchSet(fs, center, distance, input, now) == MatchSet(fs, center, distance, input.(limit := more), now)
  {
    hide IsNearbySearchable;
  }

  lemma TruncationIsPrefix<T>(s: seq<T>, fewer: nat, more: nat)
    requires fewer <= more
    ensures Truncated(s, fewer) <= Truncated(s, more)
  {
  }

  lemma NearLists(fs: set<Facility>, center: Location, distance: Distance, input: Input, now: int)
    requires KeyedById(fs) && ValidInput(input)
    ensures StrictTotalOn(MatchBefore, MatchSet(fs, center, distance, input, now))
    ensures Near(fs, center, distance, input, now).matches
         == Truncated(Ranking(MatchBefore, MatchSet(fs, center, distance, input, now)), input.limit)
  {
    MatchSetOrder(fs, center, distance, input, now);
    hide MatchBefore, MatchSet, EmptyStatus;
  }

  /** Asking for more only appends: the shorter list is a prefix of the longer one. */
  lemma LimitIsPrefix(fs: set<Facility>, center: Location, distance: Distance, input: Input, more: int, now: int)
    requires KeyedById(fs) && ValidInput(input) && input.limit <= more <= MAX_LIMIT
    ensures Near(fs, center, distance, input, now).matches <= Near(fs, center, distance, input.(limit := more), now).matches
  {
    LimitIsNoFilter(fs, center, distance, input, more, now);
    NearLists(fs, center, distance, input, now);
    NearLists(fs, center, distance, input.(limit := more), now);
    hide MatchBefore, MatchSet, Near, Truncated;
    TruncationIsPrefix(Ranking(MatchBefore, MatchSet(fs, center, distance, input, now)), input.limit, more);
  }

  /** `no_matches` is said exactly when the radius holds records, all of them searchable, none of the genre. */
  lemma NoMatchesMeaning(fs: set<Facility>, center: Location, distance: Distance, input: Input, now: int)
    requires KeyedById(fs) && ValidInput(input)
    ensures var status := Near(fs, center, distance, input, now).status;
            && (status == NoMatches <==>
                  fs != {} && forall f | f in fs :: IsNearbySearchable(f, now) && !GenreWanted(f, input))
            && (status == Ok <==> exists f :: f in fs && Wanted(f, input, now))
            && (status == Ok <==> Near(fs, center, distance, input, now).matches != [])
  {
    MatchSetOrder(fs, center, distance, input, now);
    hide IsNearbySearchable, GenreWanted, MatchBefore;
    var ms := MatchSet(fs, center, distance, input, now);
    forall f | f in fs && Wanted(f, input, now)
      ensures ms != {}
    {
      assert Match(f, distance(center, f.location)) in ms;
    }
  }

  // ---------- readiness ----------

  method AnySearchable(fs: seq<Facility>, now: int) returns (ok: bool)
    ensures ok <==> exists f :: f in fs && IsNearbySearchable(f, now)
  {
    hide IsNearbySearchable;
    for i := 0 to |fs|
      invariant forall f | f in fs[..i] :: !IsNearbySearchable(f, now)
    {
      assert fs[..i + 1] == fs[..i] + [fs[i]];
      if IsNearbySearchable(fs[i], now) {
        assert fs[i] in fs;
        return true;
      }
    }
    assert fs[..|fs|] == fs;
    return false;
  }

  /** The service is ready when some spot could be found at all. */
  method Ready(catalog: Catalog, now: int) returns (ok: bool)
    requires Keyed(catalog)
    ensures ok <==> exists f :: f in WithActivity(catalog, "skateboard") && IsNearbySearchable(f, now)
  {
    hide IsNearbySearchable, WithActivity, Selected;
    var listing := List(catalog, "skateboard");
    ok := AnySearchable(listing, now);
    assert forall f :: f in listing <==> f in Elements(listing);
  }

  /** Readiness is not looser than the search: a spot that makes the service ready is found from where it lies. */
  lemma ReadyMeansFindable(catalog: Catalog, distance: Distance, f: Facility, input: Input, now: int)
    requires Keyed(catalog) && ValidInput(input) && input.genre == ""
    requires f in WithActivity(catalog, "skateboard") && IsNearbySearchable(f, now) && distance(f.location, f.location) == 0.0
    ensures var r := Near(InRadius(catalog, f.location, distance, input), f.location, distance, input, now);
            r.status == Ok && r.matches != []
  {
    var fs := InRadius(catalog, f.location, distance, input);
    NoMatchesMeaning(fs, f.location, distance, input, now);
    assert f in fs && Wanted(f, input, now);
    hide Near, IsNearbySearchable;
  }
}
