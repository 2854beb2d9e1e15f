/**
 What a caller of the nearby search can rely on (internal/nearby/search.go:64-135,
 internal/nearby/input.go:38-106): which bodies ask which question, which answer each outcome
 of the geocoder gives, and which spots are listed, in which order.
 */
module NearbyLaws {
  import opened Wrappers
  import opened Ordering
  import opened Facilities
  import opened NearbyInput
  import opened NearbySearch
  import Text

  /** A question that may be asked. */
  ghost predicate Askable(i: Input) {
    && 1 <= |i.query| <= 120 && (forall c | c in i.query :: !Text.IsControl(c))
    && i.genre in {"", "skatepark", "street"} && 1 <= i.limit <= 10 && 0.1 <= i.radiusKm <= 50.0 && i.sort == "distance"
  }

  /** A place the geocoder may answer with: a caption that shows something, and coordinates on the globe. */
  ghost predicate OnTheMap(p: Place) {
    && (exists c :: c in p.caption && !Text.IsSpace(c)) && |p.caption| <= 300 && (forall c | c in p.caption :: !Text.IsControl(c))
    && -90.0 <= p.location.latitude <= 90.0 && -180.0 <= p.location.longitude <= 180.0
  }

  lemma AskableIff(i: Input)
    ensures Askable(i) <==> ValidInput(i)
  {
  }

  lemma OnTheMapIff(p: Place)
    ensures OnTheMap(p) <==> ValidPlace(p)
  {
    Text.TrimSpaceShowsIff(p.caption);
    hide Text.TrimSpace, Text.IsSpace;
  }

  /** The search has no answer: bad input, no geocoder result, or a result that breaks the geocoder's promises. */
  ghost predicate Refused(places: Option<seq<Place>>, input: Input, error: SearchError) {
    match error
    case Invalid => !Askable(input)
    case Unavailable => Askable(input) && (places.None? || exists p :: p in places.value && !OnTheMap(p))
  }

  /** The captions of the first five places, or of all. */
  ghost predicate FirstCaptions(candidates: seq<string>, places: seq<Place>) {
    && |candidates| == (if |places| < 5 then |places| else 5)
    && forall i | 0 <= i < |candidates| :: candidates[i] == places[i].caption
  }

  /** What the answer repeats of the question. */
  ghost predicate Echoes(r: Response, input: Input) {
    r.limit == input.limit && r.radiusKm == input.radiusKm && r.sort == input.sort
  }

  /** The whole search: each error and each status is given exactly when it should be, candidates and spots only where they belong. */
  lemma SearchOutcome(catalog: Catalog, places: Option<seq<Place>>, distance: Distance, input: Input, now: int)
    requires Keyed(catalog)
    ensures var r := Found(catalog, places, distance, input, now);
            && (forall error :: r == Failure(error) <==> Refused(places, input, error))
            && (r.Success? ==>
                  && places.Some? && Echoes(r.value, input)
                  && (r.value.status == LocationNotFound <==> |places.value| == 0)
                  && (r.value.status == LocationAmbiguous <==> |places.value| >= 2)
                  && (r.value.status in {Ok, NoMatches, DataUnavailable} <==> |places.value| == 1)
                  && (r.value.status == Ok <==> r.value.matches != [])
                  && if |places.value| >= 2 then FirstCaptions(r.value.candidates, places.value) else r.value.candidates == [])
  {
    hide ValidInput, ValidPlace, Askable, OnTheMap, EmptyStatus, WithActivity, Near;
    AskableIff(input);
    if places.Some? {
      forall p | p in places.value { OnTheMapIff(p); }
    }
    if ValidInput(input) && places.Some? && |places.value| == 1 {
      var center := places.value[0].location;
      InRadiusIsKeyed(catalog, center, distance, input);
      NearShape(InRadius(catalog, center, distance, input), center, distance, input, now);
    }
  }

  lemma InRadiusIsKeyed(catalog: Catalog, center: Location, distance: Distance, input: Input)
    requires Keyed(catalog)
    ensures KeyedById(InRadius(catalog, center, distance, input))
  {
  }

  lemma NearShape(fs: set<Facility>, center: Location, distance: Distance, input: Input, now: int)
    requires KeyedById(fs) && ValidInput(input)
    ensures var r := Near(fs, center, distance, input, now);
            && r.status in {Ok, NoMatches, DataUnavailable} && r.candidates == [] && Echoes(r, input)
            && (r.status == Ok <==> r.matches != [])
  {
    NoMatchesMeaning(fs, center, distance, input, now);
    MatchSetOrder(fs, center, distance, input, now);
    hide MatchSet, MatchBefore, Wanted, ValidInput;
  }

  // ---------- the spots listed ----------

  /** The spot lies within the radius and its record is good enough to show: of the genre, permitted, verified, recent. */
  ghost predicate MayBeListed(f: Facility, catalog: Catalog, center: Location, distance: Distance, input: Input, now: int) {
    && f in catalog.Values && "skateboard" in f.activities.Values() && distance(center, f.location) <= input.radiusKm
    && (f.genre == Skatepark || f.genre == Street) && (input.genre == "skatepark" ==> f.genre == Skatepark)
    && (input.genre == "street" ==> f.genre == Street)
    && f.permissionSource.text != "" && f.status == "verified"
    && f.hoursStatus != Unknown && f.generalUse != ScheduleCheckRequired
    && f.dynamicVerifiedAt.Some? && 0 <= now - f.dynamicVerifiedAt.value <= 30 * 86400
    && f.stableVerifiedAt.Some? && 0 <= now - f.stableVerifiedAt.value <= 180 * 86400
  }

  /** a is listed above b: nearer, or as near with the smaller ID. */
  ghost predicate Nearer(a: Facility, b: Facility, center: Location, distance: Distance) {
    || distance(center, a.location) < distance(center, b.location)
    || (distance(center, a.location) == distance(center, b.location) && StringLess(a.id, b.id))
  }

  /** The nearest `limit` spots of those that may be listed, nearest first, each with its distance. */
  ghost predicate NearestFirst(matches: seq<Match>, catalog: Catalog, center: Location, distance: Distance, input: Input, now: int) {
    && |matches| <= input.limit
    && (forall m | m in matches ::
          MayBeListed(m.facility, catalog, center, distance, input, now) && m.distanceKm == distance(center, m.facility.location))
    && (forall i, j | 0 <= i < j < |matches| :: Nearer(matches[i].facility, matches[j].facility, center, distance))
    && (forall f | MayBeListed(f, catalog, center, distance, input, now) ::
          || Match(f, distance(center, f.location)) in matches
          || (|matches| == input.limit && forall m | m in matches :: Nearer(m.facility, f, center, distance)))
  }

  lemma MayBeListedIff(f: Facility, catalog: Catalog, center: Location, distance: Distance, input: Input, now: int)
    requires Askable(input)
    ensures MayBeListed(f, catalog, center, distance, input, now)
       <==> f in InRadius(catalog, center, distance, input) && Wanted(f, input, now)
  {
  }

  lemma AllMayBeListed(catalog: Catalog, center: Location, distance: Distance, input: Input, now: int)
    requires Askable(input)
    ensures var all := MatchSet(InRadius(catalog, center, distance, input), center, distance, input, now);
            forall f :: MayBeListed(f, catalog, center, distance, input, now) <==> Match(f, distance(center, f.location)) in all
    ensures forall m | m in MatchSet(InRadius(catalog, center, distance, input), center, distance, input, now) ::
              m.distanceKm == distance(center, m.facility.location)
  {
    hide InRadius, Wanted, MayBeListed, Askable;
    forall f { MayBeListedIff(f, catalog, center, distance, input, now); }
  }

  lemma BeforeIsNearer(a: Match, b: Match, center: Location, distance: Distance)
    requires MatchBefore(a, b)
    requires a.distanceKm == distance(center, a.facility.location) && b.distanceKm == distance(center, b.facility.location)
    ensures Nearer(a.facility, b.facility, center, distance)
  {
  }

  /** A place found lists the nearest spots of the catalog, and says why when it lists none. */
  lemma ListsTheNearest(catalog: Catalog, place: Place, distance: Distance, input: Input, now: int)
    requires Keyed(catalog) && Askable(input) && OnTheMap(place)
    ensures var r := Found(catalog, Some([place]), distance, input, now);
            r.Success? && NearestFirst(r.value.matches, catalog, place.location, distance, input, now)
  {
    hide ValidInput, ValidPlace, Askable, OnTheMap, Near, MatchSet, InRadius, MayBeListed, MatchBefore, Nearer;
    AskableIff(input);
    OnTheMapIff(place);
    var center := place.location;
    var fs := InRadius(catalog, center, distance, input);
    InRadiusIsKeyed(catalog, center, distance, input);
    ListedFirst(fs, center, distance, input, now);
    AllMayBeListed(catalog, center, distance, input, now);
    var listed, all := Near(fs, center, distance, input, now).matches, MatchSet(fs, center, distance, input, now);
    assert forall m :: m in listed <==> m in Elements(listed);
    LimitIsSmall(input);
    forall i, j | 0 <= i < j < |listed|
      ensures Nearer(listed[i].facility, listed[j].facility, center, distance)
    {
      assert listed[i] in listed && listed[j] in listed;
      BeforeIsNearer(listed[i], listed[j], center, distance);
    }
    forall f | MayBeListed(f, catalog, center, distance, input, now) && Match(f, distance(center, f.location)) !in listed
      ensures |listed| == input.limit && forall m | m in listed :: Nearer(m.facility, f, center, distance)
    {
      LeftOut(all, listed, Match(f, distance(center, f.location)), input.limit);
      forall m | m in listed { BeforeIsNearer(m, Match(f, distance(center, f.location)), center, distance); }
    }
  }

  lemma LimitIsSmall(input: Input)
    requires ValidInput(input)
    ensures input.limit >= 1
  {
  }

  lemma LeftOut(all: set<Match>, listed: seq<Match>, m: Match, limit: nat)
    requires Elements(listed) <= all && m in all && m !in listed && StrictlySorted(MatchBefore, listed)
    requires |listed| == if |all| > limit then limit else |all|
    requires forall a, b | a in listed && b in all && b !in listed :: MatchBefore(a, b)
    ensures |listed| == limit && forall a | a in listed :: MatchBefore(a, m)
  {
    hide MatchBefore;
    if |listed| == |all| {
      SortedOnce(listed);
      SubsetOfSameSize(Elements(listed), all);
    }
  }

  lemma SortedOnce(listed: seq<Match>)
    requires StrictlySorted(MatchBefore, listed)
    ensures |Elements(listed)| == |listed|
  {
    forall i, j | 0 <= i < j < |listed|
      ensures listed[i] != listed[j]
    {
      StringLessIrreflexive(listed[i].facility.id);
    }
    NoDuplicatesCardinality(listed);
  }

  // ---------- what a body asks ----------

  ghost predicate Absent(ms: seq<Member>, name: string) {
    forall m | m in ms :: m.name != name
  }

  /** No other members, none twice; each gives its own field, with a default for all but the query. */
  ghost predicate Asks(ms: seq<Member>, i: Input) {
    && DistinctNames(ms) && (forall m | m in ms :: m.name in {"query", "genre", "limit", "radiusKm", "sort"})
    && (exists q :: Member("query", Str(q)) in ms && Text.IsCore(i.query, q) && forall c | c in q :: !Text.IsControl(c))
    && (if i.genre == "" then Absent(ms, "genre") else Member("genre", Str(i.genre)) in ms)
    && (if Absent(ms, "limit") then i.limit == 5 else exists x: real :: Member("limit", Num(x, true)) in ms && x.Floor == i.limit)
    && (if Absent(ms, "radiusKm") then i.radiusKm == 10.0 else exists b: bool :: Member("radiusKm", Num(i.radiusKm, b)) in ms)
    && (if Absent(ms, "sort") then i.sort == "distance" else Member("sort", Str(i.sort)) in ms)
  }

  /** The member of a name, if there is one. */
  lemma LookupFinds(ms: seq<Member>, name: string)
    requires DistinctNames(ms)
    ensures if Absent(ms, name) then Lookup(ms, name) == None
            else Lookup(ms, name).Some? && forall v :: Member(name, v) in ms <==> Lookup(ms, name) == Some(v)
  {
    LookupMeaning(ms, name);
    hide Lookup;
  }

  /** A member is usable when it has a known name and the kind of value that goes with it. */
  lemma UsableIff(ms: seq<Member>)
    requires DistinctNames(ms)
    ensures (forall m | m in ms :: Usable(m))
       <==> && (forall m | m in ms :: m.name in {"query", "genre", "limit", "radiusKm", "sort"})
            && var query, genre, limit := Lookup(ms, "query"), Lookup(ms, "genre"), Lookup(ms, "limit");
               var radius, sort := Lookup(ms, "radiusKm"), Lookup(ms, "sort");
               && (query.Some? ==> query.value.Str?) && (genre.Some? ==> genre.value.Str? && genre.value.text != "")
               && (limit.Some? ==> limit.value.Num? && limit.value.integer)
               && (radius.Some? ==> radius.value.Num?) && (sort.Some? ==> sort.value.Str?)
  {
    LookupMeaning(ms, "query");
    LookupMeaning(ms, "genre");
    LookupMeaning(ms, "limit");
    LookupMeaning(ms, "radiusKm");
    LookupMeaning(ms, "sort");
    hide Lookup, DistinctNames;
  }

  /** The same of a question, by looked-up values. */
  ghost predicate AsksByLookup(ms: seq<Member>, i: Input) {
    var query, genre, limit := Lookup(ms, "query"), Lookup(ms, "genre"), Lookup(ms, "limit");
    var radius, sort := Lookup(ms, "radiusKm"), Lookup(ms, "sort");
    && (forall m | m in ms :: m.name in {"query", "genre", "limit", "radiusKm", "sort"})
    && query.Some? && query.value.Str? && Text.IsCore(i.query, query.value.text) && !Text.HasControl(query.value.text)
    && (if i.genre == "" then genre.None? else genre == Some(Str(i.genre)))
    && (if limit.None? then i.limit == 5 else limit.value.Num? && limit.value.integer && limit.value.value.Floor == i.limit)
    && (if radius.None? then i.radiusKm == 10.0 else radius.value.Num? && radius.value.value == i.radiusKm)
    && (if sort.None? then i.sort == "distance" else sort == Some(Str(i.sort)))
  }

  lemma AsksIffByLookup(ms: seq<Member>, i: Input)
    requires DistinctNames(ms)
    ensures Asks(ms, i) <==> AsksByLookup(ms, i)
  {
    LookupFinds(ms, "query");
    LookupFinds(ms, "genre");
    LookupFinds(ms, "limit");
    LookupFinds(ms, "radiusKm");
    LookupFinds(ms, "sort");
    hide Lookup, DistinctNames, Text.IsCore, Text.IsControl, Absent;
    var limit, radius := Lookup(ms, "limit"), Lookup(ms, "radiusKm");
    if limit.Some? && limit.value.Num? && limit.value.integer {
      assert Member("limit", Num(limit.value.value, true)) in ms;
    }
    if radius.Some? && radius.value.Num? {
      assert Member("radiusKm", Num(radius.value.value, radius.value.integer)) in ms;
    }
  }

  lemma CoreIff(t: string, s: string)
    ensures Text.IsCore(t, s) <==> t == Text.TrimSpace(s)
  {
    Text.TrimSpaceIsCore(s);
    if Text.IsCore(t, s) { Text.CoreIsUnique(t, Text.TrimSpace(s), s); }
  }

  lemma NoQuery()
    ensures Text.TrimSpace("") == ""
  {
  }

  lemma AskedIff(ms: seq<Member>, i: Input)
    ensures Decoded(ObjectBody(ms)) == Some(i) <==> Asks(ms, i) && Askable(i)
  {
    hide Lookup, Usable, DistinctNames, Askable, Text.TrimSpace, Text.IsCore, Text.HasControl, Asks, AsksByLookup;
    AskableIff(i);
    if DistinctNames(ms) {
      AsksIffByLookup(ms, i);
      UsableIff(ms);
      LookedUpIff(ms, i);
    } else {
      assert !Asks(ms, i) by { NotDistinct(ms, i); }
    }
  }

  lemma NotDistinct(ms: seq<Member>, i: Input)
    ensures Asks(ms, i) ==> DistinctNames(ms)
  {
  }

  lemma LookedUpIff(ms: seq<Member>, i: Input)
    requires DistinctNames(ms)
    ensures (forall m | m in ms :: Usable(m)) && Finish(Assembled(ms)) == Some(i) <==> AsksByLookup(ms, i) && ValidInput(i)
  {
    UsableIff(ms);
    NoQuery();
    CoreIff(i.query, TextOr(Lookup(ms, "query"), ""));
    hide Lookup, Usable, DistinctNames, Text.TrimSpace, Text.IsCore, Text.HasControl;
  }

  /** Exactly which bodies ask which question. */
  lemma DecodedIff(body: Body, i: Input)
    ensures Decoded(body) == Some(i) <==> body.ObjectBody? && Asks(body.members, i) && Askable(i)
  {
    if body.ObjectBody? {
      AskedIff(body.members, i);
    }
  }
}
