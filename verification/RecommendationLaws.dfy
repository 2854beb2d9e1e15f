/** What the recommendation engine promises, over every catalog, provider, input and clock. */
module RecommendationLaws {
  import opened Wrappers
  import opened OpeningHours
  import opened Ordering
  import opened Facilities
  import opened Recommendation
  import Links
  import Text
  import Travel

  // ---------- the list is the unique best three ----------

  /** items lists, best first, the best three elements of c (all of them if there are fewer). */
  ghost predicate Lists(c: set<Scored>, top: seq<Scored>) {
    && |top| == Min(MAX_RECOMMENDATIONS, |c|)
    && StrictlySorted(ScoredBefore, top) && Elements(top) <= c
    && forall x, y | x in top && y in c && y !in top :: ScoredBefore(x, y)
  }

  ghost predicate IsTop(c: set<Scored>, items: seq<Item>) {
    exists top :: Lists(c, top) && items == Items(top)
  }

  lemma AnswerParts(fs: set<Facility>, table: Table, input: Input, now: int)
    requires KeyedById(fs)
    ensures StrictTotalOn(ScoredBefore, CandidateSet(fs, table, input, now))
    ensures var r, c := Respond(fs, table, input, now), CandidateSet(fs, table, input, now);
            && r.recommendations == Items(Ranking(ScoredBefore, c)[..Min(MAX_RECOMMENDATIONS, |c|)])
            && (r.googleNotice <==> exists s :: s in c && s.item.kind == Travel.GoogleRoutes)
  {
    CandidatesOnePerFacility(fs, table, input, now);
    hide CandidateSet, ScoredBefore;
  }

  lemma PrefixLists(c: set<Scored>)
    requires StrictTotalOn(ScoredBefore, c)
    ensures Lists(c, Ranking(ScoredBefore, c)[..Min(MAX_RECOMMENDATIONS, |c|)])
  {
    hide ScoredBefore, StrictTotalOn;
    var ranked := Ranking(ScoredBefore, c);
    var k := Min(MAX_RECOMMENDATIONS, |c|);
    TopIsBest(ScoredBefore, c, k);
    assert Elements(ranked[..k]) <= Elements(ranked);
  }

  lemma AnswerIsTop(fs: set<Facility>, table: Table, input: Input, now: int)
    requires KeyedById(fs)
    ensures IsTop(CandidateSet(fs, table, input, now), Respond(fs, table, input, now).recommendations)
  {
    hide CandidateSet, ScoredBefore, Respond, Lists, StrictTotalOn;
    AnswerParts(fs, table, input, now);
    PrefixLists(CandidateSet(fs, table, input, now));
  }

  /** No other list of three meets that description. */
  lemma TopIsUnique(c: set<Scored>, a: seq<Item>, b: seq<Item>)
    requires OnePerFacility(c) && IsTop(c, a) && IsTop(c, b)
    ensures a == b
  {
    ScoredOrder(c);
    hide ScoredBefore;
    var s :| Lists(c, s) && a == Items(s);
    var t :| Lists(c, t) && b == Items(t);
    SameChoice(c, s, t);
    SameChoice(c, t, s);
    SortedIsUnique(ScoredBefore, s, t);
  }

  lemma SameChoice(c: set<Scored>, s: seq<Scored>, t: seq<Scored>)
    requires StrictTotalOn(ScoredBefore, c) && Lists(c, s) && Lists(c, t)
    ensures Elements(s) <= Elements(t)
  {
    hide ScoredBefore;
    SortedCardinality(c, s);
    SortedCardinality(c, t);
    if Elements(t) <= Elements(s) {
      SubsetOfSameSize(Elements(t), Elements(s));
    } else {
      var y :| y in Elements(t) && y !in Elements(s);
      forall x | x in Elements(s) { NoExchange(c, s, t, x, y); }
    }
  }

  lemma NoExchange(c: set<Scored>, s: seq<Scored>, t: seq<Scored>, x: Scored, y: Scored)
    requires StrictTotalOn(ScoredBefore, c) && Lists(c, s) && Lists(c, t)
    requires x in s && y in t && y !in s
    ensures x in t
  {
    hide ScoredBefore;
    assert x in Elements(s) && y in Elements(t);
  }

  lemma SortedCardinality(c: set<Scored>, s: seq<Scored>)
    requires StrictTotalOn(ScoredBefore, c) && StrictlySorted(ScoredBefore, s) && Elements(s) <= c
    ensures |Elements(s)| == |s|
  {
    hide ScoredBefore;
    assert forall i | 0 <= i < |s| :: s[i] in Elements(s);
    assert NoDuplicates(s);
    NoDuplicatesCardinality(s);
  }

  // ---------- independence from the order of estimates ----------

  ghost predicate DistinctEstimates(es: seq<Travel.Estimate>) {
    forall i, j | 0 <= i < j < |es| :: es[i].facilityId != es[j].facilityId
  }

  lemma {:induction false} TableMeaning(es: seq<Travel.Estimate>)
    ensures forall id | id in TableOf(es) :: TableOf(es)[id] in es && TableOf(es)[id].facilityId == id
    ensures forall e | e in es :: e.facilityId in TableOf(es)
    ensures DistinctEstimates(es) ==> forall e | e in es :: TableOf(es)[e.facilityId] == e
  {
    if es != [] {
      var n := |es| - 1;
      assert es == es[..n] + [es[n]];
      TableMeaning(es[..n]);
      if DistinctEstimates(es) {
        forall e | e in es
          ensures TableOf(es)[e.facilityId] == e
        {
          var i :| 0 <= i < |es| && es[i] == e;
          if i < n { assert es[..n][i] == e; }
        }
      }
    }
  }

  lemma TableIgnoresOrder(a: seq<Travel.Estimate>, b: seq<Travel.Estimate>)
    requires multiset(a) == multiset(b) && DistinctEstimates(a) && DistinctEstimates(b)
    ensures TableOf(a) == TableOf(b)
  {
    PermutedElements(a, b);
    TableMeaning(a);
    TableMeaning(b);
    forall id
      ensures id in TableOf(a) <==> id in TableOf(b)
      ensures id in TableOf(a) ==> TableOf(a)[id] == TableOf(b)[id]
    {
      if id in TableOf(a) { assert TableOf(a)[id] in b; }
      if id in TableOf(b) { assert TableOf(b)[id] in a; }
    }
  }

  ghost predicate SameAnswers(p: Travel.Provider, q: Travel.Provider, r: Travel.Request) {
    if p(r).Failure? then q(r) == p(r)
    else
      && q(r).Success? && multiset(p(r).value) == multiset(q(r).value)
      && DistinctEstimates(p(r).value) && DistinctEstimates(q(r).value)
  }

  /** Reordering a provider's estimates never changes the answer. */
  lemma EstimateOrderIrrelevant(catalog: Catalog, p: Travel.Provider, q: Travel.Provider, input: Input, clock: int)
    requires Keyed(catalog) && forall r :: SameAnswers(p, q, r)
    ensures Recommended(catalog, p, input, clock) == Recommended(catalog, q, input, clock)
  {
    hide Respond, EligibleAmong;
    if ValidInput(input) {
      var now := clock / 60;
      var r := TravelRequest(input, EligibleAmong(Listing(catalog, "skateboard"), input, now), now);
      assert SameAnswers(p, q, r);
      if p(r).Success? {
        TableIgnoresOrder(p(r).value, q(r).value);
      }
    }
  }

  // ---------- every recommended item ----------

  /** Every listed item is the candidate of a facility with an estimate. */
  ghost predicate Backed(fs: set<Facility>, table: Table, input: Input, now: int, item: Item) {
    && item.facility in fs && item.facility.id in table && Follows(item, table[item.facility.id], input)
    && Fits(item, input, now)
    && exists s :: s in CandidateSet(fs, table, input, now) && s.item == item
  }

  /** The item shows its estimate: minutes, kind, the distance to the nearest tenth, and the reasons that hold. */
  ghost predicate Follows(item: Item, e: Travel.Estimate, input: Input) {
    && item.travelMinutes == e.travelMinutes && item.kind == e.kind
    && item.distanceKm == RoundTenth(e.distanceKm)
    && item.reasons == Reasons(item.facility, input)
  }

  lemma CandidateFollows(f: Facility, table: Table, input: Input, now: int)
    requires Candidate(f, table, input, now).Some?
    ensures f.id in table && Follows(Candidate(f, table, input, now).value.item, table[f.id], input)
  {
    hide FacilityClose, Reasons, Score;
  }

  lemma ListedItem(fs: set<Facility>, table: Table, input: Input, now: int, k: nat)
    requires KeyedById(fs)
    ensures var listed := Respond(fs, table, input, now).recommendations;
            k < |listed| ==> Backed(fs, table, input, now, listed[k])
  {
    hide FacilityClose, Judge, ScoredBefore, Fits, Follows;
    CandidatesOnePerFacility(fs, table, input, now);
    var c := CandidateSet(fs, table, input, now);
    var ranked := Ranking(ScoredBefore, c);
    var listed := Respond(fs, table, input, now).recommendations;
    if k < |listed| {
      assert listed[k] == ranked[k].item && ranked[k] in Elements(ranked);
      var f :| f in fs && Candidate(f, table, input, now).Some? && Candidate(f, table, input, now).value == ranked[k];
      CandidateFits(f, table, input, now);
      CandidateFollows(f, table, input, now);
    }
  }

  /** The promise about one recommended item. */
  ghost predicate Sound(catalog: Catalog, input: Input, now: int, item: Item) {
    && item.facility in catalog.Values && "skateboard" in item.facility.activities.Values()
    && Welcome(item.facility, input, now)
    && Fits(item, input, now) && 3 * item.travelMinutes <= input.availableMinutes
    && forall t | item.arrivalAt <= t < item.sessionEndsAt :: OpenAtLeastUntil(item.facility.hours, t, item.closesAt)
  }

  /** A place that may be recommended: known hours, open to the public, fit for the level, verified lately. */
  predicate Welcome(f: Facility, input: Input, now: int) {
    && (f.hoursStatus == Unspecified || f.hoursStatus == Known)
    && f.generalUse != ScheduleCheckRequired
    && (input.level == Beginner ==> f.beginnerFriendly)
    && WithinDays(f.dynamicVerifiedAt, now, 30) && WithinDays(f.stableVerifiedAt, now, 180)
  }

  predicate WithinDays(verifiedAt: Time, now: int, days: int) {
    verifiedAt.Some? && 0 <= now * 60 - verifiedAt.value <= days * 86400
  }

  lemma EligibleIsWelcome(f: Facility, input: Input, now: int)
    ensures Eligible(f, input, now) <==> Welcome(f, input, now)
  {
  }

  ghost predicate OpenAtLeastUntil(hours: seq<Period>, t: int, close: int) {
    LatestClose(hours, t).Some? && close <= LatestClose(hours, t).value
  }

  /**
   Every recommendation is a fresh catalog record whose session fits its hours and the
   round trip, with the timetable open at every minute of it; there are at most three.
   */
  lemma RecommendedItemsFit(catalog: Catalog, provider: Travel.Provider, input: Input, clock: int)
    requires Keyed(catalog)
    ensures var r := Recommended(catalog, provider, input, clock);
            r.Success? ==> |r.value.recommendations| <= MAX_RECOMMENDATIONS
                           && forall item | item in r.value.recommendations :: Sound(catalog, input, clock / 60, item)
  {
    hide Respond, EligibleAmong, TableOf, Sound, EligibleSet;
    EligibleIsKeyed(catalog, input, clock / 60);
    forall table { AnswerIsSound(catalog, table, input, clock / 60); }
  }

  lemma AnswerIsSound(catalog: Catalog, table: Table, input: Input, now: int)
    requires Keyed(catalog) && KeyedById(EligibleSet(catalog, input, now))
    ensures var r := Respond(EligibleSet(catalog, input, now), table, input, now);
            && |r.recommendations| <= MAX_RECOMMENDATIONS
            && forall item | item in r.recommendations :: Sound(catalog, input, now, item)
  {
    hide Respond, Sound, Backed, EligibleSet;
    var fs := EligibleSet(catalog, input, now);
    AtMostThree(fs, table, input, now);
    var listed := Respond(fs, table, input, now).recommendations;
    forall k: nat | k < |listed|
      ensures Sound(catalog, input, now, listed[k])
    {
      ListedItem(fs, table, input, now, k);
      BackedIsSound(catalog, table, input, now, listed[k]);
    }
  }

  lemma EligibleIsKeyed(catalog: Catalog, input: Input, now: int)
    requires Keyed(catalog)
    ensures KeyedById(EligibleSet(catalog, input, now))
  {
    hide Eligible;
  }

  lemma BackedIsSound(catalog: Catalog, table: Table, input: Input, now: int, item: Item)
    requires Backed(EligibleSet(catalog, input, now), table, input, now, item)
    ensures Sound(catalog, input, now, item)
  {
    hide LatestClose, CandidateSet, Eligible, Welcome, Follows;
    EligibleIsWelcome(item.facility, input, now);
    assert Selected(item.facility, "skateboard");
    forall t | item.arrivalAt <= t < item.sessionEndsAt
      ensures OpenAtLeastUntil(item.facility.hours, t, item.closesAt)
    {
      OpenThroughSession(item, input, now, t);
    }
  }

  lemma AtMostThree(fs: set<Facility>, table: Table, input: Input, now: int)
    requires KeyedById(fs)
    ensures |Respond(fs, table, input, now).recommendations| <= MAX_RECOMMENDATIONS
  {
    hide CandidateSet;
  }

  // ---------- the engine over the fallback provider ----------

  lemma ValidPlace(f: Facility)
    requires ValidFacility(f)
    ensures f.id != "" && Travel.ValidLocation(f.location)
  {
    assert Text.TrimSpace("") == "";
  }

  lemma DestinationsAreValid(eligible: seq<Facility>)
    requires StrictlySorted(IdBefore, eligible) && forall f | f in eligible :: ValidFacility(f)
    ensures Travel.DistinctDestinations(Destinations(eligible))
    ensures forall d | d in Destinations(eligible) :: d.facilityId != "" && Travel.ValidLocation(d.location)
  {
    hide ValidFacility;
    forall i | 0 <= i < |eligible|
      ensures eligible[i].id != "" && Travel.ValidLocation(eligible[i].location)
    {
      ValidPlace(eligible[i]);
    }
    StringOrder();
  }

  lemma EligibleRequestIsValid(catalog: Catalog, input: Input, now: int)
    requires ValidCatalog(catalog) && ValidInput(input)
    ensures var eligible := EligibleAmong(Listing(catalog, "skateboard"), input, now);
            Travel.ValidRequest(TravelRequest(input, eligible, now)) <==> 1 <= |eligible| <= Travel.MAX_DESTINATIONS
  {
    hide EligibleAmong, ValidFacility, Eligible;
    var eligible := EligibleAmong(Listing(catalog, "skateboard"), input, now);
    EligibleListing(catalog, input, now);
    forall f | f in eligible
      ensures ValidFacility(f)
    {
      assert f in Elements(eligible);
    }
    DestinationsAreValid(eligible);
  }

  lemma UniformLookup(r: Travel.Request, es: seq<Travel.Estimate>, kind: Travel.Kind)
    requires Travel.Uniform(r, es, kind)
    ensures forall i | 0 <= i < |r.destinations| :: r.destinations[i].facilityId in TableOf(es)
    ensures forall id | id in TableOf(es) :: TableOf(es)[id].kind == kind && TableOf(es)[id].travelMinutes >= 0
  {
    TableMeaning(es);
    assert forall i | 0 <= i < |es| :: es[i] in es;
  }

  /** With complete estimates no lookup misses and the notice says the truth about every item. */
  lemma UniformNotice(eligible: seq<Facility>, input: Input, now: int, es: seq<Travel.Estimate>, kind: Travel.Kind)
    requires ValidInput(input) && KeyedById(Elements(eligible))
    requires Travel.Uniform(TravelRequest(input, eligible, now), es, kind)
    ensures forall f | f in eligible :: f.id in TableOf(es)
    ensures var response := Respond(Elements(eligible), TableOf(es), input, now);
            forall item | item in response.recommendations :: TellsTruth(response, item)
  {
    var r := TravelRequest(input, eligible, now);
    UniformLookup(r, es, kind);
    assert forall i | 0 <= i < |eligible| :: r.destinations[i].facilityId == eligible[i].id;
    var fs, table := Elements(eligible), TableOf(es);
    var response := Respond(fs, table, input, now);
    hide Fits, Respond;
    forall k: nat | k < |response.recommendations|
      ensures TellsTruth(response, response.recommendations[k])
    {
      NoticeOfItem(fs, table, input, now, kind, k);
    }
  }

  /** What the notice says of one item. */
  ghost predicate TellsTruth(response: Response, item: Item) {
    item.travelMinutes >= 0 && (response.googleNotice <==> item.kind == Travel.GoogleRoutes)
  }

  lemma NoticeOfItem(fs: set<Facility>, table: Table, input: Input, now: int, kind: Travel.Kind, k: nat)
    requires KeyedById(fs) && forall id | id in table :: table[id].kind == kind && table[id].travelMinutes >= 0
    ensures var response := Respond(fs, table, input, now);
            k < |response.recommendations| ==> TellsTruth(response, response.recommendations[k])
  {
    hide FacilityClose, Judge, ScoredBefore, Fits;
    ListedItem(fs, table, input, now, k);
    var c := CandidateSet(fs, table, input, now);
    forall s | s in c
      ensures s.item.kind == kind && s.item.travelMinutes >= 0
    {
      var f :| f in fs && Candidate(f, table, input, now).Some? && Candidate(f, table, input, now).value == s;
      CandidateFits(f, table, input, now);
      CandidateTravel(f, table, input, now);
    }
  }

  /**
   For any provider: a listed Google item brings the Google notice, and the notice without
   one means that more candidates were found than are listed.
   */
  lemma NoticeVersusList(fs: set<Facility>, table: Table, input: Input, now: int)
    requires KeyedById(fs)
    ensures var r := Respond(fs, table, input, now);
            && ((exists item :: item in r.recommendations && item.kind == Travel.GoogleRoutes) ==> r.googleNotice)
            && (r.googleNotice ==> || (exists item :: item in r.recommendations && item.kind == Travel.GoogleRoutes)
                                   || |CandidateSet(fs, table, input, now)| > MAX_RECOMMENDATIONS)
  {
    hide CandidateSet, ScoredBefore, Respond, Ranking;
    AnswerParts(fs, table, input, now);
    var c, r := CandidateSet(fs, table, input, now), Respond(fs, table, input, now);
    var ranked := Ranking(ScoredBefore, c);
    var listed := Min(MAX_RECOMMENDATIONS, |c|);
    ListedAmong(ranked, c, listed);
    if r.googleNotice && |c| <= MAX_RECOMMENDATIONS {
      var s :| s in c && s.item.kind == Travel.GoogleRoutes;
      assert s.item in r.recommendations;
    }
  }

  /** What a prefix of a ranking shows comes from the candidates, and a full one shows all of them. */
  lemma ListedAmong(ranked: seq<Scored>, c: set<Scored>, k: nat)
    requires Elements(ranked) == c && k <= |ranked|
    ensures forall item | item in Items(ranked[..k]) :: exists s :: s in c && s.item == item
    ensures k == |ranked| ==> forall s | s in c :: s.item in Items(ranked[..k])
  {
    forall item | item in Items(ranked[..k])
      ensures exists s :: s in c && s.item == item
    {
      var i :| 0 <= i < k && Items(ranked[..k])[i] == item;
      assert ranked[i] in Elements(ranked);
    }
    if k == |ranked| {
      forall s | s in c
        ensures s.item in Items(ranked[..k])
      {
        assert s in Elements(ranked);
        var i :| 0 <= i < |ranked| && ranked[i] == s;
        assert Items(ranked[..k])[i] == s.item;
      }
    }
  }

  lemma CandidateTravel(f: Facility, table: Table, input: Input, now: int)
    requires Candidate(f, table, input, now).Some?
    ensures f.id in table && Candidate(f, table, input, now).value.item.travelMinutes == table[f.id].travelMinutes
  {
    hide FacilityClose;
  }

  /** Google first, the straight line behind it, as one provider. */
  ghost function GoogleWithFallback(service: Travel.Request -> Option<seq<Travel.Element>>,
                                    distance: (Location, Location) -> real): Travel.Provider
  {
    r => Travel.FallbackMatrix(q => Travel.GoogleMatrix(service, q), q => Travel.StraightLineMatrix(distance, q), r)
  }

  /**
   The engine over Google with the straight line behind it, for every valid catalog and
   input: it fails exactly when more than 100 places are eligible; otherwise every eligible
   place is looked up successfully and the travel notice is true of every listed item.
   */
  lemma EngineOverFallback(catalog: Catalog, service: Travel.Request -> Option<seq<Travel.Element>>,
                           distance: (Location, Location) -> real, input: Input, clock: int)
    requires ValidCatalog(catalog) && ValidInput(input) && forall a, b :: distance(a, b) >= 0.0
    ensures var eligible := EligibleAmong(Listing(catalog, "skateboard"), input, clock / 60);
            var p := GoogleWithFallback(service, distance);
            var answer := Recommended(catalog, p, input, clock);
            && (answer.Success? <==> |eligible| <= Travel.MAX_DESTINATIONS)
            && (answer.Success? ==> forall item | item in answer.value.recommendations :: TellsTruth(answer.value, item))
            && (answer.Success? && eligible != [] ==>
                  forall f | f in eligible :: f.id in TableOf(p(TravelRequest(input, eligible, clock / 60)).value))
  {
    hide EligibleAmong, Travel.GoogleMatrix, Travel.StraightLineMatrix, Travel.ValidRequest, TableOf, Respond, TellsTruth;
    var now := clock / 60;
    var eligible := EligibleAmong(Listing(catalog, "skateboard"), input, now);
    var r := TravelRequest(input, eligible, now);
    var p := GoogleWithFallback(service, distance);
    EligibleRequestIsValid(catalog, input, now);
    EligibleListing(catalog, input, now);
    Travel.FallbackIsUniform(service, distance, r);
    assert p(r) == Travel.FallbackMatrix(q => Travel.GoogleMatrix(service, q), q => Travel.StraightLineMatrix(distance, q), r);
    if p(r).Success? {
      var kind := if Travel.Uniform(r, p(r).value, Travel.GoogleRoutes) then Travel.GoogleRoutes else Travel.StraightLine;
      UniformNotice(eligible, input, now, p(r).value, kind);
      assert eligible != [] ==>
          Recommended(catalog, p, input, clock) == Success(Respond(Elements(eligible), TableOf(p(r).value), input, now));
    }
  }

  // ---------- a catalog that is too large to ask about ----------

  /** A plain place of the catalog under an ID of n + 1 letters. */
  function PlaceNumber(n: nat): Facility {
    var link := Links.Link("https://a.jp", Some(Links.Url("https", "a.jp", "a.jp", "", false, "", "", "")));
    Facility(seq(n + 1, _ => 'a'), Skatepark, link, "a", "a", "東京都", "a", Location(0.0, 0.0), TextSlice(["skateboard"]),
             [Period(Daily, Some(Clock(540, true)), Some(Clock(1020, true)), false)], Known, Links.Link("", None),
             Regular, NoBasis, "", ["a"], [], "a", "a", true, ["a"], ["a"], Access([], "", ""),
             Translation("a", "a", TextSlice(["a"]), "", "a", "a", TextSlice(["a"]), "a"), None, [], link, "a", "verified", "a",
             None, Some(0), Some(0), Some(0))
  }

  function Places(n: nat): map<string, Facility> {
    if n == 0 then map[] else Places(n - 1)[PlaceNumber(n - 1).id := PlaceNumber(n - 1)]
  }

  lemma LettersAreNotBlank(s: string)
    requires s != "" && s[0] == 'a' && s[|s| - 1] == 'a'
    ensures !IsBlank(s)
  {
    Text.TrimmedIsFixed(s);
  }

  lemma PlaceTextsAreValid(n: nat)
    ensures ValidPlaceTexts(PlaceNumber(n)) && ValidTranslation(PlaceNumber(n))
  {
    LettersAreNotBlank("a");
    assert !IsBlank("東京都") by { Text.TrimmedIsFixed("東京都"); }
    hide IsBlank;
  }

  lemma PlaceHoursAreValid(n: nat)
    ensures ValidHoursStatus(PlaceNumber(n)) && ValidAvailability(PlaceNumber(n))
  {
    var f := PlaceNumber(n);
    assert f.hours[0] in f.hours;
  }

  lemma PlaceIsValid(n: nat)
    ensures ValidFacility(PlaceNumber(n))
  {
    hide IsBlank, ValidPlaceTexts, ValidTranslation, ValidHoursStatus, ValidAvailability;
    PlaceTextsAreValid(n);
    PlaceHoursAreValid(n);
    LettersAreNotBlank(PlaceNumber(n).id);
    LettersAreNotBlank("a");
  }

  lemma PlaceId(n: nat)
    ensures |PlaceNumber(n).id| == n + 1
  {
  }

  ghost predicate Files(m: map<string, Facility>, n: nat) {
    && Keyed(m) && |m.Values| == n
    && forall f | f in m.Values :: |f.id| <= n && ValidFacility(f) && Eligible(f, BEGINNER_ON_FOOT, 0) && Selected(f, "skateboard")
  }

  const BEGINNER_ON_FOOT := Input(Basics, Focused, Beginner, 60, Travel.Walk, true, Some(0.0), Some(0.0))

  lemma PlaceIsEligible(n: nat)
    ensures Eligible(PlaceNumber(n), BEGINNER_ON_FOOT, 0) && Selected(PlaceNumber(n), "skateboard")
  {
    assert TextSlice(["skateboard"]).Values() == ["skateboard"];
  }

  lemma FileAnother(m: map<string, Facility>, n: nat, f: Facility)
    requires Files(m, n) && |f.id| == n + 1
    requires ValidFacility(f) && Eligible(f, BEGINNER_ON_FOOT, 0) && Selected(f, "skateboard")
    ensures Files(m[f.id := f], n + 1)
  {
    hide ValidFacility, Eligible, Selected;
    assert forall id | id in m :: m[id] in m.Values && m[id].id == id;
    assert f.id !in m && f !in m.Values;
    OneMoreValue(m, f.id, f);
  }

  lemma OneMoreValue<K, V>(m: map<K, V>, k: K, v: V)
    requires k !in m
    ensures m[k := v].Values == m.Values + {v}
  {
    var m' := m[k := v];
    assert m'[k] == v;
    assert forall x | x in m :: m'[x] == m[x];
  }

  lemma {:induction false} PlacesMeaning(n: nat)
    ensures Files(Places(n), n)
  {
    hide ValidFacility, Eligible, Selected, PlaceNumber;
    if n > 0 {
      PlacesMeaning(n - 1);
      PlaceId(n - 1);
      PlaceIsValid(n - 1);
      PlaceIsEligible(n - 1);
      hide Files;
      FileAnother(Places(n - 1), n - 1, PlaceNumber(n - 1));
    }
  }

  /** So the engine does fail on a valid catalog and a valid input: more than 100 such places, a beginner on foot. */
  lemma TooManyPlaces(n: nat, service: Travel.Request -> Option<seq<Travel.Element>>, distance: (Location, Location) -> real)
    requires n > Travel.MAX_DESTINATIONS && forall a, b :: distance(a, b) >= 0.0
    ensures ValidCatalog(Places(n)) && ValidInput(BEGINNER_ON_FOOT)
    ensures Recommended(Places(n), GoogleWithFallback(service, distance), BEGINNER_ON_FOOT, 0).Failure?
  {
    PlacesMeaning(n);
    var catalog := Places(n);
    hide Places, ValidFacility, Eligible, Selected, Recommended, EligibleAmong;
    var eligible := EligibleAmong(Listing(catalog, "skateboard"), BEGINNER_ON_FOOT, 0);
    assert forall id | id in catalog :: catalog[id] in catalog.Values;
    EligibleListing(catalog, BEGINNER_ON_FOOT, 0);
    DistinctWhenSorted(eligible);
    NoDuplicatesCardinality(eligible);
    assert EligibleSet(catalog, BEGINNER_ON_FOOT, 0) == catalog.Values;
    EngineOverFallback(catalog, service, distance, BEGINNER_ON_FOOT, 0);
  }
}
