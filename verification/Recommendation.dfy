/**
 The recommendation engine (internal/recommendation/engine.go:85-310).

 Clock readings are seconds and instants minutes of Japan Standard Time, both counted from
 1970-01-01 00:00 in that zone.
 */
module Recommendation {
  import opened Wrappers
  import opened Calendar
  import opened OpeningHours
  import opened Ordering
  import opened Facilities
  import Travel

  const MAX_RECOMMENDATIONS := 3
  const MAX_TRAVEL_SHARE_DIVISOR := 3
  const PURPOSE_FEATURE_SCORE := 25
  const BEGINNER_FRIENDLY_SCORE := 30
  const GENERAL_FRIENDLY_SCORE := 10
  const FOCUSED_MOOD_SCORE := 10
  const EASYGOING_FEATURE_SCORE := 8
  const CHALLENGE_FEATURE_SCORE := 10
  const SKATE_TIME_SCORE_DIVISOR := 10

  // ---------- the session input ----------

  datatype Purpose = Basics | StreetPurpose | Transition | OtherPurpose
  datatype Mood = Focused | Easygoing | Challenge | OtherMood
  datatype Level = Beginner | Returning | Intermediate | OtherLevel

  /** Coordinates are None when missing or not finite. */
  datatype Input = Input(
    purpose: Purpose,
    mood: Mood,
    level: Level,
    availableMinutes: int,
    transport: Travel.Transport,
    originModeKnown: bool,
    latitude: Option<real>,
    longitude: Option<real>)

  predicate ValidInput(input: Input) {
    && input.purpose != OtherPurpose && input.mood != OtherMood && input.level != OtherLevel
    && input.availableMinutes in {60, 120, 180, 240}
    && input.transport != Travel.OtherTransport && input.originModeKnown
    && input.latitude.Some? && -90.0 <= input.latitude.value <= 90.0
    && input.longitude.Some? && -180.0 <= input.longitude.value <= 180.0
  }

  function MaxTravel(input: Input): int {
    input.availableMinutes / MAX_TRAVEL_SHARE_DIVISOR
  }

  // ---------- scoring ----------

  function PurposeFeatures(purpose: Purpose): seq<string> {
    match purpose
    case Basics => ["flat-area"]
    case StreetPurpose => ["stairs", "handrail", "rail", "ledge", "bank"]
    case Transition => ["mini-ramp", "quarter-ramp", "bowl"]
    case OtherPurpose => []
  }

  const EASYGOING_FEATURES := ["indoor", "roof", "lighting", "rental"]
  const CHALLENGE_FEATURES := ["stairs", "handrail", "rail", "ledge", "bank", "mini-ramp", "quarter-ramp", "bowl"]

  /** The targets the features offer, in target order. */
  function Matching(features: seq<string>, targets: seq<string>): seq<string> {
    if targets == [] then []
    else
      Matching(features, targets[..|targets| - 1])
      + if targets[|targets| - 1] in features then [targets[|targets| - 1]] else []
  }

  method MatchingFeatures(features: seq<string>, targets: seq<string>) returns (matched: seq<string>)
    ensures matched == Matching(features, targets)
  {
    matched := [];
    for i := 0 to |targets|
      invariant matched == Matching(features, targets[..i])
    {
      assert targets[..i + 1][..i] == targets[..i];
      ghost var before := matched;
      for j := 0 to |features|
        invariant matched == before && targets[i] !in features[..j]
      {
        if features[j] == targets[i] {
          matched := matched + [targets[i]];
          break;
        }
      }
    }
    assert targets[..|targets|] == targets;
  }

  datatype ReasonCode = PurposeMatch | BeginnerFriendlyReason | MoodMatch | SessionTime | TravelTime

  function MoodTargets(mood: Mood, purpose: Purpose): seq<string> {
    match mood
    case Focused => PurposeFeatures(purpose)
    case Easygoing => EASYGOING_FEATURES
    case Challenge => CHALLENGE_FEATURES
    case OtherMood => []
  }

  function MoodScore(f: Facility, mood: Mood, purpose: Purpose): int {
    var n := |Matching(f.features, MoodTargets(mood, purpose))|;
    match mood
    case Focused => if n > 0 then FOCUSED_MOOD_SCORE else 0
    case Easygoing => n * EASYGOING_FEATURE_SCORE
    case Challenge => n * CHALLENGE_FEATURE_SCORE
    case OtherMood => 0
  }

  function FriendlyScore(f: Facility, level: Level): int {
    if !f.beginnerFriendly then 0 else if level == Beginner then BEGINNER_FRIENDLY_SCORE else GENERAL_FRIENDLY_SCORE
  }

  function Score(f: Facility, input: Input, travelMinutes: int, skateMinutes: nat): int {
    MaxTravel(input) - travelMinutes
    + |Matching(f.features, PurposeFeatures(input.purpose))| * PURPOSE_FEATURE_SCORE
    + skateMinutes / SKATE_TIME_SCORE_DIVISOR
    + FriendlyScore(f, input.level)
    + MoodScore(f, input.mood, input.purpose)
  }

  /** A reason is given exactly when the fact it states holds; the two estimates are always given. */
  function Reasons(f: Facility, input: Input): seq<ReasonCode> {
    (if exists t :: t in PurposeFeatures(input.purpose) && t in f.features then [PurposeMatch] else [])
    + (if f.beginnerFriendly && input.level == Beginner then [BeginnerFriendlyReason] else [])
    + (if exists t :: t in MoodTargets(input.mood, input.purpose) && t in f.features then [MoodMatch] else [])
    + [SessionTime, TravelTime]
  }

  lemma {:induction false} MatchingMembers(features: seq<string>, targets: seq<string>)
    ensures forall t :: t in Matching(features, targets) <==> t in targets && t in features
    ensures Matching(features, targets) != [] <==> exists t :: t in targets && t in features
  {
    if targets != [] {
      var n := |targets| - 1;
      assert targets == targets[..n] + [targets[n]];
      MatchingMembers(features, targets[..n]);
    }
    assert Matching(features, targets) != [] ==> Matching(features, targets)[0] in Matching(features, targets);
  }

  method ScoreFacility(f: Facility, input: Input, travelMinutes: int, skateMinutes: nat)
    returns (score: int, reasons: seq<ReasonCode>)
    ensures score == Score(f, input, travelMinutes, skateMinutes) && reasons == Reasons(f, input)
  {
    var matched := MatchingFeatures(f.features, PurposeFeatures(input.purpose));
    MatchingMembers(f.features, PurposeFeatures(input.purpose));
    score := MaxTravel(input) - travelMinutes + |matched| * PURPOSE_FEATURE_SCORE + skateMinutes / SKATE_TIME_SCORE_DIVISOR;
    reasons := [];
    if |matched| > 0 {
      reasons := reasons + [PurposeMatch];
    }
    if f.beginnerFriendly {
      if input.level == Beginner {
        score := score + BEGINNER_FRIENDLY_SCORE;
        reasons := reasons + [BeginnerFriendlyReason];
      } else {
        score := score + GENERAL_FRIENDLY_SCORE;
      }
    }
    score, reasons := ApplyMoodScore(score, reasons, f, input.mood, input.purpose, matched);
    reasons := reasons + [SessionTime];
    reasons := reasons + [TravelTime];
  }

  method ApplyMoodScore(score0: int, reasons0: seq<ReasonCode>, f: Facility, mood: Mood, purpose: Purpose, matchedPurpose: seq<string>)
    returns (score: int, reasons: seq<ReasonCode>)
    requires matchedPurpose == Matching(f.features, PurposeFeatures(purpose))
    ensures score == score0 + MoodScore(f, mood, purpose)
    ensures reasons == reasons0 + if exists t :: t in MoodTargets(mood, purpose) && t in f.features then [MoodMatch] else []
  {
    score, reasons := score0, reasons0;
    MatchingMembers(f.features, MoodTargets(mood, purpose));
    match mood
    case Focused =>
      if |matchedPurpose| > 0 {
        score := score + FOCUSED_MOOD_SCORE;
        reasons := reasons + [MoodMatch];
      }
    case Easygoing =>
      var matched := MatchingFeatures(f.features, EASYGOING_FEATURES);
      if |matched| > 0 {
        score := score + |matched| * EASYGOING_FEATURE_SCORE;
        reasons := reasons + [MoodMatch];
      }
    case Challenge =>
      var matched := MatchingFeatures(f.features, CHALLENGE_FEATURES);
      if |matched| > 0 {
        score := score + |matched| * CHALLENGE_FEATURE_SCORE;
        reasons := reasons + [MoodMatch];
      }
    case OtherMood =>
  }

  lemma {:induction false} MatchingGrows(features: seq<string>, more: seq<string>, targets: seq<string>)
    requires forall t | t in features :: t in more
    ensures |Matching(features, targets)| <= |Matching(more, targets)|
  {
    if targets != [] {
      MatchingGrows(features, more, targets[..|targets| - 1]);
    }
  }

  /** A place that offers at least as much, is no farther and leaves no less time never scores lower. */
  lemma ScoreIsMonotone(f: Facility, g: Facility, input: Input, farther: int, nearer: int, less: nat, more: nat)
    requires (forall t | t in f.features :: t in g.features) && (f.beginnerFriendly ==> g.beginnerFriendly)
    requires nearer <= farther && less <= more
    ensures Score(f, input, farther, less) <= Score(g, input, nearer, more)
  {
    MatchingGrows(f.features, g.features, PurposeFeatures(input.purpose));
    MatchingGrows(f.features, g.features, MoodTargets(input.mood, input.purpose));
  }

  // ---------- one candidate ----------

  datatype Item = Item(
    facility: Facility,
    reasons: seq<ReasonCode>,
    distanceKm: real,
    travelMinutes: int,
    skateMinutes: int,
    arrivalAt: int,
    closesAt: int,
    sessionEndsAt: int,
    kind: Travel.Kind)

  datatype Scored = Scored(score: int, item: Item)

  /** The distance rounded to tenths, halves away from zero. */
  function RoundTenth(km: real): real {
    if km >= 0.0 then (km * 10.0 + 0.5).Floor as real / 10.0 else -((-km * 10.0 + 0.5).Floor as real / 10.0)
  }

  /** When the place closes, if it is open at the instant: no closure that day, then the timetable. */
  ghost function FacilityClose(f: Facility, at: int): Option<int> {
    if ClosedDay(f.closures, DateOf(DayOf(at))) then None else LatestClose(f.hours, at)
  }

  method OpenUntilAtFacility(f: Facility, at: int) returns (close: Option<int>)
    ensures close == FacilityClose(f, at)
  {
    var closed := IsClosedByPeriod(f.closures, DateOf(DayOf(at)));
    if closed { return None; }
    close := OpenUntilAt(f.hours, at);
  }

  predicate Eligible(f: Facility, input: Input, now: int) {
    && HasKnownOperatingHours(f)
    && f.generalUse != ScheduleCheckRequired
    && (input.level == Beginner ==> f.beginnerFriendly)
    && IsFresh(f, now * 60)
  }

  type Table = map<string, Travel.Estimate>

  /** The later of two estimates for one facility wins. */
  function TableOf(estimates: seq<Travel.Estimate>): Table {
    if estimates == [] then map[]
    else
      var last := estimates[|estimates| - 1];
      TableOf(estimates[..|estimates| - 1])[last.facilityId := last]
  }

  /** The nearest tenth: off by at most half a tenth, and symmetric around zero. */
  lemma RoundTenthIsNearest(km: real)
    ensures -0.05 <= RoundTenth(km) - km <= 0.05
    ensures (RoundTenth(km) * 10.0).Floor as real == RoundTenth(km) * 10.0
    ensures RoundTenth(-km) == -RoundTenth(km)
  {
    if km >= 0.0 {
      assert RoundTenth(km) == (km * 10.0 + 0.5).Floor as real / 10.0;
    } else {
      var n := -((-km * 10.0 + 0.5).Floor);
      assert RoundTenth(km) == n as real / 10.0;
    }
  }

  function Min(a: int, b: int): int {
    if a < b then a else b
  }

  /** The candidate for a facility that closes at `close`, unless no skating time is left. */
  function Judge(f: Facility, e: Travel.Estimate, close: int, input: Input, now: int): Option<Scored> {
    var arrival := now + e.travelMinutes;
    var end := Min(close, now + input.availableMinutes - e.travelMinutes);
    if end <= arrival then None
    else
      Some(Scored(Score(f, input, e.travelMinutes, end - arrival),
                  Item(f, Reasons(f, input), RoundTenth(e.distanceKm), e.travelMinutes, end - arrival,
                       arrival, close, end, e.kind)))
  }

  /** The candidate a facility gives rise to, if it is reachable, open on arrival and leaves time to skate. */
  ghost function Candidate(f: Facility, table: Table, input: Input, now: int): Option<Scored> {
    if f.id !in table || table[f.id].travelMinutes > MaxTravel(input) then None
    else
      match FacilityClose(f, now + table[f.id].travelMinutes)
      case None => None
      case Some(close) => Judge(f, table[f.id], close, input, now)
  }

  method JudgeCandidate(f: Facility, e: Travel.Estimate, close: int, input: Input, now: int) returns (r: Option<Scored>)
    ensures r == Judge(f, e, close, input, now)
  {
    var arrivalAt := now + e.travelMinutes;
    var returnDepartureAt := now + (input.availableMinutes - e.travelMinutes);
    var sessionEndsAt := Min(close, returnDepartureAt);
    var skateMinutes := sessionEndsAt - arrivalAt;
    if skateMinutes <= 0 { return None; }
    var score, reasons := ScoreFacility(f, input, e.travelMinutes, skateMinutes);
    r := Some(Scored(score, Item(f, reasons, RoundTenth(e.distanceKm), e.travelMinutes, skateMinutes,
                                 arrivalAt, close, sessionEndsAt, e.kind)));
  }

  method Evaluate(f: Facility, table: Table, input: Input, now: int) returns (r: Option<Scored>)
    ensures r == Candidate(f, table, input, now)
  {
    hide FacilityClose, Judge;
    if f.id !in table { return None; }
    if table[f.id].travelMinutes > MaxTravel(input) { return None; }
    var close := OpenUntilAtFacility(f, now + table[f.id].travelMinutes);
    if close.None? { return None; }
    r := JudgeCandidate(f, table[f.id], close.value, input, now);
  }

  lemma ClosesAfterArrival(f: Facility, at: int)
    requires FacilityClose(f, at).Some?
    ensures at < FacilityClose(f, at).value
  {
    LatestCloseMeaning(f.hours, at);
  }

  lemma OpenOnArrival(f: Facility, at: int)
    requires FacilityClose(f, at).Some?
    ensures IsLatestClose(f.hours, at, FacilityClose(f, at))
  {
    LatestCloseMeaning(f.hours, at);
  }

  lemma TimeIsLeft(f: Facility, e: Travel.Estimate, close: int, input: Input, now: int)
    requires ValidInput(input) && e.travelMinutes <= MaxTravel(input) && now + e.travelMinutes < close
    ensures Judge(f, e, close, input, now).Some?
  {
    assert input.availableMinutes - 2 * e.travelMinutes > 0;
  }

  lemma CandidateIsJudged(f: Facility, table: Table, input: Input, now: int)
    requires f.id in table && table[f.id].travelMinutes <= MaxTravel(input)
    ensures var close := FacilityClose(f, now + table[f.id].travelMinutes);
            Candidate(f, table, input, now) == if close.None? then None else Judge(f, table[f.id], close.value, input, now)
  {
    hide FacilityClose, Judge;
  }

  /** The filter on non-positive skating time never fires for a validated input. */
  lemma SkateFilterNeverFires(f: Facility, table: Table, input: Input, now: int)
    requires ValidInput(input) && f.id in table && table[f.id].travelMinutes <= MaxTravel(input)
    ensures Candidate(f, table, input, now).None? <==> FacilityClose(f, now + table[f.id].travelMinutes).None?
  {
    hide FacilityClose;
    var e := table[f.id];
    var close := FacilityClose(f, now + e.travelMinutes);
    CandidateIsJudged(f, table, input, now);
    if close.Some? {
      JudgedInTime(f, e, close.value, input, now);
    }
  }

  lemma JudgedInTime(f: Facility, e: Travel.Estimate, close: int, input: Input, now: int)
    requires ValidInput(input) && e.travelMinutes <= MaxTravel(input)
    requires FacilityClose(f, now + e.travelMinutes) == Some(close)
    ensures Judge(f, e, close, input, now).Some?
  {
    hide FacilityClose;
    ClosesAfterArrival(f, now + e.travelMinutes);
    TimeIsLeft(f, e, close, input, now);
  }

  /**
   What the times of a candidate promise: the longest session that fits the opening hours
   and the round trip. It ends when the place closes or when it is time to leave for home.
   */
  ghost predicate Fits(item: Item, input: Input, now: int) {
    && item.arrivalAt == now + item.travelMinutes
    && item.arrivalAt < item.sessionEndsAt <= item.closesAt
    && item.skateMinutes == item.sessionEndsAt - item.arrivalAt >= 1
    && 2 * item.travelMinutes + item.skateMinutes <= input.availableMinutes
    && (item.sessionEndsAt == item.closesAt || 2 * item.travelMinutes + item.skateMinutes == input.availableMinutes)
    && item.travelMinutes <= MaxTravel(input)
    && !ClosedDay(item.facility.closures, DateOf(DayOf(item.arrivalAt)))
    && IsLatestClose(item.facility.hours, item.arrivalAt, Some(item.closesAt))
  }

  lemma JudgedTimes(f: Facility, e: Travel.Estimate, close: int, input: Input, now: int)
    requires Judge(f, e, close, input, now).Some?
    ensures var item := Judge(f, e, close, input, now).value.item;
            && item.facility == f && item.travelMinutes == e.travelMinutes && item.closesAt == close
            && item.arrivalAt == now + item.travelMinutes < item.sessionEndsAt <= close
            && item.skateMinutes == item.sessionEndsAt - item.arrivalAt
            && 2 * item.travelMinutes + item.skateMinutes <= input.availableMinutes
            && (item.sessionEndsAt == close || 2 * item.travelMinutes + item.skateMinutes == input.availableMinutes)
  {
  }

  lemma FitsWhenOpen(item: Item, input: Input, now: int)
    requires item.arrivalAt == now + item.travelMinutes < item.sessionEndsAt <= item.closesAt
    requires item.skateMinutes == item.sessionEndsAt - item.arrivalAt
    requires 2 * item.travelMinutes + item.skateMinutes <= input.availableMinutes
    requires item.sessionEndsAt == item.closesAt || 2 * item.travelMinutes + item.skateMinutes == input.availableMinutes
    requires item.travelMinutes <= MaxTravel(input)
    requires FacilityClose(item.facility, item.arrivalAt) == Some(item.closesAt)
    ensures Fits(item, input, now)
  {
    OpenOnArrival(item.facility, item.arrivalAt);
  }

  lemma CandidateFits(f: Facility, table: Table, input: Input, now: int)
    requires Candidate(f, table, input, now).Some?
    ensures Fits(Candidate(f, table, input, now).value.item, input, now)
    ensures Candidate(f, table, input, now).value.item.facility == f
    ensures f.id in table && Candidate(f, table, input, now).value.item.kind == table[f.id].kind
  {
    hide FacilityClose;
    var e := table[f.id];
    var close := FacilityClose(f, now + e.travelMinutes);
    CandidateIsJudged(f, table, input, now);
    JudgedTimes(f, e, close.value, input, now);
    FitsWhenOpen(Judge(f, e, close.value, input, now).value.item, input, now);
  }

  /** During the whole session the timetable is open, and never reports a close before the promised one. */
  lemma OpenThroughSession(item: Item, input: Input, now: int, t: int)
    requires Fits(item, input, now) && item.arrivalAt <= t < item.sessionEndsAt
    ensures LatestClose(item.facility.hours, t).Some?
    ensures item.closesAt <= LatestClose(item.facility.hours, t).value
  {
    var day: int, p :| Covers(item.facility.hours, day, p, item.arrivalAt, item.closesAt);
    LatestCloseBounds(item.facility.hours, day, p, t, item.closesAt);
  }

  // ---------- ranking ----------

  /** Higher score first, then the shorter rounded distance, then the smaller ID. */
  predicate ScoredBefore(a: Scored, b: Scored) {
    if a.score != b.score then a.score > b.score
    else if a.item.distanceKm != b.item.distanceKm then a.item.distanceKm < b.item.distanceKm
    else StringLess(a.item.facility.id, b.item.facility.id)
  }

  ghost predicate OnePerFacility(c: set<Scored>) {
    forall a, b | a in c && b in c && a.item.facility.id == b.item.facility.id :: a == b
  }

  lemma ScoredOrder(c: set<Scored>)
    requires OnePerFacility(c)
    ensures StrictTotalOn(ScoredBefore, c)
  {
    StringOrder();
  }

  ghost function EligibleSet(catalog: Catalog, input: Input, now: int): set<Facility> {
    set f | f in WithActivity(catalog, "skateboard") && Eligible(f, input, now)
  }

  ghost function CandidateSet(fs: set<Facility>, table: Table, input: Input, now: int): set<Scored> {
    set f | f in fs && Candidate(f, table, input, now).Some? :: Candidate(f, table, input, now).value
  }

  lemma CandidatesOnePerFacility(fs: set<Facility>, table: Table, input: Input, now: int)
    requires KeyedById(fs)
    ensures OnePerFacility(CandidateSet(fs, table, input, now))
    ensures StrictTotalOn(ScoredBefore, CandidateSet(fs, table, input, now))
  {
    ScoredOrder(CandidateSet(fs, table, input, now));
  }

  datatype Response = Response(recommendations: seq<Item>, googleNotice: bool)

  datatype EngineError = InvalidInput | TravelFailed(error: Travel.TravelError)

  function Items(scored: seq<Scored>): seq<Item> {
    seq(|scored|, i requires 0 <= i < |scored| => scored[i].item)
  }

  ghost function Respond(fs: set<Facility>, table: Table, input: Input, now: int): Response
    requires KeyedById(fs)
  {
    CandidatesOnePerFacility(fs, table, input, now);
    var c := CandidateSet(fs, table, input, now);
    var ranked := Ranking(ScoredBefore, c);
    Response(Items(ranked[..Min(MAX_RECOMMENDATIONS, |ranked|)]), exists s :: s in c && s.item.kind == Travel.GoogleRoutes)
  }

  function DestinationOf(f: Facility): Travel.Destination {
    Travel.Destination(f.id, f.location)
  }

  function EligibleAmong(fs: seq<Facility>, input: Input, now: int): seq<Facility> {
    if fs == [] then []
    else
      EligibleAmong(fs[..|fs| - 1], input, now)
      + if Eligible(fs[|fs| - 1], input, now) then [fs[|fs| - 1]] else []
  }

  function Destinations(fs: seq<Facility>): seq<Travel.Destination> {
    seq(|fs|, i requires 0 <= i < |fs| => DestinationOf(fs[i]))
  }

  function TravelRequest(input: Input, fs: seq<Facility>, now: int): Travel.Request
    requires ValidInput(input)
  {
    Travel.Request(Location(input.latitude.value, input.longitude.value), Destinations(fs), input.transport, Some(now))
  }

  /** The whole answer: what the engine owes for a catalog, a provider, an input and a clock reading. */
  ghost function Recommended(catalog: Catalog, provider: Travel.Provider, input: Input, clock: int): Result<Response, EngineError>
    requires Keyed(catalog)
  {
    if !ValidInput(input) then Failure(InvalidInput)
    else
      var now := clock / 60;
      var eligible := EligibleAmong(Listing(catalog, "skateboard"), input, now);
      if eligible == [] then Success(Response([], false))
      else
        match provider(TravelRequest(input, eligible, now))
        case Failure(e) => Failure(TravelFailed(e))
        case Success(estimates) =>
          Success(Respond(EligibleSet(catalog, input, now), TableOf(estimates), input, now))
  }

  lemma {:induction false} EligibleAmongMembers(fs: seq<Facility>, input: Input, now: int)
    requires StrictlySorted(IdBefore, fs)
    ensures forall f :: f in EligibleAmong(fs, input, now) <==> f in fs && Eligible(f, input, now)
    ensures StrictlySorted(IdBefore, EligibleAmong(fs, input, now))
  {
    if fs != [] {
      var n := |fs| - 1;
      assert fs == fs[..n] + [fs[n]];
      EligibleAmongMembers(fs[..n], input, now);
      var r := EligibleAmong(fs[..n], input, now);
      forall i | 0 <= i < |r|
        ensures IdBefore(r[i], fs[n])
      {
        assert r[i] in r;
      }
    }
  }

  lemma EligibleListing(catalog: Catalog, input: Input, now: int)
    requires Keyed(catalog)
    ensures var eligible := EligibleAmong(Listing(catalog, "skateboard"), input, now);
            Elements(eligible) == EligibleSet(catalog, input, now) && StrictlySorted(IdBefore, eligible)
  {
    var listing := Listing(catalog, "skateboard");
    EligibleAmongMembers(listing, input, now);
    assert forall f :: f in listing <==> f in Elements(listing);
  }

  // ---------- the engine ----------

  method SelectEligible(listing: seq<Facility>, input: Input, now: int)
    returns (eligible: seq<Facility>, destinations: seq<Travel.Destination>)
    ensures eligible == EligibleAmong(listing, input, now)
    ensures destinations == Destinations(eligible)
  {
    eligible, destinations := [], [];
    for i := 0 to |listing|
      invariant eligible == EligibleAmong(listing[..i], input, now)
      invariant destinations == Destinations(eligible)
    {
      assert listing[..i + 1][..i] == listing[..i];
      var item := listing[i];
      if !HasKnownOperatingHours(item) { continue; }
      if item.generalUse == ScheduleCheckRequired { continue; }
      if input.level == Beginner && !item.beginnerFriendly { continue; }
      if !IsFresh(item, now * 60) { continue; }
      eligible := eligible + [item];
      destinations := destinations + [DestinationOf(item)];
    }
    assert listing[..|listing|] == listing;
  }

  method IndexEstimates(estimates: seq<Travel.Estimate>) returns (table: Table)
    ensures table == TableOf(estimates)
  {
    table := map[];
    for i := 0 to |estimates|
      invariant table == TableOf(estimates[..i])
    {
      assert estimates[..i + 1][..i] == estimates[..i];
      table := table[estimates[i].facilityId := estimates[i]];
    }
    assert estimates[..|estimates|] == estimates;
  }

  /** The candidates of the facilities fs, each once. */
  ghost predicate Gathered(fs: seq<Facility>, table: Table, input: Input, now: int, candidates: seq<Scored>) {
    && NoDuplicates(candidates)
    && Elements(candidates) == CandidateSet(Elements(fs), table, input, now)
  }

  lemma CandidateIsOf(f: Facility, table: Table, input: Input, now: int)
    ensures Candidate(f, table, input, now).Some? ==> Candidate(f, table, input, now).value.item.facility == f
  {
    hide FacilityClose;
  }

  lemma GatherOne(fs: seq<Facility>, f: Facility, table: Table, input: Input, now: int, candidates: seq<Scored>)
    requires Gathered(fs, table, input, now, candidates) && f !in fs
    ensures var r := Candidate(f, table, input, now);
            Gathered(fs + [f], table, input, now, candidates + if r.Some? then [r.value] else [])
  {
    var r := Candidate(f, table, input, now);
    CandidateIsOf(f, table, input, now);
    forall g | g in fs { CandidateIsOf(g, table, input, now); }
    hide Candidate;
    assert Elements(fs + [f]) == Elements(fs) + {f};
    if r.Some? {
      assert r.value !in Elements(candidates);
      assert Elements(candidates + [r.value]) == Elements(candidates) + {r.value};
    } else {
      assert candidates + [] == candidates;
    }
  }

  method Gather(fs: seq<Facility>, table: Table, input: Input, now: int) returns (candidates: seq<Scored>, usedGoogleRoutes: bool)
    requires NoDuplicates(fs)
    ensures Gathered(fs, table, input, now, candidates)
    ensures usedGoogleRoutes <==> exists s :: s in candidates && s.item.kind == Travel.GoogleRoutes
  {
    candidates, usedGoogleRoutes := [], false;
    for i := 0 to |fs|
      invariant Gathered(fs[..i], table, input, now, candidates)
      invariant usedGoogleRoutes <==> exists s :: s in candidates && s.item.kind == Travel.GoogleRoutes
    {
      assert fs[..i + 1] == fs[..i] + [fs[i]];
      GatherOne(fs[..i], fs[i], table, input, now, candidates);
      var r := Evaluate(fs[i], table, input, now);
      if r.None? {
        assert candidates + [] == candidates;
        continue;
      }
      usedGoogleRoutes := usedGoogleRoutes || r.value.item.kind == Travel.GoogleRoutes;
      candidates := candidates + [r.value];
    }
    assert fs[..|fs|] == fs;
  }

  method FirstItems(ranked: seq<Scored>) returns (recommendations: seq<Item>)
    ensures recommendations == Items(ranked[..Min(MAX_RECOMMENDATIONS, |ranked|)])
  {
    var limit := Min(MAX_RECOMMENDATIONS, |ranked|);
    recommendations := [];
    for i := 0 to limit
      invariant recommendations == Items(ranked[..i])
    {
      recommendations := recommendations + [ranked[i].item];
    }
  }

  /** From the estimates to the answer: candidates, ranking, the first three. */
  method Answer(eligible: seq<Facility>, estimates: seq<Travel.Estimate>, input: Input, now: int) returns (r: Response)
    requires NoDuplicates(eligible) && KeyedById(Elements(eligible))
    ensures r == Respond(Elements(eligible), TableOf(estimates), input, now)
  {
    var table := IndexEstimates(estimates);
    var candidates, usedGoogleRoutes := Gather(eligible, table, input, now);
    CandidatesOnePerFacility(Elements(eligible), table, input, now);
    assert forall s :: s in candidates <==> s in Elements(candidates);
    var ranked := SortSlice(ScoredBefore, candidates);
    var recommendations := FirstItems(ranked);
    r := Response(recommendations, usedGoogleRoutes);
  }

  method RecommendContext(catalog: Catalog, provider: Travel.Provider, input: Input, clock: int)
    returns (r: Result<Response, EngineError>)
    requires Keyed(catalog)
    ensures r == Recommended(catalog, provider, input, clock)
  {
    if !ValidInput(input) {
      return Failure(InvalidInput);
    }
    var now := clock / 60;
    var listing := List(catalog, "skateboard");
    var eligible, destinations := SelectEligible(listing, input, now);
    if |destinations| == 0 {
      return Success(Response([], false));
    }
    var answer := provider(Travel.Request(Location(input.latitude.value, input.longitude.value),
                                          destinations, input.transport, Some(now)));
    if answer.Failure? {
      return Failure(TravelFailed(answer.error));
    }
    EligibleListing(catalog, input, now);
    DistinctWhenSorted(eligible);
    var response := Answer(eligible, answer.value, input, now);
    r := Success(response);
  }
}
