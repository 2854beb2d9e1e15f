/**
 Which places the engine chooses (internal/recommendation/engine.go:85-310): what a score is
 made of, that the list runs from the best down, and that no place left out was better.
 */
module RecommendationChoice {
  import opened Wrappers
  import opened Calendar
  import opened OpeningHours
  import opened Ordering
  import opened Facilities
  import opened Recommendation
  import opened RecommendationLaws
  import Travel

  // ---------- what a score is made of ----------

  /** How many of the given features the place offers. */
  ghost function Offered(f: Facility, targets: set<string>): nat {
    |set t | t in targets && t in f.features|
  }

  ghost function PurposeTargets(purpose: Purpose): set<string> {
    match purpose
    case Basics => {"flat-area"}
    case StreetPurpose => {"stairs", "handrail", "rail", "ledge", "bank"}
    case Transition => {"mini-ramp", "quarter-ramp", "bowl"}
    case OtherPurpose => {}
  }

  const COMFORTS := {"indoor", "roof", "lighting", "rental"}
  const CHALLENGES := {"stairs", "handrail", "rail", "ledge", "bank", "mini-ramp", "quarter-ramp", "bowl"}

  lemma {:induction false} MatchingCounts(features: seq<string>, targets: seq<string>)
    requires NoDuplicates(targets)
    ensures |Matching(features, targets)| == |set t | t in targets && t in features|
  {
    if targets != [] {
      var n := |targets| - 1;
      var front, last := targets[..n], targets[n];
      assert targets == front + [last];
      MatchingCounts(features, front);
      assert last !in front;
      OneMoreTarget(features, front, last);
    }
  }

  lemma OneMoreTarget(features: seq<string>, front: seq<string>, last: string)
    requires last !in front
    ensures |set t | t in front + [last] && t in features|
         == |set t | t in front && t in features| + if last in features then 1 else 0
  {
    var all, some := set t | t in front + [last] && t in features, set t | t in front && t in features;
    assert forall t :: t in front + [last] <==> t in front || t == last;
    if last in features {
      assert all == some + {last};
    } else {
      assert all == some;
    }
  }

  lemma TargetsOnce(purpose: Purpose)
    ensures NoDuplicates(PurposeFeatures(purpose)) && NoDuplicates(EASYGOING_FEATURES)
    ensures Elements(PurposeFeatures(purpose)) == PurposeTargets(purpose) && Elements(EASYGOING_FEATURES) == COMFORTS
  {
  }

  lemma ChallengesOnce()
    ensures NoDuplicates(CHALLENGE_FEATURES) && Elements(CHALLENGE_FEATURES) == CHALLENGES
  {
    var all := CHALLENGE_FEATURES;
    assert |all[0]| == 6 && |all[1]| == 8 && |all[2]| == 4 && |all[3]| == 5 && |all[4]| == 4;
    assert |all[5]| == 9 && |all[6]| == 12 && |all[7]| == 4;
    assert all[2][0] == 'r' && all[4][2] == 'n' && all[7][2] == 'w' && all[2][2] == 'i';
  }

  lemma OfferedCounts(f: Facility, targets: seq<string>)
    requires NoDuplicates(targets)
    ensures |Matching(f.features, targets)| == Offered(f, Elements(targets))
  {
    MatchingCounts(f.features, targets);
    assert (set t | t in targets && t in f.features) == set t | t in Elements(targets) && t in f.features;
  }

  /**
   What adds to a score: each minute of travel saved 1, each feature of the purpose 25, each
   full ten minutes of skating 1, a place fit for beginners 30 to a beginner and 10 to others,
   and the mood: 10 if any feature of the purpose is there, 8 a comfort, or 10 a challenge.
   */
  lemma ScoreAddsUp(f: Facility, input: Input, travelMinutes: int, skateMinutes: nat)
    ensures Score(f, input, travelMinutes, skateMinutes)
         == input.availableMinutes / 3 - travelMinutes + skateMinutes / 10
            + 25 * Offered(f, PurposeTargets(input.purpose))
            + (if !f.beginnerFriendly then 0 else if input.level == Beginner then 30 else 10)
            + match input.mood
              case Focused => if Offered(f, PurposeTargets(input.purpose)) > 0 then 10 else 0
              case Easygoing => 8 * Offered(f, COMFORTS)
              case Challenge => 10 * Offered(f, CHALLENGES)
              case OtherMood => 0
  {
    TargetsOnce(input.purpose);
    ChallengesOnce();
    OfferedCounts(f, PurposeFeatures(input.purpose));
    OfferedCounts(f, EASYGOING_FEATURES);
    OfferedCounts(f, CHALLENGE_FEATURES);
    hide Offered, PurposeTargets, PurposeFeatures, Matching, NoDuplicates;
  }

  /** Each reason is given exactly when its fact holds; the two estimates come last, always. */
  lemma ReasonsMean(f: Facility, input: Input)
    ensures var r := Reasons(f, input);
            && (PurposeMatch in r <==> exists t :: t in PurposeTargets(input.purpose) && t in f.features)
            && (BeginnerFriendlyReason in r <==> f.beginnerFriendly && input.level == Beginner)
            && (input.mood == Focused ==> (MoodMatch in r <==> PurposeMatch in r))
            && (input.mood == Easygoing ==> (MoodMatch in r <==> exists t :: t in COMFORTS && t in f.features))
            && (input.mood == Challenge ==> (MoodMatch in r <==> exists t :: t in CHALLENGES && t in f.features))
            && (input.mood == OtherMood ==> MoodMatch !in r)
            && |r| >= 2 && r[|r| - 2..] == [SessionTime, TravelTime]
  {
    hide PurposeFeatures, PurposeTargets, EASYGOING_FEATURES, CHALLENGE_FEATURES, COMFORTS, CHALLENGES;
    SameTargets(input.purpose);
    var purpose := if exists t :: t in PurposeFeatures(input.purpose) && t in f.features then [PurposeMatch] else [];
    var beginner := if f.beginnerFriendly && input.level == Beginner then [BeginnerFriendlyReason] else [];
    var mood := if exists t :: t in MoodTargets(input.mood, input.purpose) && t in f.features then [MoodMatch] else [];
    assert Reasons(f, input) == purpose + beginner + mood + [SessionTime, TravelTime];
  }

  lemma SameTargets(purpose: Purpose)
    ensures forall t :: t in PurposeFeatures(purpose) <==> t in PurposeTargets(purpose)
    ensures forall t :: t in EASYGOING_FEATURES <==> t in COMFORTS
    ensures forall t :: t in CHALLENGE_FEATURES <==> t in CHALLENGES
  {
    hide PurposeFeatures, PurposeTargets, EASYGOING_FEATURES, CHALLENGE_FEATURES, COMFORTS, CHALLENGES, NoDuplicates;
    TargetsOnce(purpose);
    ChallengesOnce();
    InElements(PurposeFeatures(purpose));
    InElements(EASYGOING_FEATURES);
    InElements(CHALLENGE_FEATURES);
  }

  lemma InElements(targets: seq<string>)
    ensures forall t :: t in targets <==> t in Elements(targets)
  {
  }

  // ---------- the list runs from the best down ----------

  function ItemScore(item: Item, input: Input): int
    requires item.skateMinutes >= 0
  {
    Score(item.facility, input, item.travelMinutes, item.skateMinutes)
  }

  lemma CandidateScore(f: Facility, table: Table, input: Input, now: int)
    requires Candidate(f, table, input, now).Some?
    ensures var s := Candidate(f, table, input, now).value;
            s.item.facility == f && s.item.skateMinutes >= 0 && s.score == ItemScore(s.item, input)
  {
    hide FacilityClose, Score, Reasons;
  }

  /** a may be listed above b: a higher score, or the same and nearer, or the same and the smaller ID. */
  ghost predicate NotWorse(a: Item, b: Item, input: Input)
    requires a.skateMinutes >= 0 && b.skateMinutes >= 0
  {
    || ItemScore(a, input) > ItemScore(b, input)
    || (ItemScore(a, input) == ItemScore(b, input)
        && (a.distanceKm < b.distanceKm || (a.distanceKm == b.distanceKm && StringLess(a.facility.id, b.facility.id))))
  }

  lemma BeforeIsNotWorse(a: Scored, b: Scored, input: Input)
    requires ScoredBefore(a, b) && a.item.skateMinutes >= 0 && b.item.skateMinutes >= 0
    requires a.score == ItemScore(a.item, input) && b.score == ItemScore(b.item, input)
    ensures NotWorse(a.item, b.item, input)
  {
    hide ItemScore;
  }

  lemma AllScored(fs: set<Facility>, table: Table, input: Input, now: int)
    ensures forall s | s in CandidateSet(fs, table, input, now) ::
              s.item.skateMinutes >= 0 && s.score == ItemScore(s.item, input)
  {
    hide Candidate, ItemScore;
    forall f | f in fs && Candidate(f, table, input, now).Some? { CandidateScore(f, table, input, now); }
  }

  /** The items of an answer, and what they beat: an unlisted candidate is never better than a listed one. */
  ghost predicate BestDown(listed: seq<Item>, c: set<Scored>, input: Input) {
    && (forall item | item in listed :: item.skateMinutes >= 0)
    && (forall s | s in c :: s.item.skateMinutes >= 0)
    && (forall i, j | 0 <= i < j < |listed| :: NotWorse(listed[i], listed[j], input))
    && (forall s | s in c && s.item !in listed :: |listed| == 3 && forall item | item in listed :: NotWorse(item, s.item, input))
  }

  lemma AnswerRunsDown(fs: set<Facility>, table: Table, input: Input, now: int)
    requires KeyedById(fs)
    ensures BestDown(Respond(fs, table, input, now).recommendations, CandidateSet(fs, table, input, now), input)
  {
    AnswerIsTop(fs, table, input, now);
    AllScored(fs, table, input, now);
    var c, listed := CandidateSet(fs, table, input, now), Respond(fs, table, input, now).recommendations;
    hide CandidateSet, Respond, Lists;
    var top :| Lists(c, top) && listed == Items(top);
    TopRunsDown(c, top, input);
  }

  lemma TopRunsDown(c: set<Scored>, top: seq<Scored>, input: Input)
    requires Lists(c, top)
    requires forall s | s in c :: s.item.skateMinutes >= 0 && s.score == ItemScore(s.item, input)
    ensures BestDown(Items(top), c, input)
  {
    hide ScoredBefore, NotWorse, ItemScore;
    var listed := Items(top);
    assert forall i | 0 <= i < |top| :: top[i] in Elements(top) && top[i] in c && listed[i] == top[i].item;
    forall i, j | 0 <= i < j < |listed|
      ensures NotWorse(listed[i], listed[j], input)
    {
      BeforeIsNotWorse(top[i], top[j], input);
    }
    forall s | s in c && s.item !in listed
      ensures |listed| == 3 && forall item | item in listed :: NotWorse(item, s.item, input)
    {
      LeftOut(c, top, s);
      forall i | 0 <= i < |top|
        ensures NotWorse(listed[i], s.item, input)
      {
        BeforeIsNotWorse(top[i], s, input);
      }
    }
  }

  lemma LeftOut(c: set<Scored>, top: seq<Scored>, s: Scored)
    requires Lists(c, top) && s in c && s.item !in Items(top)
    ensures s !in top && |top| == 3 && forall x | x in top :: ScoredBefore(x, s)
  {
    hide ScoredBefore;
    assert s !in top by {
      assert forall i | 0 <= i < |top| :: Items(top)[i] == top[i].item;
    }
    if |top| != 3 {
      assert |top| == |c|;
      ElementsAtMost(top);
      SortedSize(c, top);
      SubsetOfSameSize(Elements(top), c);
    }
  }

  lemma ElementsAtMost(top: seq<Scored>)
    ensures forall s :: s in top <==> s in Elements(top)
  {
  }

  lemma SortedSize(c: set<Scored>, top: seq<Scored>)
    requires Lists(c, top)
    ensures |Elements(top)| == |top|
  {
    hide ScoredBefore;
    forall i, j | 0 <= i < j < |top|
      ensures top[i] != top[j]
    {
      NeverBeforeItself(top[i]);
    }
    NoDuplicatesCardinality(top);
  }

  lemma NeverBeforeItself(s: Scored)
    ensures !ScoredBefore(s, s)
  {
    StringLessIrreflexive(s.item.facility.id);
  }

  // ---------- no place left out was better ----------

  /** What the engine asks its provider: from the input's coordinates, now, to every eligible place in ID order. */
  lemma EngineAsks(catalog: Catalog, input: Input, now: int)
    requires Keyed(catalog) && ValidInput(input)
    ensures var eligible := EligibleAmong(Listing(catalog, "skateboard"), input, now);
            var r := TravelRequest(input, eligible, now);
            && r.origin.latitude == input.latitude.value && r.origin.longitude == input.longitude.value
            && r.transport == input.transport && r.departureAt == Some(now)
            && |r.destinations| == |eligible|
            && (forall i | 0 <= i < |eligible| ::
                  r.destinations[i].facilityId == eligible[i].id && r.destinations[i].location == eligible[i].location)
            && (forall i, j | 0 <= i < j < |eligible| :: StringLess(eligible[i].id, eligible[j].id))
            && (forall f :: f in eligible <==> f in catalog.Values && "skateboard" in f.activities.Values() && Welcome(f, input, now))
  {
    EligibleListing(catalog, input, now);
    hide Welcome, Eligible, EligibleAmong;
    var eligible := EligibleAmong(Listing(catalog, "skateboard"), input, now);
    forall f
      ensures f in eligible <==> f in catalog.Values && "skateboard" in f.activities.Values() && Welcome(f, input, now)
    {
      EligibleIsWelcome(f, input, now);
      assert f in eligible <==> f in Elements(eligible);
    }
  }

  /** The place is within reach: an estimate within a third of the time, open on arrival, not closed that day. */
  ghost predicate WithinReach(f: Facility, e: Travel.Estimate, input: Input, now: int) {
    && e.facilityId == f.id && 3 * e.travelMinutes <= input.availableMinutes
    && !ClosedDay(f.closures, DateOf(DayOf(now + e.travelMinutes)))
    && LatestClose(f.hours, now + e.travelMinutes).Some?
  }

  /** The minutes of skating such a place leaves. */
  function SkateTime(f: Facility, e: Travel.Estimate, input: Input, now: int): int {
    var close := LatestClose(f.hours, now + e.travelMinutes);
    var untilClose := if close.None? then 0 else close.value - (now + e.travelMinutes);
    var untilReturn := input.availableMinutes - 2 * e.travelMinutes;
    if untilClose < untilReturn then untilClose else untilReturn
  }

  /** The candidate of f for the estimate e. */
  ghost predicate CandidateOf(r: Option<Scored>, f: Facility, e: Travel.Estimate, input: Input, now: int) {
    && r.Some? && r.value.item.facility == f && r.value.item.travelMinutes == e.travelMinutes
    && r.value.item.skateMinutes == SkateTime(f, e, input, now) > 0
  }

  lemma ReachableIsCandidate(f: Facility, table: Table, input: Input, now: int)
    requires ValidInput(input) && f.id in table && WithinReach(f, table[f.id], input, now)
    ensures CandidateOf(Candidate(f, table, input, now), f, table[f.id], input, now)
  {
    hide LatestClose, ClosedDay, Score, Reasons;
    SkateFilterNeverFires(f, table, input, now);
  }

  /** e is one of the provider's estimates for what the engine asks. */
  ghost predicate Estimated(catalog: Catalog, provider: Travel.Provider, input: Input, now: int, e: Travel.Estimate)
    requires Keyed(catalog) && ValidInput(input)
  {
    var answer := provider(TravelRequest(input, EligibleAmong(Listing(catalog, "skateboard"), input, now), now));
    answer.Success? && DistinctEstimates(answer.value) && e in answer.value
  }

  /** The place is listed, or three are that all score at least as much. */
  ghost predicate ListedOrBeaten(listed: seq<Item>, f: Facility, score: int, input: Input) {
    || (exists item :: item in listed && item.facility == f)
    || (|listed| == 3 && forall item | item in listed :: item.skateMinutes >= 0 && ItemScore(item, input) >= score)
  }

  /**
   For every catalog, provider, input and clock: a place of the catalog that may be
   recommended and is within reach is either listed, or three places are listed that all
   score at least as much.
   */
  lemma NothingBetterLeftOut(catalog: Catalog, provider: Travel.Provider, input: Input, clock: int, f: Facility, e: Travel.Estimate)
    requires Keyed(catalog) && ValidInput(input) && Estimated(catalog, provider, input, clock / 60, e)
    requires f in catalog.Values && "skateboard" in f.activities.Values()
    requires Welcome(f, input, clock / 60) && WithinReach(f, e, input, clock / 60)
    ensures var minutes, answer := SkateTime(f, e, input, clock / 60), Recommended(catalog, provider, input, clock);
            minutes > 0 && answer.Success?
            && ListedOrBeaten(answer.value.recommendations, f, Score(f, input, e.travelMinutes, minutes), input)
  {
    var now := clock / 60;
    var eligible := EligibleAmong(Listing(catalog, "skateboard"), input, now);
    hide LatestClose, ClosedDay, EligibleAmong, Welcome, Respond, Candidate, ItemScore, Score, SkateTime, TableOf;
    EngineAsks(catalog, input, now);
    assert f in eligible;
    var table := TableOf(provider(TravelRequest(input, eligible, now)).value);
    TableMeaning(provider(TravelRequest(input, eligible, now)).value);
    var fs := EligibleSet(catalog, input, now);
    EligibleIsKeyed(catalog, input, now);
    EligibleListing(catalog, input, now);
    assert f in Elements(eligible);
    assert table[f.id] == e;
    ReachableIsCandidate(f, table, input, now);
    AnswerRunsDown(fs, table, input, now);
    OneCandidate(fs, table, input, now, f, e);
  }

  lemma OneCandidate(fs: set<Facility>, table: Table, input: Input, now: int, f: Facility, e: Travel.Estimate)
    requires KeyedById(fs) && f in fs && CandidateOf(Candidate(f, table, input, now), f, e, input, now)
    requires BestDown(Respond(fs, table, input, now).recommendations, CandidateSet(fs, table, input, now), input)
    ensures SkateTime(f, e, input, now) > 0
    ensures ListedOrBeaten(Respond(fs, table, input, now).recommendations, f,
                           Score(f, input, e.travelMinutes, SkateTime(f, e, input, now)), input)
  {
    hide Respond, Candidate, Score, SkateTime;
    var own := Candidate(f, table, input, now).value;
    assert own in CandidateSet(fs, table, input, now);
    assert ItemScore(own.item, input) == Score(f, input, e.travelMinutes, SkateTime(f, e, input, now));
  }
}
