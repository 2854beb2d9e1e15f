/**
 The bot client's decoder of a search answer (internal/botsearch/response.go:36-113), after
 the shape check: it re-checks what the API promises before anything is shown.
 */
module BotResponse {
  import opened Wrappers
  import opened Ordering
  import opened Facilities
  import opened NearbyInput
  import opened NearbySearch
  import Text

  const MAX_NOTE_LENGTH := 1000

  /** A match as decoded: either part is None when absent, the distance also when not finite. */
  datatype WireMatch = WireMatch(facility: Option<Facility>, distanceKm: Option<real>)

  /** matches is None when the member is absent or null. */
  datatype Wire = Wire(
    status: Status,
    matches: Option<seq<WireMatch>>,
    candidates: seq<string>,
    distanceKind: string,
    limit: int,
    radiusKm: real,
    sort: string,
    availabilityNote: string)

  // ---------- what is accepted ----------

  predicate GoodEnvelope(w: Wire, input: Input) {
    && w.matches.Some?
    && w.distanceKind == DISTANCE_KIND && w.limit == input.limit && w.radiusKm == input.radiusKm && w.sort == input.sort
    && Text.Presentable(w.availabilityNote, MAX_NOTE_LENGTH)
  }

  ghost predicate StatusFits(w: Wire, input: Input)
    requires w.matches.Some?
  {
    match w.status
    case Ok => 0 < |w.matches.value| <= input.limit && w.candidates == []
    case LocationAmbiguous =>
      w.matches.value == [] && 2 <= |w.candidates| <= 5
      && forall c | c in w.candidates :: Text.Presentable(c, MAX_PLACE_LABEL_LENGTH)
    case OtherStatus => false
    case _ => w.matches.value == [] && w.candidates == []
  }

  /** The facts about one match that the client checks. */
  predicate GoodMatch(m: WireMatch, input: Input) {
    && m.facility.Some? && m.distanceKm.Some?
    && 0.0 <= m.distanceKm.value <= input.radiusKm
    && var spot := m.facility.value;
       && (spot.genre == Skatepark || spot.genre == Street)
       && "skateboard" in spot.activities.Values()
       && (input.genre != "" ==> GenreText(spot.genre) == input.genre)
       && spot.hoursStatus != Unknown && spot.generalUse != ScheduleCheckRequired
  }

  function Plain(m: WireMatch): Match
    requires m.facility.Some? && m.distanceKm.Some?
  {
    Match(m.facility.value, m.distanceKm.value)
  }

  function PlainAll(ms: seq<WireMatch>): seq<Match>
    requires forall m | m in ms :: m.facility.Some? && m.distanceKm.Some?
  {
    seq(|ms|, i requires 0 <= i < |ms| => Plain(ms[i]))
  }

  function Spots(ms: seq<Match>): seq<Facility> {
    seq(|ms|, i requires 0 <= i < |ms| => ms[i].facility)
  }

  /** Every promise of the API that the client can check, in one place. */
  ghost predicate Trustworthy(w: Wire, input: Input) {
    && GoodEnvelope(w, input)
    && StatusFits(w, input)
    && (forall m | m in w.matches.value :: GoodMatch(m, input))
    && var ms := PlainAll(w.matches.value);
       && StrictlySorted(MatchBefore, ms)
       && AllAcceptable(Spots(ms), None) && DistinctIds(Spots(ms))
  }

  function Unwrapped(w: Wire): Response
    requires w.matches.Some? && forall m | m in w.matches.value :: m.facility.Some? && m.distanceKm.Some?
  {
    Response(w.status, PlainAll(w.matches.value), w.candidates, w.distanceKind, w.limit, w.radiusKm, w.sort, w.availabilityNote)
  }

  // ---------- the decoder ----------

  method CheckStatus(w: Wire, input: Input) returns (ok: bool)
    requires w.matches.Some?
    ensures ok <==> StatusFits(w, input)
  {
    match w.status
    case Ok =>
      return !(|w.matches.value| == 0 || |w.matches.value| > input.limit || |w.candidates| != 0);
    case LocationAmbiguous =>
      if |w.matches.value| != 0 || |w.candidates| < 2 || |w.candidates| > 5 { return false; }
      for i := 0 to |w.candidates|
        invariant forall c | c in w.candidates[..i] :: Text.Presentable(c, MAX_PLACE_LABEL_LENGTH)
      {
        assert w.candidates[..i + 1] == w.candidates[..i] + [w.candidates[i]];
        assert w.candidates[i] in w.candidates;
        if !Text.Presentable(w.candidates[i], MAX_PLACE_LABEL_LENGTH) { return false; }
      }
      assert w.candidates[..|w.candidates|] == w.candidates;
      return true;
    case OtherStatus =>
      return false;
    case _ =>
      return |w.matches.value| == 0 && |w.candidates| == 0;
  }

  /** Neighbours in order are enough: the order is transitive. */
  lemma AppendInOrder(ms: seq<Match>, m: Match)
    requires StrictlySorted(MatchBefore, ms)
    ensures StrictlySorted(MatchBefore, ms + [m]) <==> ms == [] || MatchBefore(ms[|ms| - 1], m)
  {
    StringOrder();
    var all := ms + [m];
    if ms != [] && MatchBefore(ms[|ms| - 1], m) {
      forall i | 0 <= i < |ms|
        ensures MatchBefore(ms[i], m)
      {
        if i < |ms| - 1 { assert MatchBefore(ms[i], ms[|ms| - 1]); }
      }
    }
    if ms != [] && StrictlySorted(MatchBefore, all) {
      assert MatchBefore(all[|ms| - 1], all[|ms|]);
    }
  }

  lemma PrefixIsSorted(ms: seq<Match>, k: nat)
    requires k <= |ms| && StrictlySorted(MatchBefore, ms)
    ensures StrictlySorted(MatchBefore, ms[..k])
  {
  }

  /** The loop over the matches: each one on its own, then against the one before it. */
  method CheckMatches(ws: seq<WireMatch>, input: Input) returns (r: Option<seq<Match>>)
    ensures r.Some? <==> (forall m | m in ws :: GoodMatch(m, input)) && StrictlySorted(MatchBefore, PlainAll(ws))
    ensures r.Some? ==> r.value == PlainAll(ws)
  {
    var matches: seq<Match> := [];
    for i := 0 to |ws|
      invariant forall m | m in ws[..i] :: GoodMatch(m, input)
      invariant matches == PlainAll(ws[..i]) && StrictlySorted(MatchBefore, matches)
    {
      hide GoodMatch, MatchBefore;
      assert ws[..i + 1] == ws[..i] + [ws[i]];
      assert ws[i] in ws;
      if !GoodMatch(ws[i], input) { return None; }
      GoodMatchIsWhole(ws[i], input);
      var m := Plain(ws[i]);
      AppendInOrder(matches, m);
      assert PlainAll(ws[..i + 1]) == matches + [m];
      if i > 0 {
        var previous := matches[i - 1];
        if previous.distanceKm > m.distanceKm
           || (previous.distanceKm == m.distanceKm && !StringLess(previous.facility.id, m.facility.id)) {
          Disordered(previous, m);
          WholePrefix(ws, input, i + 1);
          return None;
        }
        Ordered(previous, m);
      }
      matches := matches + [m];
    }
    assert ws[..|ws|] == ws;
    return Some(matches);
  }

  lemma GoodMatchIsWhole(m: WireMatch, input: Input)
    requires GoodMatch(m, input)
    ensures m.facility.Some? && m.distanceKm.Some?
  {
  }

  lemma Ordered(a: Match, b: Match)
    requires !(a.distanceKm > b.distanceKm || (a.distanceKm == b.distanceKm && !StringLess(a.facility.id, b.facility.id)))
    ensures MatchBefore(a, b)
  {
  }

  lemma Disordered(a: Match, b: Match)
    requires a.distanceKm > b.distanceKm || (a.distanceKm == b.distanceKm && !StringLess(a.facility.id, b.facility.id))
    ensures !MatchBefore(a, b)
  {
  }

  lemma WholePrefix(ws: seq<WireMatch>, input: Input, k: nat)
    requires k <= |ws| && forall m | m in ws[..k] :: m.facility.Some? && m.distanceKm.Some?
    ensures (forall m | m in ws :: GoodMatch(m, input)) && StrictlySorted(MatchBefore, PlainAll(ws))
            ==> StrictlySorted(MatchBefore, PlainAll(ws[..k]))
  {
    hide MatchBefore;
    if (forall m | m in ws :: GoodMatch(m, input)) && StrictlySorted(MatchBefore, PlainAll(ws)) {
      assert PlainAll(ws[..k]) == PlainAll(ws)[..k];
      PrefixIsSorted(PlainAll(ws), k);
    }
  }

  method CollectSpots(ms: seq<Match>) returns (spots: seq<Facility>)
    ensures spots == Spots(ms)
  {
    spots := [];
    for i := 0 to |ms|
      invariant spots == Spots(ms[..i])
    {
      spots := spots + [ms[i].facility];
    }
    assert ms[..|ms|] == ms;
  }

  method DecodeResponse(w: Wire, input: Input) returns (r: Option<Response>)
    ensures r.Some? <==> Trustworthy(w, input)
    ensures r.Some? ==> r.value == Unwrapped(w)
  {
    hide GoodEnvelope, StatusFits, GoodMatch, MatchBefore, AllAcceptable, DistinctIds;
    if !GoodEnvelope(w, input) { return None; }
    HasMatches(w, input);
    var statusOk := CheckStatus(w, input);
    if !statusOk { return None; }
    var matches := CheckMatches(w.matches.value, input);
    if matches.None? { return None; }
    var spots := CollectSpots(matches.value);
    var catalog := NewCatalog(spots, None);
    if catalog.Failure? { return None; }
    r := Some(Response(w.status, matches.value, w.candidates, w.distanceKind, w.limit, w.radiusKm, w.sort, w.availabilityNote));
  }

  lemma HasMatches(w: Wire, input: Input)
    requires GoodEnvelope(w, input)
    ensures w.matches.Some?
  {
  }

  // ---------- producer and consumer agree ----------

  function WireMatches(ms: seq<Match>): seq<WireMatch> {
    seq(|ms|, i requires 0 <= i < |ms| => WireMatch(Some(ms[i].facility), Some(ms[i].distanceKm)))
  }

  /** The answer as the client's typed decoder sees it: nothing lost, nothing added. */
  function OnTheWire(r: Response): Wire {
    Wire(r.status, Some(WireMatches(r.matches)), r.candidates, r.distanceKind, r.limit, r.radiusKm, r.sort,
         r.availabilityNote)
  }

  lemma WireRoundTrip(r: Response)
    ensures Unwrapped(OnTheWire(r)) == r
  {
  }

  lemma PrintableParts(a: string, b: string)
    ensures Text.HasControl(a + b) <==> Text.HasControl(a) || Text.HasControl(b)
  {
    assert forall c :: c in a + b <==> c in a || c in b;
  }

  /** The note the API sends passes the client's text check. */
  lemma NoteIsPresentable()
    ensures Text.Presentable(AVAILABILITY_NOTE, MAX_NOTE_LENGTH)
  {
    PrintableParts(NOTE_SCOPE, NOTE_NO_GUARANTEE);
    PrintableParts(NOTE_SCOPE + NOTE_NO_GUARANTEE, NOTE_ADVICE);
    assert !Text.HasControl(NOTE_SCOPE);
    assert !Text.HasControl(NOTE_NO_GUARANTEE);
    assert !Text.HasControl(NOTE_ADVICE);
    assert AVAILABILITY_NOTE[0] == NOTE_SCOPE[0];
    assert AVAILABILITY_NOTE[|AVAILABILITY_NOTE| - 1] == NOTE_ADVICE[|NOTE_ADVICE| - 1];
    Text.TrimmedIsFixed(AVAILABILITY_NOTE);
  }

  lemma EmptyIsTrusted(input: Input, status: Status)
    requires status == NoMatches || status == DataUnavailable || status == LocationNotFound
    ensures Trustworthy(OnTheWire(Envelope(input, status)), input)
  {
    NoteIsPresentable();
    hide Text.Presentable;
  }

  lemma AmbiguityIsTrusted(input: Input, places: seq<Place>)
    requires |places| > 1 && forall p | p in places :: ValidPlace(p)
    ensures Trustworthy(OnTheWire(Envelope(input, LocationAmbiguous).(candidates := Labels(Truncated(places, MAX_RESULTS)))), input)
  {
    NoteIsPresentable();
    hide Text.Presentable;
    var shown := Truncated(places, MAX_RESULTS);
    forall i | 0 <= i < |shown|
      ensures Text.Presentable(Labels(shown)[i], MAX_PLACE_LABEL_LENGTH)
    {
      assert shown[i] == places[i] && places[i] in places;
    }
  }

  /** A listed match passes every check the client makes of one match. */
  lemma ListedIsGood(f: Facility, km: real, input: Input, now: int)
    requires Wanted(f, input, now) && 0.0 <= km <= input.radiusKm
    ensures GoodMatch(WireMatch(Some(f), Some(km)), input)
  {
  }

  /** From an eligible spot in a set to its check on the wire. */
  lemma NearbyIsGood(fs: set<Facility>, center: Location, distance: Distance, input: Input, now: int, m: Match)
    requires m in MatchSet(fs, center, distance, input, now)
    requires forall f | f in fs :: 0.0 <= distance(center, f.location) <= input.radiusKm
    ensures m.facility in fs && GoodMatch(WireMatch(Some(m.facility), Some(m.distanceKm)), input)
  {
    hide Wanted, GoodMatch;
    var f :| f in fs && Wanted(f, input, now) && Match(f, distance(center, f.location)) == m;
    ListedIsGood(f, m.distanceKm, input, now);
  }

  lemma ListedIdsDistinct(all: set<Match>, ms: seq<Match>)
    requires OneMatchPerFacility(all) && Elements(ms) <= all && StrictlySorted(MatchBefore, ms)
    ensures DistinctIds(Spots(ms))
  {
    MatchOrder(all);
    hide MatchBefore;
    forall i, j | 0 <= i < j < |ms|
      ensures ms[i].facility.id != ms[j].facility.id
    {
      assert ms[i] in Elements(ms) && ms[j] in Elements(ms);
      assert MatchBefore(ms[i], ms[j]);
    }
  }

  lemma ListedAreGood(fs: set<Facility>, center: Location, distance: Distance, input: Input, now: int, listed: seq<Match>)
    requires KeyedById(fs) && forall f | f in fs :: ValidFacility(f)
    requires forall f | f in fs :: 0.0 <= distance(center, f.location) <= input.radiusKm
    requires Elements(listed) <= MatchSet(fs, center, distance, input, now) && StrictlySorted(MatchBefore, listed)
    ensures forall m | m in listed :: GoodMatch(WireMatch(Some(m.facility), Some(m.distanceKm)), input)
    ensures AllAcceptable(Spots(listed), None) && DistinctIds(Spots(listed))
  {
    hide MatchBefore, GoodMatch, ValidFacility, Wanted;
    ListedIdsDistinct(MatchSet(fs, center, distance, input, now), listed);
    forall m | m in listed
      ensures m.facility in fs && GoodMatch(WireMatch(Some(m.facility), Some(m.distanceKm)), input)
    {
      assert m in Elements(listed);
      NearbyIsGood(fs, center, distance, input, now, m);
    }
    forall f | f in Spots(listed)
      ensures ValidFacility(f)
    {
      var i :| 0 <= i < |listed| && Spots(listed)[i] == f;
      assert listed[i] in listed;
    }
  }

  lemma TrustedWhenGood(input: Input, listed: seq<Match>)
    requires 0 < |listed| <= input.limit && StrictlySorted(MatchBefore, listed)
    requires forall m | m in listed :: GoodMatch(WireMatch(Some(m.facility), Some(m.distanceKm)), input)
    requires AllAcceptable(Spots(listed), None) && DistinctIds(Spots(listed))
    ensures Trustworthy(OnTheWire(Envelope(input, Ok).(matches := listed)), input)
  {
    NoteIsPresentable();
    hide MatchBefore, GoodMatch, AllAcceptable, DistinctIds, Text.Presentable;
    var w := OnTheWire(Envelope(input, Ok).(matches := listed));
    assert forall i | 0 <= i < |listed| :: listed[i] in listed;
    assert PlainAll(w.matches.value) == listed;
  }

  lemma ListIsTrusted(fs: set<Facility>, center: Location, distance: Distance, input: Input, now: int)
    requires KeyedById(fs) && ValidInput(input) && forall f | f in fs :: ValidFacility(f)
    requires forall f | f in fs :: 0.0 <= distance(center, f.location) <= input.radiusKm
    ensures Trustworthy(OnTheWire(Near(fs, center, distance, input, now)), input)
  {
    hide MatchSet, MatchBefore, ValidFacility, Trustworthy, IsNearbySearchable;
    ListedFirst(fs, center, distance, input, now);
    var r := Near(fs, center, distance, input, now);
    if r.matches == [] {
      EmptyIsTrusted(input, EmptyStatus(fs, now));
    } else {
      ListedAreGood(fs, center, distance, input, now, r.matches);
      TrustedWhenGood(input, r.matches);
    }
  }

  /**
   Every answer the search gives without an error, for any valid catalog, places, input
   and clock, is accepted by the client for the same input and comes back unchanged.
   */
  lemma ConsumerAcceptsProducer(catalog: Catalog, places: Option<seq<Place>>, distance: Distance, input: Input, now: int)
    requires ValidCatalog(catalog) && forall a, b :: distance(a, b) >= 0.0
    ensures var found := Found(catalog, places, distance, input, now);
            found.Success? ==> Trustworthy(OnTheWire(found.value), input) && Unwrapped(OnTheWire(found.value)) == found.value
  {
    hide Trustworthy, ValidPlace, ValidFacility, Near;
    var found := Found(catalog, places, distance, input, now);
    if found.Success? {
      WireRoundTrip(found.value);
      if places.value == [] {
        EmptyIsTrusted(input, LocationNotFound);
      } else if |places.value| > 1 {
        AmbiguityIsTrusted(input, places.value);
      } else {
        ListIsTrusted(InRadius(catalog, places.value[0].location, distance, input), places.value[0].location, distance, input, now);
      }
    }
  }
}
