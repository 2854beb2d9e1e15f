/**
 What the bot client accepts, said without its own checks (internal/botsearch/response.go:36-200):
 the answers it passes on, the bodies it reads them from, and what a member's name means.
 */
module ClientLaws {
  import opened Wrappers
  import opened Ordering
  import opened Facilities
  import opened NearbyInput
  import opened NearbySearch
  import opened WireShape
  import opened WireStruct
  import opened RecordWire
  import opened FacilityWire
  import opened WireEncoding
  import opened BotResponse
  import opened BotClient
  import Text

  // ---------- the answers passed on ----------

  /** A text that shows something, at most so many runes, without control characters. */
  ghost predicate ShortText(s: string, runes: nat) {
    (exists c :: c in s && !Text.IsSpace(c)) && |s| <= runes && forall c | c in s :: !Text.IsControl(c)
  }

  /** A spot the client would show for the question: a sound record, within the radius, of the genre, of known hours. */
  ghost predicate Showable(m: Match, input: Input) {
    var spot := m.facility;
    && 0.0 <= m.distanceKm <= input.radiusKm && ValidFacility(spot)
    && "skateboard" in spot.activities.Values() && (spot.genre == Skatepark || spot.genre == Street)
    && (input.genre == "skatepark" ==> spot.genre == Skatepark) && (input.genre == "street" ==> spot.genre == Street)
    && spot.hoursStatus != Unknown && spot.generalUse != ScheduleCheckRequired
  }

  /** Nearest first, equally near ones by ID, none twice. */
  ghost predicate InOrder(ms: seq<Match>) {
    forall i, j | 0 <= i < j < |ms| ::
      && ms[i].facility.id != ms[j].facility.id
      && (ms[i].distanceKm < ms[j].distanceKm
          || (ms[i].distanceKm == ms[j].distanceKm && StringLess(ms[i].facility.id, ms[j].facility.id)))
  }

  /** The status says what is there: spots only when ok, two to five captions only when ambiguous. */
  ghost predicate SaysWhatIsThere(r: Response, input: Input) {
    match r.status
    case Ok => 1 <= |r.matches| <= input.limit && r.candidates == []
    case LocationAmbiguous =>
      r.matches == [] && 2 <= |r.candidates| <= 5 && forall c | c in r.candidates :: ShortText(c, 300)
    case NoMatches => r.matches == [] && r.candidates == []
    case DataUnavailable => r.matches == [] && r.candidates == []
    case LocationNotFound => r.matches == [] && r.candidates == []
    case OtherStatus => false
  }

  /** An answer that keeps every promise of the API for the question. */
  ghost predicate Promised(r: Response, input: Input) {
    && r.distanceKind == "straight_line" && r.limit == input.limit && r.radiusKm == input.radiusKm && r.sort == input.sort
    && ShortText(r.availabilityNote, 1000)
    && SaysWhatIsThere(r, input)
    && (forall m | m in r.matches :: Showable(m, input))
    && InOrder(r.matches)
  }

  lemma ShortTextIff(s: string, runes: nat)
    ensures ShortText(s, runes) <==> Text.Presentable(s, runes)
  {
    Text.TrimSpaceShowsIff(s);
    hide Text.TrimSpace, Text.IsSpace, Text.IsControl;
  }

  lemma ShowableIff(m: Match, input: Input)
    requires input.genre in {"", "skatepark", "street"}
    ensures Showable(m, input) <==> GoodMatch(WireMatch(Some(m.facility), Some(m.distanceKm)), input) && ValidFacility(m.facility)
  {
    hide ValidFacility;
  }

  lemma InOrderIff(ms: seq<Match>)
    ensures InOrder(ms) <==> StrictlySorted(MatchBefore, ms) && DistinctIds(Spots(ms))
  {
    if StrictlySorted(MatchBefore, ms) && DistinctIds(Spots(ms)) {
      forall i, j | 0 <= i < j < |ms|
        ensures ms[i].facility.id != ms[j].facility.id && MatchBefore(ms[i], ms[j])
      {
        assert Spots(ms)[i].id != Spots(ms)[j].id;
      }
    }
  }

  lemma StatusIff(r: Response, input: Input)
    ensures SaysWhatIsThere(r, input) <==> StatusFits(OnTheWire(r), input)
  {
    forall c | c in r.candidates { ShortTextIff(c, 300); }
    hide ShortText, Text.Presentable;
    assert |OnTheWire(r).matches.value| == |r.matches|;
  }

  /** The client's checks, on an answer as it travels, are the promises. */
  lemma PromisedIff(r: Response, input: Input)
    requires input.genre in {"", "skatepark", "street"}
    ensures Promised(r, input) <==> Trustworthy(OnTheWire(r), input)
  {
    var w := OnTheWire(r);
    ShortTextIff(r.availabilityNote, 1000);
    StatusIff(r, input);
    InOrderIff(r.matches);
    EachPromised(r.matches, input);
    hide ShortText, Text.Presentable, StatusFits, SaysWhatIsThere, InOrder, MatchBefore, Showable, GoodMatch;
    hide DistinctIds, AllAcceptable, PlainAll, WireMatches, Spots, StrictlySorted;
    PlainBack(r.matches);
  }

  lemma PlainBack(ms: seq<Match>)
    ensures (forall w | w in WireMatches(ms) :: w.facility.Some? && w.distanceKm.Some?) && PlainAll(WireMatches(ms)) == ms
  {
  }

  lemma EachPromised(ms: seq<Match>, input: Input)
    requires input.genre in {"", "skatepark", "street"}
    ensures (forall m | m in ms :: Showable(m, input))
       <==> (forall w | w in WireMatches(ms) :: GoodMatch(w, input)) && AllAcceptable(Spots(ms), None)
  {
    hide Showable, GoodMatch, ValidFacility;
    forall m | m in ms { ShowableIff(m, input); }
    assert forall i | 0 <= i < |ms| :: ms[i] in ms && WireMatches(ms)[i] in WireMatches(ms) && Spots(ms)[i] in Spots(ms);
  }

  /** An accepted wire answer is the wire form of what is passed on. */
  lemma AcceptedTravels(w: Wire, input: Input)
    requires Trustworthy(w, input)
    ensures OnTheWire(Unwrapped(w)) == w
  {
    hide StatusFits, MatchBefore, AllAcceptable, DistinctIds;
    var ms := w.matches.value;
    forall i | 0 <= i < |ms|
      ensures WireMatches(PlainAll(ms))[i] == ms[i]
    {
      assert ms[i] in ms;
    }
    assert WireMatches(PlainAll(ms)) == ms;
  }

  /** The tokens are a body of the answer: one tree of the right shape that the typed decoder reads as the answer. */
  ghost predicate BodyOf(tokens: seq<Token>, r: Response, n: Notation) {
    exists j :: IsBody(tokens, ResponseShape(), j) && ReadWire(j, n) == Some(OnTheWire(r))
  }

  /**
   For every stream of tokens, whatever it holds: the client passes an answer on exactly when
   the stream is a body of that answer and the answer keeps every promise for the question.
   */
  lemma ClientAcceptsIff(tokens: seq<Token>, input: Input, n: Notation, r: Response)
    requires input.genre in {"", "skatepark", "street"}
    ensures ClientReads(tokens, input, n) == Some(r) <==> BodyOf(tokens, r, n) && Promised(r, input)
  {
    hide IsBody, ResponseShape, ReadWire, OnTheWire, Unwrapped, Trustworthy, Promised;
    PromisedIff(r, input);
    UnwrappedBack(r);
    if ClientReads(tokens, input, n) == Some(r) {
      var j :| IsBody(tokens, ResponseShape(), j);
      forall i | IsBody(tokens, ResponseShape(), i) { OneBody(tokens, i, j); }
      AcceptedTravels(ReadWire(j, n).value, input);
    }
    if BodyOf(tokens, r, n) && Promised(r, input) {
      var j :| IsBody(tokens, ResponseShape(), j) && ReadWire(j, n) == Some(OnTheWire(r));
      forall i | IsBody(tokens, ResponseShape(), i) { OneBody(tokens, i, j); }
    }
  }

  lemma UnwrappedBack(r: Response)
    ensures (forall m | m in OnTheWire(r).matches.value :: m.facility.Some? && m.distanceKm.Some?) && Unwrapped(OnTheWire(r)) == r
  {
    hide Trustworthy;
    WireRoundTrip(r);
  }
}
