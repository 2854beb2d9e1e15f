/** Travel-time providers (internal/travel): the Google matrix, the straight line, the fallback. */
module Travel {
  import opened Wrappers
  import opened Ordering
  import opened Facilities

  datatype Transport = PublicTransit | Car | Bicycle | Walk | OtherTransport

  datatype Destination = Destination(facilityId: string, location: Location)

  /** departureAt is None for the zero time. */
  datatype Request = Request(origin: Location, destinations: seq<Destination>, transport: Transport, departureAt: Option<int>)

  datatype Kind = GoogleRoutes | StraightLine | OtherKind

  datatype Estimate = Estimate(facilityId: string, distanceKm: real, travelMinutes: int, kind: Kind)

  datatype TravelError = InvalidRequest | ProviderUnavailable

  type Answer = Result<seq<Estimate>, TravelError>

  /** A provider; the network behind it is a function of the request. */
  type Provider = Request -> Answer

  const MAX_DESTINATIONS := 100

  predicate ValidLocation(l: Location) {
    -90.0 <= l.latitude <= 90.0 && -180.0 <= l.longitude <= 180.0
  }

  ghost predicate DistinctDestinations(ds: seq<Destination>) {
    forall i, j | 0 <= i < j < |ds| :: ds[i].facilityId != ds[j].facilityId
  }

  ghost predicate ValidRequest(r: Request) {
    && ValidLocation(r.origin)
    && 1 <= |r.destinations| <= MAX_DESTINATIONS
    && r.transport != OtherTransport
    && r.departureAt.Some?
    && (forall d | d in r.destinations :: d.facilityId != "" && ValidLocation(d.location))
    && DistinctDestinations(r.destinations)
  }

  method ValidateRequest(r: Request) returns (ok: bool)
    ensures ok <==> ValidRequest(r)
  {
    if !ValidLocation(r.origin) { return false; }
    if |r.destinations| == 0 || |r.destinations| > MAX_DESTINATIONS { return false; }
    if r.transport == OtherTransport { return false; }
    if r.departureAt.None? { return false; }
    var ds := r.destinations;
    var seen: set<string> := {};
    for i := 0 to |ds|
      invariant forall d | d in ds[..i] :: d.facilityId != "" && ValidLocation(d.location)
      invariant DistinctDestinations(ds[..i])
      invariant forall id :: id in seen <==> exists k :: 0 <= k < i && ds[k].facilityId == id
    {
      assert ds[..i + 1] == ds[..i] + [ds[i]];
      var destination := ds[i];
      if destination.facilityId == "" || !ValidLocation(destination.location) { return false; }
      if destination.facilityId in seen {
        return false;
      }
      seen := seen + {destination.facilityId};
    }
    assert ds[..|ds|] == ds;
    return true;
  }

  // ---------- Google Routes: filling slots by index ----------

  /** One matrix element; duration is None when its text is not a duration (seconds otherwise). */
  datatype Element = Element(
    originIndex: int,
    destinationIndex: int,
    duration: Option<real>,
    distanceMeters: int,
    statusCode: int,
    routeExists: bool)

  predicate UsableElement(e: Element, count: nat) {
    && e.originIndex == 0 && 0 <= e.destinationIndex < count
    && e.routeExists && e.statusCode == 0
    && e.duration.Some? && e.duration.value >= 0.0 && e.distanceMeters >= 0
  }

  function Ceiling(x: real): int {
    -((-x).Floor)
  }

  lemma CeilingBounds(x: real)
    ensures Ceiling(x) as real - 1.0 < x <= Ceiling(x) as real
  {
  }

  /** The estimate is the destination's; its minutes are the fewest that cover the duration, its kilometres the metres. */
  lemma MinutesCoverDuration(d: Destination, e: Element)
    requires e.duration.Some?
    ensures var estimate := EstimateFor(d, e);
            var minutes := estimate.travelMinutes as real;
            && 60.0 * (minutes - 1.0) < e.duration.value <= 60.0 * minutes
            && estimate.distanceKm * 1000.0 == e.distanceMeters as real
            && estimate.facilityId == d.facilityId && estimate.kind == GoogleRoutes
  {
    CeilingBounds(e.duration.value / 60.0);
  }

  function EstimateFor(d: Destination, e: Element): Estimate
    requires e.duration.Some?
  {
    Estimate(d.facilityId, e.distanceMeters as real / 1000.0, Ceiling(e.duration.value / 60.0), GoogleRoutes)
  }

  ghost predicate DistinctIndexes(es: seq<Element>) {
    forall i, j | 0 <= i < j < |es| :: es[i].destinationIndex != es[j].destinationIndex
  }

  /** The elements the mapping accepts: as many as destinations, all usable, no index twice. */
  ghost predicate CompleteMatrix(count: nat, es: seq<Element>) {
    |es| == count && (forall e | e in es :: UsableElement(e, count)) && DistinctIndexes(es)
  }

  /** Slot i of the estimates is filled from the element that names destination i. */
  ghost predicate Fills(ds: seq<Destination>, es: seq<Element>, estimates: seq<Estimate>) {
    && |estimates| == |ds|
    && forall e | e in es :: UsableElement(e, |ds|) && estimates[e.destinationIndex] == EstimateFor(ds[e.destinationIndex], e)
  }

  ghost function IndexesOf(es: seq<Element>): set<int> {
    set e | e in es :: e.destinationIndex
  }

  lemma {:induction false} IndexCount(es: seq<Element>)
    requires DistinctIndexes(es)
    ensures |IndexesOf(es)| == |es|
  {
    if es != [] {
      var n := |es| - 1;
      assert es == es[..n] + [es[n]];
      IndexCount(es[..n]);
      assert IndexesOf(es) == IndexesOf(es[..n]) + {es[n].destinationIndex};
      assert es[n].destinationIndex !in IndexesOf(es[..n]);
    }
  }

  /** The slot numbers 0 to n - 1. */
  ghost function Slots(n: nat): (r: set<int>)
    ensures |r| == n && forall i :: i in r <==> 0 <= i < n
  {
    if n == 0 then {} else Slots(n - 1) + {n - 1}
  }

  /** Pigeonhole: as many distinct indexes as slots leave no slot out. */
  lemma EverySlotNamed(count: nat, es: seq<Element>, i: nat)
    requires CompleteMatrix(count, es) && i < count
    ensures exists e :: e in es && e.destinationIndex == i
  {
    IndexCount(es);
    SubsetOfSameSize(IndexesOf(es), Slots(count));
    assert i in IndexesOf(es);
  }

  /** A successful mapping leaves no zero estimate: every slot holds its own destination's. */
  lemma EverySlotFilled(ds: seq<Destination>, es: seq<Element>, estimates: seq<Estimate>, i: nat)
    requires CompleteMatrix(|ds|, es) && Fills(ds, es, estimates) && i < |ds|
    ensures estimates[i].facilityId == ds[i].facilityId && estimates[i].kind == GoogleRoutes
    ensures estimates[i].travelMinutes >= 0 && estimates[i].distanceKm >= 0.0
    ensures exists e :: e in es && e.destinationIndex == i && estimates[i] == EstimateFor(ds[i], e)
  {
    EverySlotNamed(|ds|, es, i);
    var e :| e in es && e.destinationIndex == i;
    assert -(e.duration.value / 60.0) <= 0.0;
    assert estimates[i] == EstimateFor(ds[i], e);
  }

  /** The answer's element order is irrelevant, both to acceptance and to the estimates. */
  lemma ElementOrderIrrelevant(ds: seq<Destination>, a: seq<Element>, b: seq<Element>, ra: seq<Estimate>, rb: seq<Estimate>)
    requires multiset(a) == multiset(b)
    requires CompleteMatrix(|ds|, a) && Fills(ds, a, ra) && Fills(ds, b, rb)
    ensures CompleteMatrix(|ds|, b) && ra == rb
  {
    PermutedElements(a, b);
    PermutedIndexes(|ds|, a, b);
    forall i | 0 <= i < |ds|
      ensures ra[i] == rb[i]
    {
      EverySlotNamed(|ds|, a, i);
      var e :| e in a && e.destinationIndex == i;
      assert e in b;
    }
  }

  lemma PermutedIndexes(count: nat, a: seq<Element>, b: seq<Element>)
    requires multiset(a) == multiset(b) && CompleteMatrix(count, a)
    ensures CompleteMatrix(count, b)
  {
    PermutedElements(a, b);
    assert NoDuplicates(a);
    assert NoDuplicates(b);
    forall i, j | 0 <= i < j < |b|
      ensures b[i].destinationIndex != b[j].destinationIndex
    {
      assert b[i] in a && b[j] in a;
      var k :| 0 <= k < |a| && a[k] == b[i];
      var l :| 0 <= l < |a| && a[l] == b[j];
      assert k != l;
    }
  }

  method MapGoogleElements(ds: seq<Destination>, es: seq<Element>) returns (r: Answer)
    ensures r.Success? <==> CompleteMatrix(|ds|, es)
    ensures r.Success? ==> Fills(ds, es, r.value)
    ensures r.Failure? ==> r.error == ProviderUnavailable
  {
    if |es| != |ds| {
      return Failure(ProviderUnavailable);
    }
    var estimates := new Estimate[|ds|](_ => Estimate("", 0.0, 0, OtherKind));
    var seen := new bool[|ds|](_ => false);
    for i := 0 to |es|
      invariant forall e | e in es[..i] :: UsableElement(e, |ds|)
      invariant DistinctIndexes(es[..i])
      invariant forall k | 0 <= k < |ds| :: seen[k] <==> k in IndexesOf(es[..i])
      invariant Fills(ds, es[..i], estimates[..])
    {
      assert es[..i + 1] == es[..i] + [es[i]];
      var element := es[i];
      assert element in es;
      if element.originIndex != 0 || element.destinationIndex < 0 || element.destinationIndex >= |ds| {
        return Failure(ProviderUnavailable);
      }
      if seen[element.destinationIndex] {
        var e :| e in es[..i] && e.destinationIndex == element.destinationIndex;
        return Failure(ProviderUnavailable);
      }
      if !element.routeExists || element.statusCode != 0 {
        return Failure(ProviderUnavailable);
      }
      if element.duration.None? || element.duration.value < 0.0 || element.distanceMeters < 0 {
        return Failure(ProviderUnavailable);
      }
      assert element.destinationIndex !in IndexesOf(es[..i]);
      assert IndexesOf(es[..i + 1]) == IndexesOf(es[..i]) + {element.destinationIndex};
      seen[element.destinationIndex] := true;
      estimates[element.destinationIndex] := EstimateFor(ds[element.destinationIndex], element);
    }
    assert es[..|es|] == es;
    return Success(estimates[..]);
  }

  // ---------- the providers as functions of the request ----------

  /** The estimates a complete matrix stands for. */
  ghost function Filled(ds: seq<Destination>, es: seq<Element>): (r: seq<Estimate>)
    requires CompleteMatrix(|ds|, es)
    ensures Fills(ds, es, r)
  {
    var r := seq(|ds|, i requires 0 <= i < |ds| => EstimateFor(ds[i], NamedElement(|ds|, es, i)));
    assert Fills(ds, es, r) by {
      forall e | e in es
        ensures UsableElement(e, |ds|) && r[e.destinationIndex] == EstimateFor(ds[e.destinationIndex], e)
      {
        var f := NamedElement(|ds|, es, e.destinationIndex);
        var k :| 0 <= k < |es| && es[k] == e;
        var l :| 0 <= l < |es| && es[l] == f;
        assert k == l;
      }
    }
    r
  }

  ghost function NamedElement(count: nat, es: seq<Element>, i: nat): (e: Element)
    requires CompleteMatrix(count, es) && i < count
    ensures e in es && e.destinationIndex == i
  {
    EverySlotNamed(count, es, i);
    var e :| e in es && e.destinationIndex == i;
    e
  }

  ghost function Mapped(ds: seq<Destination>, es: seq<Element>): Answer {
    if CompleteMatrix(|ds|, es) then Success(Filled(ds, es)) else Failure(ProviderUnavailable)
  }

  /** The Google provider over whatever elements the service answers (None: no usable HTTP answer). */
  ghost function GoogleMatrix(service: Request -> Option<seq<Element>>, r: Request): Answer {
    if !ValidRequest(r) then Failure(InvalidRequest)
    else if service(r).None? then Failure(ProviderUnavailable)
    else Mapped(r.destinations, service(r).value)
  }

  datatype Profile = Profile(speedKmPerHour: real, overheadMinutes: int)

  function ProfileFor(t: Transport): Profile {
    match t
    case PublicTransit => Profile(22.0, 12)
    case Car => Profile(30.0, 8)
    case Bicycle => Profile(13.0, 3)
    case Walk => Profile(4.5, 0)
    case OtherTransport => Profile(0.0, 0)
  }

  /** The straight-line estimate; distance is the great-circle distance. */
  function StraightEstimate(distance: (Location, Location) -> real, r: Request, d: Destination): Estimate
    requires r.transport != OtherTransport
  {
    var km := distance(r.origin, d.location);
    var p := ProfileFor(r.transport);
    Estimate(d.facilityId, km, Ceiling(km / p.speedKmPerHour * 60.0) + p.overheadMinutes, StraightLine)
  }

  /** The minutes are the fewest that cover the distance at the speed. */
  ghost predicate FewestMinutes(km: real, kmPerHour: real, minutes: int) {
    kmPerHour * (minutes as real - 1.0) < 60.0 * km <= kmPerHour * minutes as real
  }

  lemma CeilingIsFewest(km: real, kmPerHour: real)
    requires kmPerHour > 0.0
    ensures FewestMinutes(km, kmPerHour, Ceiling(km / kmPerHour * 60.0))
  {
    var hours := km / kmPerHour;
    var minutes := Ceiling(hours * 60.0) as real;
    CeilingBounds(hours * 60.0);
    assert hours * kmPerHour == km;
    assert kmPerHour * (minutes - 1.0) < kmPerHour * (hours * 60.0) <= kmPerHour * minutes;
  }

  /** The fewest minutes at the speed of the transport, and a fixed overhead for what is not riding. */
  lemma StraightMinutesCoverDistance(distance: (Location, Location) -> real, r: Request, d: Destination)
    requires r.transport != OtherTransport
    ensures var estimate := StraightEstimate(distance, r, d);
            var km := distance(r.origin, d.location);
            && estimate.facilityId == d.facilityId && estimate.distanceKm == km && estimate.kind == StraightLine
            && match r.transport
               case PublicTransit => FewestMinutes(km, 22.0, estimate.travelMinutes - 12)
               case Car => FewestMinutes(km, 30.0, estimate.travelMinutes - 8)
               case Bicycle => FewestMinutes(km, 13.0, estimate.travelMinutes - 3)
               case Walk => FewestMinutes(km, 4.5, estimate.travelMinutes)
  {
    hide FewestMinutes, Ceiling;
    CeilingIsFewest(distance(r.origin, d.location), ProfileFor(r.transport).speedKmPerHour);
  }

  ghost function StraightLineMatrix(distance: (Location, Location) -> real, r: Request): Answer {
    if !ValidRequest(r) then Failure(InvalidRequest)
    else Success(seq(|r.destinations|, i requires 0 <= i < |r.destinations| => StraightEstimate(distance, r, r.destinations[i])))
  }

  method StraightLineProvider(distance: (Location, Location) -> real, r: Request) returns (a: Answer)
    ensures a == StraightLineMatrix(distance, r)
  {
    var ok := ValidateRequest(r);
    if !ok { return Failure(InvalidRequest); }
    var estimates := [];
    for i := 0 to |r.destinations|
      invariant |estimates| == i
      invariant forall k | 0 <= k < i :: estimates[k] == StraightEstimate(distance, r, r.destinations[k])
    {
      estimates := estimates + [StraightEstimate(distance, r, r.destinations[i])];
    }
    a := Success(estimates);
    assert StraightLineMatrix(distance, r).value == estimates;
  }

  /** FallbackProvider: the second provider is asked only when the first one fails. */
  ghost function FallbackMatrix(primary: Provider, fallback: Provider, r: Request): Answer {
    if primary(r).Success? then primary(r) else fallback(r)
  }

  /** One estimate per destination, in order, all of one kind, none negative. */
  ghost predicate Uniform(r: Request, estimates: seq<Estimate>, kind: Kind) {
    && |estimates| == |r.destinations|
    && forall i | 0 <= i < |estimates| ::
         && estimates[i].facilityId == r.destinations[i].facilityId
         && estimates[i].kind == kind && estimates[i].travelMinutes >= 0 && estimates[i].distanceKm >= 0.0
  }

  /** Google first, straight line second: an answer is complete and never mixes the two kinds. */
  lemma FallbackIsUniform(service: Request -> Option<seq<Element>>, distance: (Location, Location) -> real, r: Request)
    requires forall a, b :: distance(a, b) >= 0.0
    ensures var answer := FallbackMatrix(q => GoogleMatrix(service, q), q => StraightLineMatrix(distance, q), r);
            && (answer.Success? <==> ValidRequest(r))
            && (answer.Success? ==> Uniform(r, answer.value, GoogleRoutes) || Uniform(r, answer.value, StraightLine))
  {
    var google, straight := GoogleMatrix(service, r), StraightLineMatrix(distance, r);
    if google.Success? {
      var es := service(r).value;
      forall i | 0 <= i < |r.destinations|
        ensures google.value[i].facilityId == r.destinations[i].facilityId && google.value[i].kind == GoogleRoutes
        ensures google.value[i].travelMinutes >= 0 && google.value[i].distanceKm >= 0.0
      {
        EverySlotFilled(r.destinations, es, google.value, i);
      }
      assert Uniform(r, google.value, GoogleRoutes);
    }
    if straight.Success? {
      forall i | 0 <= i < |r.destinations|
        ensures straight.value[i].travelMinutes >= 0 && straight.value[i].distanceKm >= 0.0
      {
        StraightIsNonNegative(distance(r.origin, r.destinations[i].location), ProfileFor(r.transport));
      }
      assert Uniform(r, straight.value, StraightLine);
    }
  }

  /** A complete matrix of the service is the answer, slot by slot; only without one is the distance estimated. */
  lemma FallbackPrefersGoogle(service: Request -> Option<seq<Element>>, distance: (Location, Location) -> real, r: Request)
    requires ValidRequest(r)
    ensures var answer := FallbackMatrix(q => GoogleMatrix(service, q), q => StraightLineMatrix(distance, q), r);
            && answer.Success? && |answer.value| == |r.destinations|
            && if service(r).Some? && CompleteMatrix(|r.destinations|, service(r).value)
               then Fills(r.destinations, service(r).value, answer.value)
               else forall i | 0 <= i < |r.destinations| :: answer.value[i] == StraightEstimate(distance, r, r.destinations[i])
  {
    hide ValidRequest, CompleteMatrix, StraightEstimate;
  }

  lemma StraightIsNonNegative(km: real, p: Profile)
    requires km >= 0.0 && p.speedKmPerHour > 0.0 && p.overheadMinutes >= 0
    ensures Ceiling(km / p.speedKmPerHour * 60.0) + p.overheadMinutes >= 0
  {
    assert km / p.speedKmPerHour >= 0.0;
    assert km / p.speedKmPerHour * 60.0 >= 0.0;
  }
}
