/** The in-process metrics registry (internal/observability/registry.go). */
module Metrics {
  import opened Wrappers
  import Text

  const BOUNDS: seq<real> := [0.005, 0.01, 0.025, 0.05, 0.1, 0.25, 0.5, 1.0, 2.5, 5.0, 10.0]

  /** A histogram is a value: copying a series copies its buckets. Counters are unbounded here. */
  datatype Histogram = Histogram(buckets: seq<nat>, count: nat, sum: real)

  const EMPTY_HISTOGRAM := Histogram([0, 0, 0, 0, 0, 0, 0, 0, 0, 0, 0], 0, 0.0)

  /** The contents of one series. */
  datatype Reading = Reading(count: nat, latency: Histogram)

  const EMPTY_READING := Reading(0, EMPTY_HISTOGRAM)

  /** Negative latencies count as zero. */
  function Clamped(seconds: real): real {
    if seconds < 0.0 then 0.0 else seconds
  }

  /** Every bucket whose bound holds the latency grows by one. */
  function Bumped(buckets: seq<nat>, seconds: real): seq<nat>
    requires |buckets| == |BOUNDS|
  {
    seq(|BOUNDS|, i requires 0 <= i < |BOUNDS| => buckets[i] + (if seconds <= BOUNDS[i] then 1 else 0))
  }

  function Observed(h: Histogram, seconds: real): Histogram
    requires |h.buckets| == |BOUNDS|
  {
    Histogram(Bumped(h.buckets, Clamped(seconds)), h.count + 1, h.sum + Clamped(seconds))
  }

  function Recorded(r: Reading, seconds: real): Reading
    requires |r.latency.buckets| == |BOUNDS|
  {
    Reading(r.count + 1, Observed(r.latency, seconds))
  }

  lemma RecordedIsWhole(r: Reading, seconds: real)
    requires |r.latency.buckets| == |BOUNDS|
    ensures |Recorded(r, seconds).latency.buckets| == |BOUNDS|
  {
  }

  /** One series, updated in place. */
  class Series {
    var count: nat
    var latency: Histogram

    constructor ()
      ensures Value() == EMPTY_READING
    {
      count, latency := 0, EMPTY_HISTOGRAM;
    }

    function Value(): Reading
      reads this
    {
      Reading(count, latency)
    }

    method Observe(seconds: real)
      requires |latency.buckets| == |BOUNDS|
      modifies this
      ensures Value() == old(Recorded(Value(), seconds))
    {
      count := count + 1;
      var s := seconds;
      if s < 0.0 { s := 0.0; }
      var buckets := latency.buckets;
      for index := 0 to |BOUNDS|
        invariant |buckets| == |BOUNDS| && latency == old(latency) && count == old(count) + 1
        invariant forall i | 0 <= i < index :: buckets[i] == latency.buckets[i] + if s <= BOUNDS[i] then 1 else 0
        invariant forall i | index <= i < |BOUNDS| :: buckets[i] == latency.buckets[i]
      {
        if s <= BOUNDS[index] {
          buckets := buckets[index := buckets[index] + 1];
        }
      }
      latency := Histogram(buckets, latency.count + 1, latency.sum + s);
    }
  }

  // ---------- maps of series ----------

  type Readings<K> = map<K, Reading>

  ghost predicate WholeBuckets<K>(m: Readings<K>) {
    forall k | k in m :: |m[k].latency.buckets| == |BOUNDS|
  }

  /** The readings after one more observation under label k. */
  function RecordedUnder<K>(m: Readings<K>, k: K, seconds: real): Readings<K>
    requires WholeBuckets(m)
  {
    m[k := Recorded(if k in m then m[k] else EMPTY_READING, seconds)]
  }

  /** What the map of series shows: each label's current reading. */
  ghost function View<K>(m: map<K, Series>): Readings<K>
    reads m.Values
  {
    map k | k in m :: m[k].Value()
  }

  /** No two labels share a series object. */
  ghost predicate Unshared<K(!new)>(m: map<K, Series>) {
    forall k, k' | k in m && k' in m && k != k' :: m[k] != m[k']
  }

  /** Finds or creates the series of a label and records one observation in it. */
  method Touch<K(!new)>(m: map<K, Series>, k: K, seconds: real) returns (m': map<K, Series>)
    requires Unshared(m) && WholeBuckets(View(m))
    modifies m.Values
    ensures Unshared(m') && m'.Keys == m.Keys + {k}
    ensures forall x | x in m :: m'[x] == m[x]
    ensures k !in m ==> fresh(m'[k])
    ensures fresh(m'.Values - m.Values)
    ensures WholeBuckets(View(m'))
    ensures View(m') == old(RecordedUnder(View(m), k, seconds))
  {
    assert k in m ==> View(m)[k] == m[k].Value();
    RecordedIsWhole(if k in m then m[k].Value() else EMPTY_READING, seconds);
    hide Recorded;
    var series: Series;
    if k in m {
      series := m[k];
    } else {
      series := new Series();
    }
    series.Observe(seconds);
    m' := m[k := series];
    assert forall x | x in m && x != k :: m[x] != series;
    assert forall x | x in m && x != k :: View(m')[x] == old(View(m))[x];
    assert View(m')[k] == series.Value();
  }

  /** Copies every reading of a map of series. */
  method CopyAll<K(!new)>(m: map<K, Series>) returns (copy: Readings<K>)
    ensures copy == View(m)
  {
    copy := map[];
    var left := m.Keys;
    while left != {}
      invariant left <= m.Keys
      invariant copy == map k | k in m && k !in left :: m[k].Value()
      decreases |left|
    {
      var k :| k in left;
      left := left - {k};
      copy := copy[k := m[k].Value()];
    }
  }

  // ---------- labels ----------

  datatype HttpLabels = HttpLabels(routeTemplate: string, method': string, statusClass: string)

  datatype RecommendationResult = ResultSuccess | NoResults | ResultError | OtherResult
  datatype Provider = GoogleRoutes | GoogleGeocoding | OtherProvider
  datatype CallResult = CallSuccess | CallError | OtherCallResult
  datatype ExternalLabels = ExternalLabels(provider: Provider, result: CallResult)

  datatype RegistryError =
    | UnknownRecommendationResult | UnknownExternalProvider | UnknownExternalResult | InvalidCatalogCounts | UnknownProductEvent

  function UpperChar(c: char): char {
    if 'a' <= c <= 'z' then ((c as int - 32) as char) else c
  }

  function Upper(s: string): string {
    seq(|s|, i requires 0 <= i < |s| => UpperChar(s[i]))
  }

  function NormalizedMethod(m: string): string {
    var u := Upper(Text.TrimSpace(m));
    if u == "" then "UNKNOWN" else u
  }

  /** The position of the first blank, |s| if there is none. */
  function BlankAt(s: string): nat {
    if s == "" || s[0] == ' ' then 0 else 1 + BlankAt(s[1..])
  }

  lemma {:induction false} BlankAtBounds(s: string)
    ensures BlankAt(s) <= |s| && (BlankAt(s) < |s| ==> s[BlankAt(s)] == ' ')
    ensures forall i | 0 <= i < BlankAt(s) :: s[i] != ' '
  {
    if s != "" && s[0] != ' ' { BlankAtBounds(s[1..]); }
  }

  /** A leading "METHOD " that names the request's own method is dropped from the pattern. */
  function NormalizedRouteTemplate(route: string, m: string): string {
    BlankAtBounds(route);
    var at := BlankAt(route);
    var stripped := if 0 < at < |route| && Upper(route[..at]) == Upper(m) then route[at + 1..] else route;
    if stripped == "" then "unknown" else stripped
  }

  function StatusClass(code: int): string {
    if code < 100 || code > 599 then "unknown"
    else if code < 200 then "1xx" else if code < 300 then "2xx" else if code < 400 then "3xx"
    else if code < 500 then "4xx" else "5xx"
  }

  function LabelsOf(route: string, m: string, code: int): HttpLabels {
    var normalized := NormalizedMethod(m);
    HttpLabels(NormalizedRouteTemplate(route, normalized), normalized, StatusClass(code))
  }

  /** No label is ever empty, and the pattern "GET /x" and the bare "/x" share one series for GET. */
  lemma LabelsAreNonEmpty(route: string, m: string, code: int)
    ensures var l := LabelsOf(route, m, code); l.routeTemplate != "" && l.method' != "" && l.statusClass != ""
    ensures route != "" && BlankAt(route) == |route| && BlankAt(NormalizedMethod(m)) == |NormalizedMethod(m)|
            ==> LabelsOf(NormalizedMethod(m) + " " + route, m, code) == LabelsOf(route, m, code)
  {
    hide NormalizedMethod, NormalizedRouteTemplate;
    MethodIsNamed(m);
    RouteIsNamed(route, NormalizedMethod(m));
    if route != "" && BlankAt(route) == |route| && BlankAt(NormalizedMethod(m)) == |NormalizedMethod(m)| {
      PrefixIsDropped(route, NormalizedMethod(m));
    }
  }

  /** The pattern is the method, a blank, and the rest. */
  ghost predicate Prefixed(route: string, m: string, rest: string) {
    exists k :: 0 < k < |route| && route[k] == ' ' && ' ' !in route[..k] && Upper(route[..k]) == Upper(m) && rest == route[k + 1..]
  }

  /** The method without surrounding blanks, in capitals; the pattern without such a method before it; "unknown" for nothing. */
  lemma LabelsMeaning(route: string, m: string, code: int)
    ensures var l := LabelsOf(route, m, code);
            && (exists core :: Text.IsCore(core, m) && l.method' == if core == "" then "UNKNOWN" else Upper(core))
            && (forall rest | Prefixed(route, l.method', rest) :: l.routeTemplate == if rest == "" then "unknown" else rest)
            && ((forall rest :: !Prefixed(route, l.method', rest)) ==> l.routeTemplate == if route == "" then "unknown" else route)
  {
    Text.TrimSpaceIsCore(m);
    RouteMeaning(route, NormalizedMethod(m));
    hide NormalizedRouteTemplate, Text.TrimSpace, Text.IsCore, Prefixed, UpperChar;
    assert Text.IsCore(Text.TrimSpace(m), m);
    assert |Upper(Text.TrimSpace(m))| == |Text.TrimSpace(m)|;
  }

  lemma RouteMeaning(route: string, u: string)
    ensures forall rest | Prefixed(route, u, rest) :: NormalizedRouteTemplate(route, u) == if rest == "" then "unknown" else rest
    ensures (forall rest :: !Prefixed(route, u, rest))
            ==> NormalizedRouteTemplate(route, u) == if route == "" then "unknown" else route
  {
    BlankAtBounds(route);
    var at := BlankAt(route);
    hide BlankAt, Upper;
    forall rest | Prefixed(route, u, rest)
      ensures 0 < at < |route| && Upper(route[..at]) == Upper(u) && rest == route[at + 1..]
    {
      var k :| 0 < k < |route| && route[k] == ' ' && ' ' !in route[..k] && Upper(route[..k]) == Upper(u) && rest == route[k + 1..];
      assert forall i | 0 <= i < k :: route[i] == route[..k][i];
    }
    if 0 < at < |route| && Upper(route[..at]) == Upper(u) {
      assert Prefixed(route, u, route[at + 1..]);
    }
  }

  lemma MethodIsNamed(m: string)
    ensures NormalizedMethod(m) != ""
  {
    hide Upper;
  }

  lemma RouteIsNamed(route: string, m: string)
    ensures NormalizedRouteTemplate(route, m) != ""
  {
    hide Upper, BlankAt;
  }

  lemma PrefixIsDropped(route: string, u: string)
    requires route != "" && BlankAt(route) == |route| && u != "" && BlankAt(u) == |u|
    ensures NormalizedRouteTemplate(u + " " + route, u) == NormalizedRouteTemplate(route, u)
  {
    hide Upper, BlankAt;
    BlankAfter(u, route);
    var s := u + " " + route;
    assert s[..|u|] == u && s[|u| + 1..] == route;
  }

  lemma {:induction false} BlankAfter(u: string, rest: string)
    requires BlankAt(u) == |u|
    ensures BlankAt(u + " " + rest) == |u|
  {
    if u != "" {
      BlankAfter(u[1..], rest);
      assert (u + " " + rest)[1..] == u[1..] + " " + rest;
    } else {
      assert u + " " + rest == " " + rest;
    }
  }

  // ---------- the registry ----------

  /** A point-in-time copy: it holds no series object, so later updates cannot reach it. */
  datatype Snapshot = Snapshot(
    http: Readings<HttpLabels>,
    recommendations: Readings<RecommendationResult>,
    external: Readings<ExternalLabels>,
    facilities: nat,
    fresh': nat,
    stale: nat,
    events: map<string, nat>)

  const RESULTS := {ResultSuccess, NoResults, ResultError}
  const EXTERNAL := {ExternalLabels(GoogleRoutes, CallSuccess), ExternalLabels(GoogleRoutes, CallError),
                     ExternalLabels(GoogleGeocoding, CallSuccess), ExternalLabels(GoogleGeocoding, CallError)}

  /** What a browser may report; the server alone counts stored corrections. */
  const CLIENT_EVENTS := {"input_started", "input_completed", "recommendation_completed", "result_displayed", "source_opened",
                          "navigation_opened", "video_embed_displayed", "video_embed_loaded", "video_external_opened",
                          "social_profile_opened"}
  const PRODUCT_EVENTS := CLIENT_EVENTS + {"correction_submitted"}

  function EventCount(events: map<string, nat>, event: string): nat {
    if event in events then events[event] else 0
  }

  function AllEvents(events: map<string, nat>): map<string, nat> {
    map e | e in PRODUCT_EVENTS :: EventCount(events, e)
  }

  /** Every label of a fixed set, with an empty reading where nothing was observed. */
  function Completed<K>(m: Readings<K>, labels: set<K>): Readings<K> {
    map k | k in labels :: if k in m then m[k] else EMPTY_READING
  }

  lemma NoClientCorrection()
    ensures "correction_submitted" !in CLIENT_EVENTS
  {
    assert forall e | e in CLIENT_EVENTS :: e[0] != 'c';
  }

  class Registry {
    var httpRequests: map<HttpLabels, Series>
    var recommendations: map<RecommendationResult, Series>
    var externalCalls: map<ExternalLabels, Series>
    var facilities: nat
    var fresh': nat
    var stale: nat
    var productEvents: map<string, nat>

    ghost function Objects(): set<Series>
      reads this
    {
      httpRequests.Values + recommendations.Values + externalCalls.Values
    }

    ghost predicate Valid()
      reads this, Objects()
    {
      && Unshared(httpRequests) && Unshared(recommendations) && Unshared(externalCalls)
      && httpRequests.Values !! recommendations.Values
      && httpRequests.Values !! externalCalls.Values
      && recommendations.Values !! externalCalls.Values
      && productEvents.Keys <= PRODUCT_EVENTS
      && WholeBuckets(View(httpRequests)) && WholeBuckets(View(recommendations)) && WholeBuckets(View(externalCalls))
    }

    ghost function Now(): Snapshot
      reads this, Objects()
    {
      Snapshot(View(httpRequests), View(recommendations), View(externalCalls), facilities, fresh', stale, productEvents)
    }

    constructor ()
      ensures Valid() && Now() == Snapshot(map[], map[], map[], 0, 0, 0, map[])
    {
      httpRequests, recommendations, externalCalls := map[], map[], map[];
      facilities, fresh', stale, productEvents := 0, 0, 0, map[];
    }

    method ObserveHTTP(route: string, m: string, code: int, seconds: real)
      requires Valid()
      modifies this, Objects()
      ensures Valid() && fresh(Objects() - old(Objects()))
      ensures Now() == old(Now().(http := RecordedUnder(View(httpRequests), LabelsOf(route, m, code), seconds)))
    {
      hide LabelsOf, RecordedUnder, WholeBuckets, Unshared, Series.Value;
      var labels := LabelsOf(route, m, code);
      httpRequests := Touch(httpRequests, labels, seconds);
      assert View(recommendations) == old(View(recommendations));
      assert View(externalCalls) == old(View(externalCalls));
    }

    method ObserveRecommendation(result: RecommendationResult, seconds: real) returns (error: Option<RegistryError>)
      requires Valid()
      modifies this, Objects()
      ensures Valid() && fresh(Objects() - old(Objects()))
      ensures error.None? <==> result in RESULTS
      ensures error.Some? ==> Now() == old(Now())
      ensures error.None? ==> Now() == old(Now().(recommendations := RecordedUnder(View(recommendations), result, seconds)))
    {
      hide RecordedUnder, WholeBuckets, Unshared, Series.Value;
      if result == OtherResult { return Some(UnknownRecommendationResult); }
      recommendations := Touch(recommendations, result, seconds);
      assert View(httpRequests) == old(View(httpRequests));
      assert View(externalCalls) == old(View(externalCalls));
      return None;
    }

    method ObserveExternalCall(provider: Provider, result: CallResult, seconds: real) returns (error: Option<RegistryError>)
      requires Valid()
      modifies this, Objects()
      ensures Valid() && fresh(Objects() - old(Objects()))
      ensures error.None? <==> ExternalLabels(provider, result) in EXTERNAL
      ensures error.Some? ==> Now() == old(Now())
      ensures error.None? ==>
                Now() == old(Now().(external := RecordedUnder(View(externalCalls), ExternalLabels(provider, result), seconds)))
    {
      hide RecordedUnder, WholeBuckets, Unshared, Series.Value;
      if provider == OtherProvider { return Some(UnknownExternalProvider); }
      if result == OtherCallResult { return Some(UnknownExternalResult); }
      externalCalls := Touch(externalCalls, ExternalLabels(provider, result), seconds);
      assert View(httpRequests) == old(View(httpRequests));
      assert View(recommendations) == old(View(recommendations));
      return None;
    }

    method ObserveProductEvent(event: string) returns (error: Option<RegistryError>)
      requires Valid()
      modifies this
      ensures Valid()
      ensures error.None? <==> event in PRODUCT_EVENTS
      ensures error.Some? ==> Now() == old(Now())
      ensures error.None? ==>
                Now() == old(Now()).(events := old(Now()).events[event := EventCount(old(Now()).events, event) + 1])
    {
      hide RecordedUnder, WholeBuckets, Unshared, Series.Value;
      if event !in PRODUCT_EVENTS { return Some(UnknownProductEvent); }
      productEvents := productEvents[event := EventCount(productEvents, event) + 1];
      return None;
    }

    /** The same for a browser's report, which cannot claim that a correction was stored. */
    method ObserveClientProductEvent(event: string) returns (error: Option<RegistryError>)
      requires Valid()
      modifies this
      ensures Valid()
      ensures error.None? <==> event in PRODUCT_EVENTS && event != "correction_submitted"
      ensures error.Some? ==> Now() == old(Now())
      ensures error.None? ==>
                Now() == old(Now()).(events := old(Now()).events[event := EventCount(old(Now()).events, event) + 1])
    {
      if event !in CLIENT_EVENTS { return Some(UnknownProductEvent); }
      NoClientCorrection();
      error := ObserveProductEvent(event);
    }

    /** Every facility must be classified as fresh or stale. */
    method SetCatalog(total: int, freshCount: int, staleCount: int) returns (error: Option<RegistryError>)
      requires Valid()
      modifies this
      ensures Valid()
      ensures error.None? <==> freshCount >= 0 && staleCount >= 0 && freshCount + staleCount == total
      ensures error.Some? ==> Now() == old(Now())
      ensures error.None? ==> Now() == old(Now()).(facilities := total, fresh' := freshCount, stale := staleCount)
    {
      hide RecordedUnder, WholeBuckets, Unshared, Series.Value;
      if total < 0 || freshCount < 0 || staleCount < 0 { return Some(InvalidCatalogCounts); }
      if freshCount + staleCount != total { return Some(InvalidCatalogCounts); }
      facilities, fresh', stale := total, freshCount, staleCount;
      return None;
    }

    /** Copies the current values; fixed label sets are completed with empty readings. */
    method TakeSnapshot() returns (s: Snapshot)
      requires Valid()
      ensures s == Now().(recommendations := Completed(Now().recommendations, RESULTS),
                          external := Completed(Now().external, EXTERNAL), events := AllEvents(Now().events))
      ensures WholeBuckets(s.http) && WholeBuckets(s.recommendations) && WholeBuckets(s.external)
    {
      hide AllEvents;
      var http := CopyAll(httpRequests);
      var results := map k | k in RESULTS :: if k in recommendations then recommendations[k].Value() else EMPTY_READING;
      var calls := map k | k in EXTERNAL :: if k in externalCalls then externalCalls[k].Value() else EMPTY_READING;
      s := Snapshot(http, results, calls, facilities, fresh', stale, AllEvents(productEvents));
    }
  }
}
