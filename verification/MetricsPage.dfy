/**
 The page of the registry (internal/observability/prometheus.go:42-191): its nine metrics,
 what they are printed from, and that no two samples of the page name the same series.
 */
module MetricsPage {
  import opened Wrappers
  import opened Ordering
  import opened Metrics
  import opened Exposition
  import opened Page

  const RECOMMENDATIONS := PREFIX + "recommendations_total"
  const EXTERNAL_REQUESTS := PREFIX + "external_requests_total"
  const EXTERNAL_DURATION := PREFIX + "external_request" + DURATION_SUFFIX
  const RECOMMENDATION_DURATION := PREFIX + "recommendation" + DURATION_SUFFIX
  const EVENTS := PREFIX + "product_events_total"
  const FACILITIES := PREFIX + "catalog_facilities"
  const FRESHNESS := PREFIX + "catalog_freshness"

  const TOTAL := "Total number of "
  const BY_ROUTE := "by route template, "
  const AND_STATUS := "method, and status class."
  const BY_PROVIDER := "by fixed provider " + "and result."
  const CURRENT := "Current number of "
  const REQUESTS_HELP := TOTAL + "HTTP requests " + BY_ROUTE + AND_STATUS
  const DURATION_HELP := "HTTP request latency " + "in seconds " + BY_ROUTE + AND_STATUS
  const RECOMMENDATIONS_HELP := TOTAL + "recommendation attempts " + "by result."
  const EXTERNAL_REQUESTS_HELP := TOTAL + "external provider requests " + BY_PROVIDER
  const EXTERNAL_DURATION_HELP := "External provider request " + "latency in seconds " + BY_PROVIDER
  const RECOMMENDATION_DURATION_HELP := "Recommendation latency " + "in seconds by result."
  const EVENTS_HELP := TOTAL + "allow-listed product " + "journey events."
  const FACILITIES_HELP := CURRENT + "facilities in the catalog."
  const FRESHNESS_HELP := CURRENT + "catalog facilities " + "by freshness state."

  // ---------- what is printed ----------

  /** One series of a metric: its labels, and its reading. */
  datatype Line = Line(labels: seq<Label>, reading: Reading)

  /** A missing key reads as all zero. */
  function ReadingOf<K>(m: Readings<K>, k: K): Reading {
    if k in m then m[k] else EMPTY_READING
  }

  ghost predicate WholeLines(lines: seq<Line>) {
    forall l | l in lines :: |l.reading.latency.buckets| == |LE_TEXTS|
  }

  function LinesOf(samples: seq<HttpSample>): seq<Line> {
    seq(|samples|, i requires 0 <= i < |samples| => Line(HttpPrometheusLabels(samples[i].labels), samples[i].reading))
  }

  ghost function HttpLines(m: Readings<HttpLabels>): seq<Line> {
    LinesOf(SortedSamples(m))
  }

  function ResultLines(m: Readings<RecommendationResult>): seq<Line> {
    [Line([Label("result", "success")], ReadingOf(m, ResultSuccess)),
     Line([Label("result", "no_results")], ReadingOf(m, NoResults)),
     Line([Label("result", "error")], ReadingOf(m, ResultError))]
  }

  function ExternalLine(m: Readings<ExternalLabels>, provider: Provider, result: CallResult): Line {
    Line([Label("provider", if provider == GoogleRoutes then "google_routes" else "google_geocoding"),
          Label("result", if result == CallSuccess then "success" else "error")],
         ReadingOf(m, ExternalLabels(provider, result)))
  }

  /** By provider, then by result. */
  function ExternalLines(m: Readings<ExternalLabels>): seq<Line> {
    [ExternalLine(m, GoogleRoutes, CallSuccess), ExternalLine(m, GoogleRoutes, CallError),
     ExternalLine(m, GoogleGeocoding, CallSuccess), ExternalLine(m, GoogleGeocoding, CallError)]
  }

  /** The known events in the order of the page. */
  function EventList(): seq<string> {
    ["input_started", "input_completed", "recommendation_completed", "result_displayed", "source_opened", "navigation_opened",
     "video_embed_displayed", "video_embed_loaded", "video_external_opened", "social_profile_opened", "correction_submitted"]
  }

  function CounterSamples(name: string, lines: seq<Line>): seq<Sample> {
    seq(|lines|, i requires 0 <= i < |lines| => Sample(name, lines[i].labels, Decimal(lines[i].reading.count)))
  }

  /** One histogram after the other. */
  ghost function HistogramsOf(name: string, lines: seq<Line>, format: real -> string): seq<Sample>
    requires WholeLines(lines)
  {
    if lines == [] then []
    else
      var last := lines[|lines| - 1];
      assert last in lines;
      HistogramsOf(name, lines[..|lines| - 1], format) + HistogramSamples(name, last.labels, last.reading.latency, format)
  }

  function EventSamples(events: map<string, nat>): seq<Sample> {
    seq(|EventList()|, i requires 0 <= i < |EventList()| =>
          Sample(EVENTS, [Label("event", EventList()[i])], Decimal(EventCount(events, EventList()[i]))))
  }

  function FreshnessSamples(fresh': nat, stale: nat): seq<Sample> {
    [Sample(FRESHNESS, [Label("state", "fresh")], Decimal(fresh')), Sample(FRESHNESS, [Label("state", "stale")], Decimal(stale))]
  }

  ghost predicate WholeSnapshot(s: Snapshot) {
    WholeBuckets(s.http) && WholeBuckets(s.recommendations) && WholeBuckets(s.external)
  }

  lemma HttpLinesAreWhole(m: Readings<HttpLabels>)
    requires WholeBuckets(m)
    ensures WholeLines(HttpLines(m))
  {
    hide HttpPrometheusLabels;
    var samples := SortedSamples(m);
    forall l | l in LinesOf(samples)
      ensures |l.reading.latency.buckets| == |LE_TEXTS|
    {
      var i :| 0 <= i < |samples| && LinesOf(samples)[i] == l;
      assert samples[i] in Elements(samples);
    }
  }

  lemma ReadingIsWhole<K>(m: Readings<K>, k: K)
    requires WholeBuckets(m)
    ensures |ReadingOf(m, k).latency.buckets| == |LE_TEXTS|
  {
  }

  lemma ResultLinesAreWhole(m: Readings<RecommendationResult>)
    requires WholeBuckets(m)
    ensures WholeLines(ResultLines(m))
  {
    hide ReadingOf, WholeBuckets;
    forall k { ReadingIsWhole(m, k); }
  }

  lemma ExternalLinesAreWhole(m: Readings<ExternalLabels>)
    requires WholeBuckets(m)
    ensures WholeLines(ExternalLines(m))
  {
    hide ReadingOf, WholeBuckets;
    forall k { ReadingIsWhole(m, k); }
  }

  lemma LinesAreWhole(s: Snapshot)
    requires WholeSnapshot(s)
    ensures WholeLines(HttpLines(s.http)) && WholeLines(ResultLines(s.recommendations)) && WholeLines(ExternalLines(s.external))
  {
    hide WholeLines, HttpLines, ResultLines, ExternalLines;
    HttpLinesAreWhole(s.http);
    ResultLinesAreWhole(s.recommendations);
    ExternalLinesAreWhole(s.external);
  }

  /** The sections of the page, in its order. */
  ghost function Sections(s: Snapshot, format: real -> string): seq<Section>
    requires WholeSnapshot(s)
  {
    LinesAreWhole(s);
    [Section(REQUESTS, "counter", REQUESTS_HELP, CountSamples(SortedSamples(s.http))),
     Section(DURATION, "histogram", DURATION_HELP, HistogramsOf(DURATION, HttpLines(s.http), format)),
     Section(RECOMMENDATIONS, "counter", RECOMMENDATIONS_HELP, CounterSamples(RECOMMENDATIONS, ResultLines(s.recommendations))),
     Section(EXTERNAL_REQUESTS, "counter", EXTERNAL_REQUESTS_HELP,
             CounterSamples(EXTERNAL_REQUESTS, ExternalLines(s.external))),
     Section(EXTERNAL_DURATION, "histogram", EXTERNAL_DURATION_HELP,
             HistogramsOf(EXTERNAL_DURATION, ExternalLines(s.external), format)),
     Section(RECOMMENDATION_DURATION, "histogram", RECOMMENDATION_DURATION_HELP,
             HistogramsOf(RECOMMENDATION_DURATION, ResultLines(s.recommendations), format)),
     Section(EVENTS, "counter", EVENTS_HELP, EventSamples(s.events)),
     Section(FACILITIES, "gauge", FACILITIES_HELP, [Sample(FACILITIES, [], Decimal(s.facilities))]),
     Section(FRESHNESS, "gauge", FRESHNESS_HELP, FreshnessSamples(s.fresh', s.stale))]
  }

  // ---------- the printer ----------

  method WriteMetricHeader(output0: string, name: string, kind: string, help: string) returns (output: string)
    ensures output == output0 + HelpLine(name, help) + TypeLine(name, kind)
  {
    output := output0 + "# HELP ";
    output := output + name;
    output := output + " ";
    output := output + help;
    output := output + "\n";
    assert output == output0 + HelpLine(name, help);
    output := output + "# TYPE ";
    output := output + name;
    output := output + " ";
    output := output + kind;
    output := output + "\n";
  }

  method WriteCounters(output0: string, name: string, lines: seq<Line>) returns (output: string)
    ensures output == output0 + SamplesText(CounterSamples(name, lines))
  {
    hide SampleLine, SamplesText, Decimal, Printable, IsLine;
    output := output0;
    ghost var all := CounterSamples(name, lines);
    NothingPrinted();
    for i := 0 to |lines|
      invariant output == output0 + SamplesText(all[..i])
    {
      output := WriteSample(output, name, lines[i].labels, Decimal(lines[i].reading.count));
      AppendLine(all, i);
    }
    assert all[..|lines|] == all;
  }

  lemma {:induction false} TextJoins(a: seq<Sample>, b: seq<Sample>)
    ensures SamplesText(a + b) == SamplesText(a) + SamplesText(b)
  {
    hide SampleLine;
    if a == [] {
      assert a + b == b;
    } else {
      TextJoins(a[1..], b);
      assert (a + b)[1..] == a[1..] + b;
    }
  }

  lemma HistogramsSnoc(name: string, lines: seq<Line>, i: nat, format: real -> string)
    requires WholeLines(lines) && i < |lines|
    ensures WholeLines(lines[..i]) && WholeLines(lines[..i + 1]) && |lines[i].reading.latency.buckets| == |LE_TEXTS|
    ensures HistogramsOf(name, lines[..i + 1], format)
         == HistogramsOf(name, lines[..i], format) + HistogramSamples(name, lines[i].labels, lines[i].reading.latency, format)
  {
    hide HistogramSamples;
    assert lines[i] in lines;
    assert lines[..i + 1][..i] == lines[..i];
  }

  method WriteHistograms(output0: string, name: string, lines: seq<Line>, format: real -> string) returns (output: string)
    requires WholeLines(lines)
    ensures output == output0 + SamplesText(HistogramsOf(name, lines, format))
  {
    hide SamplesText, HistogramsOf, HistogramSamples;
    NothingPrinted();
    NoHistograms(name, format);
    output := output0;
    for i := 0 to |lines|
      invariant WholeLines(lines[..i]) && output == output0 + SamplesText(HistogramsOf(name, lines[..i], format))
    {
      HistogramsSnoc(name, lines, i, format);
      output := WriteHistogram(output, name, lines[i].labels, lines[i].reading.latency, format);
      TextJoins(HistogramsOf(name, lines[..i], format),
                HistogramSamples(name, lines[i].labels, lines[i].reading.latency, format));
    }
    assert lines[..|lines|] == lines;
  }

  lemma NoHistograms(name: string, format: real -> string)
    ensures HistogramsOf(name, [], format) == []
  {
  }

  method WriteEvents(output0: string, events: map<string, nat>) returns (output: string)
    ensures output == output0 + SamplesText(EventSamples(events))
  {
    hide SampleLine, SamplesText, Decimal, EventList, EventCount, Printable, IsLine;
    output := output0;
    ghost var all := EventSamples(events);
    NothingPrinted();
    for i := 0 to |EventList()|
      invariant output == output0 + SamplesText(all[..i])
    {
      var event := EventList()[i];
      output := WriteSample(output, EVENTS, [Label("event", event)], Decimal(EventCount(events, event)));
      AppendLine(all, i);
    }
    assert all[..|EventList()|] == all;
  }

  /** The three catalog gauges, under two headers. */
  method WriteCatalog(output0: string, facilities: nat, fresh': nat, stale: nat) returns (output: string)
    ensures output == output0
                      + SectionText(Section(FACILITIES, "gauge", FACILITIES_HELP, [Sample(FACILITIES, [], Decimal(facilities))]))
                      + SectionText(Section(FRESHNESS, "gauge", FRESHNESS_HELP, FreshnessSamples(fresh', stale)))
  {
    hide SampleLine, SamplesText, Decimal, HelpLine, TypeLine, Printable, IsLine;
    output := WriteMetricHeader(output0, FACILITIES, "gauge", FACILITIES_HELP);
    output := WriteSample(output, FACILITIES, [], Decimal(facilities));
    OneSample(Sample(FACILITIES, [], Decimal(facilities)));
    output := WriteMetricHeader(output, FRESHNESS, "gauge", FRESHNESS_HELP);
    output := WriteSample(output, FRESHNESS, [Label("state", "fresh")], Decimal(fresh'));
    output := WriteSample(output, FRESHNESS, [Label("state", "stale")], Decimal(stale));
    TwoSamples(FreshnessSamples(fresh', stale)[0], FreshnessSamples(fresh', stale)[1]);
  }

  lemma OneSample(s: Sample)
    ensures SamplesText([s]) == SampleLine(s)
  {
    hide SampleLine;
    assert [s][1..] == [];
  }

  lemma TwoSamples(a: Sample, b: Sample)
    ensures SamplesText([a, b]) == SampleLine(a) + SampleLine(b)
  {
    hide SampleLine;
    OneSample(b);
    assert [a, b][1..] == [b];
  }

  method WriteCounterSection(output0: string, name: string, help: string, lines: seq<Line>) returns (output: string)
    ensures output == output0 + SectionText(Section(name, "counter", help, CounterSamples(name, lines)))
  {
    hide SamplesText, CounterSamples, HelpLine, TypeLine;
    output := WriteMetricHeader(output0, name, "counter", help);
    output := WriteCounters(output, name, lines);
  }

  method WriteHistogramSection(output0: string, name: string, help: string, lines: seq<Line>, format: real -> string)
    returns (output: string)
    requires WholeLines(lines)
    ensures output == output0 + SectionText(Section(name, "histogram", help, HistogramsOf(name, lines, format)))
  {
    hide SamplesText, HistogramsOf, HelpLine, TypeLine;
    output := WriteMetricHeader(output0, name, "histogram", help);
    output := WriteHistograms(output, name, lines, format);
  }

  lemma PageOfNine(s: seq<Section>)
    requires |s| == 9
    ensures PageText(s) == SectionText(s[0]) + (SectionText(s[1]) + (SectionText(s[2]) + (SectionText(s[3]) + (SectionText(s[4])
                           + (SectionText(s[5]) + (SectionText(s[6]) + (SectionText(s[7]) + SectionText(s[8]))))))))
  {
    hide SectionText, PageText;
    PageFrom(s, 8);
    PageFrom(s, 7);
    PageFrom(s, 6);
    PageFrom(s, 5);
    PageFrom(s, 4);
    PageFrom(s, 3);
    PageFrom(s, 2);
    PageFrom(s, 1);
    PageFrom(s, 0);
    assert s[0..] == s;
    NothingAfter(s);
  }

  lemma PageFrom(s: seq<Section>, i: nat)
    requires i < |s|
    ensures PageText(s[i..]) == SectionText(s[i]) + PageText(s[i + 1..])
  {
    hide SectionText;
    assert s[i..][1..] == s[i + 1..];
  }

  lemma NothingAfter(s: seq<Section>)
    ensures PageText(s[|s|..]) == ""
  {
  }

  /** The whole page; sections are written one after the other, the HTTP samples sorted once. */
  method RenderPrometheus(s: Snapshot, format: real -> string) returns (output: string)
    requires WholeSnapshot(s)
    ensures output == PageText(Sections(s, format))
  {
    hide SectionText, SamplesText, CountSamples, CounterSamples, HistogramsOf, HelpLine, TypeLine, SortedSamples;
    hide ResultLines, ExternalLines, EventSamples, FreshnessSamples, WholeBuckets, WholeLines, LinesOf, Decimal;
    LinesAreWhole(s);
    ghost var all := Sections(s, format);
    PageOfNine(all);
    var httpSamples := SortedHTTPSamples(s.http);
    output := WriteMetricHeader("", REQUESTS, "counter", REQUESTS_HELP);
    output := WriteCounts(output, httpSamples);
    HeaderAndSamples(all[0], output);
    output := WriteHistogramSection(output, DURATION, DURATION_HELP, LinesOf(httpSamples), format);
    output := WriteCounterSection(output, RECOMMENDATIONS, RECOMMENDATIONS_HELP, ResultLines(s.recommendations));
    output := WriteCounterSection(output, EXTERNAL_REQUESTS, EXTERNAL_REQUESTS_HELP, ExternalLines(s.external));
    output := WriteHistogramSection(output, EXTERNAL_DURATION, EXTERNAL_DURATION_HELP, ExternalLines(s.external), format);
    output := WriteHistogramSection(output, RECOMMENDATION_DURATION, RECOMMENDATION_DURATION_HELP,
                                    ResultLines(s.recommendations), format);
    ghost var before := output;
    output := WriteMetricHeader(output, EVENTS, "counter", EVENTS_HELP);
    output := WriteEvents(output, s.events);
    HeaderAndSamples(all[6], output[|before|..]);
    output := WriteCatalog(output, s.facilities, s.fresh', s.stale);
  }

  lemma HeaderAndSamples(s: Section, text: string)
    requires text == HelpLine(s.name, s.help) + TypeLine(s.name, s.kind) + SamplesText(s.samples)
    ensures text == SectionText(s)
  {
  }

  // ---------- the page reads back ----------

  lemma CounterParts()
    ensures IsName("recommendations_total") && IsName("external_requests_total") && IsName("product_events_total")
  {
  }

  lemma DurationParts()
    ensures IsName("external_request") && IsName("recommendation")
  {
  }

  lemma CatalogParts()
    ensures IsName("catalog_facilities") && IsName("catalog_freshness")
  {
  }

  lemma CounterNames()
    ensures IsName(RECOMMENDATIONS) && IsName(EXTERNAL_REQUESTS) && IsName(EVENTS)
  {
    hide IsName;
    NameParts();
    CounterParts();
    NamesJoin(PREFIX, "recommendations_total");
    NamesJoin(PREFIX, "external_requests_total");
    NamesJoin(PREFIX, "product_events_total");
  }

  lemma DurationNames()
    ensures IsName(EXTERNAL_DURATION) && IsName(RECOMMENDATION_DURATION)
  {
    hide IsName;
    NameParts();
    DurationParts();
    NamesJoin(PREFIX, "external_request");
    NamesJoin(PREFIX + "external_request", DURATION_SUFFIX);
    NamesJoin(PREFIX, "recommendation");
    NamesJoin(PREFIX + "recommendation", DURATION_SUFFIX);
  }

  lemma CatalogNames()
    ensures IsName(FACILITIES) && IsName(FRESHNESS)
  {
    hide IsName;
    NameParts();
    CatalogParts();
    NamesJoin(PREFIX, "catalog_facilities");
    NamesJoin(PREFIX, "catalog_freshness");
  }

  lemma LabelNames()
    ensures IsName("result") && IsName("provider") && IsName("event") && IsName("state")
  {
  }

  predicate IsPlainChar(c: char) {
    c != '\n' && c != '\\'
  }

  /** Nothing the format would have to escape in a help text. */
  predicate IsPlainText(s: string) {
    forall c | c in s :: IsPlainChar(c)
  }

  lemma PlainParts(a: string, b: string)
    ensures IsPlainText(a + b) <==> IsPlainText(a) && IsPlainText(b)
  {
    assert forall c :: c in a + b <==> c in a || c in b;
  }

  lemma PlainThree(a: string, b: string, c: string)
    requires IsPlainText(a) && IsPlainText(b) && IsPlainText(c)
    ensures IsPlainText(a + b + c)
  {
    hide IsPlainText;
    PlainParts(a, b);
    PlainParts(a + b, c);
  }

  lemma PlainFour(a: string, b: string, c: string, d: string)
    requires IsPlainText(a) && IsPlainText(b) && IsPlainText(c) && IsPlainText(d)
    ensures IsPlainText(a + b + c + d)
  {
    hide IsPlainText;
    PlainThree(a, b, c);
    PlainParts(a + b + c, d);
  }

  lemma PlainPieces()
    ensures IsPlainText(TOTAL) && IsPlainText(BY_ROUTE) && IsPlainText(AND_STATUS) && IsPlainText(CURRENT)
  {
  }

  lemma PlainProvider()
    ensures IsPlainText(BY_PROVIDER)
  {
    PlainParts("by fixed provider ", "and result.");
  }

  lemma PlainRequests()
    ensures IsPlainText("external provider requests ")
  {
  }

  lemma PlainProviderLatency()
    ensures IsPlainText("External provider request ") && IsPlainText("latency in seconds ")
  {
  }

  lemma HttpHelpIsPlain()
    ensures IsPlainText(REQUESTS_HELP) && IsPlainText(DURATION_HELP)
  {
    PlainPieces();
    PlainFour(TOTAL, "HTTP requests ", BY_ROUTE, AND_STATUS);
    PlainFour("HTTP request latency ", "in seconds ", BY_ROUTE, AND_STATUS);
  }

  lemma PlainAttempts()
    ensures IsPlainText("recommendation attempts ") && IsPlainText("by result.")
  {
  }

  lemma PlainLatency()
    ensures IsPlainText("Recommendation latency ") && IsPlainText("in seconds by result.")
  {
  }

  lemma RecommendationHelpIsPlain()
    ensures IsPlainText(RECOMMENDATIONS_HELP) && IsPlainText(RECOMMENDATION_DURATION_HELP)
  {
    hide IsPlainText;
    PlainPieces();
    PlainAttempts();
    PlainLatency();
    PlainThree(TOTAL, "recommendation attempts ", "by result.");
    PlainParts("Recommendation latency ", "in seconds by result.");
  }

  lemma ExternalHelpIsPlain()
    ensures IsPlainText(EXTERNAL_REQUESTS_HELP) && IsPlainText(EXTERNAL_DURATION_HELP)
  {
    hide IsPlainText;
    PlainPieces();
    PlainProvider();
    PlainRequests();
    PlainProviderLatency();
    PlainThree(TOTAL, "external provider requests ", BY_PROVIDER);
    PlainThree("External provider request ", "latency in seconds ", BY_PROVIDER);
  }

  lemma PlainEvents()
    ensures IsPlainText("allow-listed product ") && IsPlainText("journey events.")
  {
  }

  lemma PlainFacilities()
    ensures IsPlainText("facilities in the catalog.")
  {
  }

  lemma PlainFreshness()
    ensures IsPlainText("catalog facilities ") && IsPlainText("by freshness state.")
  {
  }

  lemma CatalogHelpIsPlain()
    ensures IsPlainText(EVENTS_HELP) && IsPlainText(FACILITIES_HELP) && IsPlainText(FRESHNESS_HELP)
  {
    hide IsPlainText;
    PlainPieces();
    PlainEvents();
    PlainFacilities();
    PlainFreshness();
    PlainThree(TOTAL, "allow-listed product ", "journey events.");
    PlainParts(CURRENT, "facilities in the catalog.");
    PlainThree(CURRENT, "catalog facilities ", "by freshness state.");
  }

  ghost predicate NamedLines(lines: seq<Line>) {
    forall l | l in lines :: NamedLabels(l.labels)
  }

  lemma CountersArePrintable(name: string, lines: seq<Line>)
    requires IsName(name) && NamedLines(lines)
    ensures AllPrintable(CounterSamples(name, lines))
  {
    hide IsName, Decimal, NamedLabels;
    forall x | x in CounterSamples(name, lines)
      ensures Printable(x)
    {
      var i :| 0 <= i < |lines| && CounterSamples(name, lines)[i] == x;
      assert lines[i] in lines;
      DecimalReadsBack(lines[i].reading.count);
    }
  }

  lemma {:induction false} HistogramsArePrintable(name: string, lines: seq<Line>, format: real -> string)
    requires WholeLines(lines) && IsName(name) && NamedLines(lines) && forall x :: '\n' !in format(x)
    ensures AllPrintable(HistogramsOf(name, lines, format))
  {
    hide IsName, HistogramSamples, NamedLabels, Printable;
    if lines != [] {
      var n := |lines| - 1;
      var l := lines[n];
      assert l in lines;
      HistogramsArePrintable(name, lines[..n], format);
      var group := HistogramSamples(name, l.labels, l.reading.latency, format);
      forall i | 0 <= i < |group| { HistogramIsPrintable(name, l.labels, l.reading.latency, format, i); }
    }
  }

  lemma EventsArePrintable(events: map<string, nat>)
    ensures AllPrintable(EventSamples(events))
  {
    CounterNames();
    LabelNames();
    hide IsName, Decimal, EventCount, EventList;
    forall x | x in EventSamples(events)
      ensures Printable(x)
    {
      var i :| 0 <= i < |EventList()| && EventSamples(events)[i] == x;
      DecimalReadsBack(EventCount(events, EventList()[i]));
    }
  }

  lemma FreshnessIsPrintable(fresh': nat, stale: nat)
    ensures AllPrintable(FreshnessSamples(fresh', stale))
  {
    CatalogNames();
    LabelNames();
    hide IsName, Decimal;
    DecimalReadsBack(fresh');
    DecimalReadsBack(stale);
  }

  lemma LinesAreNamed(s: Snapshot)
    ensures NamedLines(HttpLines(s.http)) && NamedLines(ResultLines(s.recommendations)) && NamedLines(ExternalLines(s.external))
  {
    NamesAreNames();
    LabelNames();
    hide IsName, ReadingOf, SortedSamples;
  }

  lemma SectionsArePrintable(s: Snapshot, format: real -> string)
    requires WholeSnapshot(s) && forall x :: '\n' !in format(x)
    ensures forall section | section in Sections(s, format) :: PrintableSection(section)
  {
    hide IsName, IsPlainText, AllPrintable, HistogramsOf, CounterSamples, CountSamples, EventSamples, FreshnessSamples;
    hide HttpLines, ResultLines, ExternalLines, SortedSamples, WholeLines, NamedLines, Decimal, WholeBuckets;
    LinesAreWhole(s);
    LinesAreNamed(s);
    SectionNames();
    CountsArePrintable(s.http);
    HistogramsArePrintable(DURATION, HttpLines(s.http), format);
    CountersArePrintable(RECOMMENDATIONS, ResultLines(s.recommendations));
    CountersArePrintable(EXTERNAL_REQUESTS, ExternalLines(s.external));
    HistogramsArePrintable(EXTERNAL_DURATION, ExternalLines(s.external), format);
    HistogramsArePrintable(RECOMMENDATION_DURATION, ResultLines(s.recommendations), format);
    EventsArePrintable(s.events);
    FacilitiesArePrintable(s.facilities);
    FreshnessIsPrintable(s.fresh', s.stale);
    HelpTexts();
    Kinds();
    forall section | section in Sections(s, format)
      ensures PrintableSection(section)
    {
      PlainIsOneLine(section.help);
    }
  }

  lemma PlainIsOneLine(s: string)
    ensures IsPlainText(s) ==> '\n' !in s && '\\' !in s
  {
  }

  lemma Kinds()
    ensures '\n' !in "counter" && '\n' !in "histogram" && '\n' !in "gauge"
  {
  }

  lemma SectionNames()
    ensures IsName(REQUESTS) && IsName(DURATION) && IsName(RECOMMENDATIONS) && IsName(EXTERNAL_REQUESTS)
    ensures IsName(EXTERNAL_DURATION) && IsName(RECOMMENDATION_DURATION) && IsName(EVENTS) && IsName(FACILITIES)
    ensures IsName(FRESHNESS)
  {
    hide IsName;
    NamesAreNames();
    CounterNames();
    DurationNames();
    CatalogNames();
  }

  lemma HelpTexts()
    ensures IsPlainText(REQUESTS_HELP) && IsPlainText(DURATION_HELP) && IsPlainText(RECOMMENDATIONS_HELP)
    ensures IsPlainText(EXTERNAL_REQUESTS_HELP) && IsPlainText(EXTERNAL_DURATION_HELP)
    ensures IsPlainText(RECOMMENDATION_DURATION_HELP)
    ensures IsPlainText(EVENTS_HELP) && IsPlainText(FACILITIES_HELP) && IsPlainText(FRESHNESS_HELP)
  {
    hide IsPlainText;
    HttpHelpIsPlain();
    RecommendationHelpIsPlain();
    ExternalHelpIsPlain();
    CatalogHelpIsPlain();
  }

  lemma CountsArePrintable(m: Readings<HttpLabels>)
    ensures AllPrintable(CountSamples(SortedSamples(m)))
  {
    hide Printable, CountSample;
    var samples := SortedSamples(m);
    forall x | x in CountSamples(samples)
      ensures Printable(x)
    {
      var i :| 0 <= i < |samples| && CountSamples(samples)[i] == x;
      CountSampleIsPrintable(samples[i]);
    }
  }

  lemma FacilitiesArePrintable(n: nat)
    ensures AllPrintable([Sample(FACILITIES, [], Decimal(n))])
  {
    hide IsName, Decimal;
    CatalogNames();
    DecimalReadsBack(n);
  }

  // ---------- no series twice ----------

  /** Which metric of the page a sample belongs to, by letters of its name. */
  function FamilyOf(name: string): int {
    if |name| < 28 then -1
    else
      match name[11]
      case 'h' => if name[23] == 's' then 0 else 1
      case 'r' => if name[25] == 's' then 2 else 5
      case 'e' => if name[27] == 's' then 3 else 4
      case 'p' => 6
      case 'c' => if name[20] == 'a' then 7 else 8
      case _ => -1
  }

  ghost predicate InFamily(samples: seq<Sample>, family: int) {
    forall x | x in samples :: FamilyOf(x.name) == family
  }

  ghost predicate Named(samples: seq<Sample>, name: string) {
    forall x | x in samples :: x.name == name
  }

  /** The sample names the format gives to a histogram. */
  ghost predicate NamedAsHistogram(samples: seq<Sample>, name: string) {
    forall x | x in samples :: x.name in {name + "_bucket", name + "_sum", name + "_count"}
  }

  ghost predicate NoRepeat(samples: seq<Sample>) {
    forall i, j | 0 <= i < j < |samples| :: !SameSeries(samples[i], samples[j])
  }

  lemma CounterFamilies()
    ensures FamilyOf(REQUESTS) == 0 && FamilyOf(RECOMMENDATIONS) == 2 && FamilyOf(EXTERNAL_REQUESTS) == 3
    ensures FamilyOf(EVENTS) == 6 && FamilyOf(FACILITIES) == 7 && FamilyOf(FRESHNESS) == 8
  {
  }

  lemma HistogramFamilies()
    ensures FamilyOf(DURATION) == 1 && FamilyOf(EXTERNAL_DURATION) == 4 && FamilyOf(RECOMMENDATION_DURATION) == 5
  {
  }

  lemma SuffixKeepsFamily(name: string, suffix: string)
    requires FamilyOf(name) >= 0
    ensures FamilyOf(name + suffix) == FamilyOf(name)
  {
  }

  ghost predicate DistinctLabels(lines: seq<Line>) {
    forall i, j | 0 <= i < j < |lines| :: lines[i].labels != lines[j].labels
  }

  /** The three kinds of lines of one histogram. */
  ghost predicate OfHistogram(x: Sample, name: string, labels: seq<Label>) {
    || (x.name == name + "_bucket" && exists bound :: x.labels == labels + [Label("le", bound)])
    || (x.name == name + "_sum" && x.labels == labels)
    || (x.name == name + "_count" && x.labels == labels)
  }

  lemma HistogramMember(x: Sample, name: string, labels: seq<Label>, h: Histogram, format: real -> string)
    requires |h.buckets| == |LE_TEXTS| && x in HistogramSamples(name, labels, h, format)
    ensures OfHistogram(x, name, labels)
  {
    hide Decimal;
    var all := HistogramSamples(name, labels, h, format);
    var i :| 0 <= i < |all| && all[i] == x;
    var bound := if i < |LE_TEXTS| then LE_TEXTS[i] else "+Inf";
    assert i <= |LE_TEXTS| ==> x.labels == labels + [Label("le", bound)];
  }

  lemma HistogramsApart(x: Sample, y: Sample, name: string, a: seq<Label>, b: seq<Label>)
    requires OfHistogram(x, name, a) && OfHistogram(y, name, b) && SameSeries(x, y)
    ensures a == b
  {
    SuffixesDiffer(name);
    if x.name == name + "_bucket" {
      assert x.labels[..|x.labels| - 1] == a && y.labels[..|y.labels| - 1] == b;
    }
  }

  lemma {:induction false} HistogramsMember(x: Sample, name: string, lines: seq<Line>, format: real -> string)
    requires WholeLines(lines) && x in HistogramsOf(name, lines, format)
    ensures exists i :: 0 <= i < |lines| && OfHistogram(x, name, lines[i].labels)
  {
    hide HistogramSamples, OfHistogram;
    var n := |lines| - 1;
    assert lines[n] in lines;
    if x in HistogramSamples(name, lines[n].labels, lines[n].reading.latency, format) {
      HistogramMember(x, name, lines[n].labels, lines[n].reading.latency, format);
    } else {
      HistogramsMember(x, name, lines[..n], format);
      var i :| 0 <= i < n && OfHistogram(x, name, lines[..n][i].labels);
      assert lines[i] == lines[..n][i];
    }
  }

  lemma JoinedNoRepeat(a: seq<Sample>, b: seq<Sample>)
    requires NoRepeat(a) && NoRepeat(b) && forall x, y | x in a && y in b :: !SameSeries(x, y)
    ensures NoRepeat(a + b)
  {
    hide SameSeries;
    var all := a + b;
    forall i, j | 0 <= i < j < |all|
      ensures !SameSeries(all[i], all[j])
    {
      if i < |a| <= j { assert all[i] in a && all[j] in b; }
    }
  }

  lemma {:induction false} HistogramsNoRepeat(name: string, lines: seq<Line>, format: real -> string)
    requires WholeLines(lines) && DistinctLabels(lines)
    ensures NoRepeat(HistogramsOf(name, lines, format))
  {
    hide HistogramSamples, OfHistogram, SameSeries;
    if lines != [] {
      var n := |lines| - 1;
      var l := lines[n];
      assert l in lines;
      var front, group := HistogramsOf(name, lines[..n], format), HistogramSamples(name, l.labels, l.reading.latency, format);
      HistogramsNoRepeat(name, lines[..n], format);
      forall i, j | 0 <= i < j < |group| { HistogramSeriesDiffer(name, l.labels, l.reading.latency, format, i, j); }
      forall x, y | x in front && y in group
        ensures !SameSeries(x, y)
      {
        HistogramsMember(x, name, lines[..n], format);
        HistogramMember(y, name, l.labels, l.reading.latency, format);
        var i :| 0 <= i < n && OfHistogram(x, name, lines[..n][i].labels);
        assert lines[i].labels != lines[n].labels;
        if SameSeries(x, y) { HistogramsApart(x, y, name, lines[..n][i].labels, l.labels); }
      }
      JoinedNoRepeat(front, group);
    }
  }

  lemma HistogramsInFamily(name: string, lines: seq<Line>, format: real -> string)
    requires WholeLines(lines) && FamilyOf(name) >= 0
    ensures InFamily(HistogramsOf(name, lines, format), FamilyOf(name))
    ensures NamedAsHistogram(HistogramsOf(name, lines, format), name)
  {
    hide HistogramsOf, FamilyOf;
    SuffixKeepsFamily(name, "_bucket");
    SuffixKeepsFamily(name, "_sum");
    SuffixKeepsFamily(name, "_count");
    forall x | x in HistogramsOf(name, lines, format) { HistogramsMember(x, name, lines, format); }
  }

  lemma CountersNoRepeat(name: string, lines: seq<Line>)
    requires DistinctLabels(lines)
    ensures NoRepeat(CounterSamples(name, lines)) && InFamily(CounterSamples(name, lines), FamilyOf(name))
    ensures Named(CounterSamples(name, lines), name)
  {
    hide Decimal, FamilyOf;
  }

  lemma ResultLabelsDistinct(m: Readings<RecommendationResult>)
    ensures DistinctLabels(ResultLines(m))
  {
    hide ReadingOf;
    var lines := ResultLines(m);
    assert |"success"| == 7 && |"no_results"| == 10 && |"error"| == 5;
    assert forall i | 0 <= i < 3 :: |lines[i].labels| == 1;
    assert forall i, j | 0 <= i < j < 3 :: |lines[i].labels[0].value| != |lines[j].labels[0].value|;
  }

  lemma ExternalLabelsDistinct(m: Readings<ExternalLabels>)
    ensures DistinctLabels(ExternalLines(m))
  {
    hide ReadingOf;
    var lines := ExternalLines(m);
    assert |"success"| == 7 && |"error"| == 5 && |"google_routes"| == 13 && |"google_geocoding"| == 16;
    assert forall i | 0 <= i < 4 :: |lines[i].labels| == 2;
    assert forall i, j | 0 <= i < j < 4 ::
        |lines[i].labels[0].value| != |lines[j].labels[0].value| || |lines[i].labels[1].value| != |lines[j].labels[1].value|;
  }

  lemma HttpLabelsDistinct(m: Readings<HttpLabels>)
    ensures DistinctLabels(HttpLines(m))
  {
    hide HttpPrometheusLabels, HttpBefore;
    var samples := SortedSamples(m);
    forall i, j | 0 <= i < j < |samples| { DistinctTriples(samples[i], samples[j]); }
  }

  lemma CountsNoRepeat(m: Readings<HttpLabels>)
    ensures NoRepeat(CountSamples(SortedSamples(m))) && InFamily(CountSamples(SortedSamples(m)), FamilyOf(REQUESTS))
    ensures Named(CountSamples(SortedSamples(m)), REQUESTS)
  {
    hide HttpPrometheusLabels, HttpBefore, Decimal, FamilyOf;
    var samples := SortedSamples(m);
    forall i, j | 0 <= i < j < |samples| { DistinctTriples(samples[i], samples[j]); }
  }

  /** The events are told apart by their length and a letter. */
  lemma EventsDiffer(i: nat, j: nat)
    requires i < j < |EventList()|
    ensures EventList()[i] != EventList()[j]
  {
    var all := EventList();
    assert |all[0]| == 13 && |all[1]| == 15 && |all[2]| == 24 && |all[3]| == 16 && |all[4]| == 13 && |all[5]| == 17;
    assert |all[6]| == 21 && |all[7]| == 18 && |all[8]| == 21 && |all[9]| == 21 && |all[10]| == 20;
    assert all[0][0] == 'i' && all[4][0] == 's';
    assert all[6][6] == 'e' && all[8][6] == 'e' && all[6][7] == 'm' && all[8][7] == 'x' && all[9][0] == 's';
    assert all[6][0] == 'v' && all[8][0] == 'v';
  }

  /** The page lists every event the registry counts. */
  lemma EventListIsComplete()
    ensures Elements(EventList()) == PRODUCT_EVENTS
  {
  }

  lemma EventsNoRepeat(events: map<string, nat>)
    ensures NoRepeat(EventSamples(events)) && InFamily(EventSamples(events), FamilyOf(EVENTS))
    ensures Named(EventSamples(events), EVENTS)
  {
    hide Decimal, FamilyOf, EventList, EventCount;
    var all := EventSamples(events);
    forall i, j | 0 <= i < j < |all|
      ensures !SameSeries(all[i], all[j])
    {
      EventsDiffer(i, j);
      assert all[i].labels[0].value == EventList()[i] && all[j].labels[0].value == EventList()[j];
    }
  }

  lemma FreshnessNoRepeat(fresh': nat, stale: nat)
    ensures NoRepeat(FreshnessSamples(fresh', stale)) && InFamily(FreshnessSamples(fresh', stale), FamilyOf(FRESHNESS))
    ensures Named(FreshnessSamples(fresh', stale), FRESHNESS)
  {
    hide Decimal, FamilyOf;
    var all := FreshnessSamples(fresh', stale);
    assert all[0].labels[0].value == "fresh" && all[1].labels[0].value == "stale";
    assert "fresh"[0] != "stale"[0];
  }

  /** The section holds samples of its own metric only. */
  ghost predicate OwnSamples(section: Section) {
    if section.kind == "histogram" then NamedAsHistogram(section.samples, section.name)
    else Named(section.samples, section.name)
  }

  /** Section k of the page holds its own samples, all of metric k, and no series twice. */
  ghost predicate Tidy(section: Section, k: int) {
    && FamilyOf(section.name) == k && InFamily(section.samples, k) && NoRepeat(section.samples)
    && OwnSamples(section)
  }

  lemma KindsDiffer()
    ensures "counter" != "histogram" && "gauge" != "histogram"
  {
    assert |"counter"| == 7 && |"gauge"| == 5 && |"histogram"| == 9;
  }

  lemma SectionsAreTidy(s: Snapshot, format: real -> string)
    requires WholeSnapshot(s)
    ensures |Sections(s, format)| == 9 && forall k | 0 <= k < 9 :: Tidy(Sections(s, format)[k], k)
  {
    hide FamilyOf, NoRepeat, HistogramsOf, CounterSamples, CountSamples, EventSamples, FreshnessSamples, Decimal;
    hide HttpLines, ResultLines, ExternalLines, SortedSamples, WholeLines, WholeBuckets, DistinctLabels;
    hide InFamily, Named, NamedAsHistogram;
    LinesAreWhole(s);
    KindsDiffer();
    CounterFamilies();
    HistogramFamilies();
    ResultLabelsDistinct(s.recommendations);
    ExternalLabelsDistinct(s.external);
    HttpLabelsDistinct(s.http);
    CountsNoRepeat(s.http);
    LinesNoRepeat(DURATION, HttpLines(s.http), format);
    CountersNoRepeat(RECOMMENDATIONS, ResultLines(s.recommendations));
    CountersNoRepeat(EXTERNAL_REQUESTS, ExternalLines(s.external));
    LinesNoRepeat(EXTERNAL_DURATION, ExternalLines(s.external), format);
    LinesNoRepeat(RECOMMENDATION_DURATION, ResultLines(s.recommendations), format);
    EventsNoRepeat(s.events);
    OneNoRepeat(Sample(FACILITIES, [], Decimal(s.facilities)));
    FreshnessNoRepeat(s.fresh', s.stale);
  }

  lemma LinesNoRepeat(name: string, lines: seq<Line>, format: real -> string)
    requires WholeLines(lines) && DistinctLabels(lines) && FamilyOf(name) >= 0
    ensures NoRepeat(HistogramsOf(name, lines, format)) && InFamily(HistogramsOf(name, lines, format), FamilyOf(name))
    ensures NamedAsHistogram(HistogramsOf(name, lines, format), name)
  {
    hide FamilyOf, NoRepeat, HistogramsOf, WholeLines, DistinctLabels, InFamily, NamedAsHistogram;
    HistogramsNoRepeat(name, lines, format);
    HistogramsInFamily(name, lines, format);
  }

  lemma OneNoRepeat(x: Sample)
    ensures NoRepeat([x]) && InFamily([x], FamilyOf(x.name)) && Named([x], x.name)
  {
  }

  /**
   The page of any snapshot reads back to its nine sections in order, each TYPE line before
   its samples; no two sections are of one metric, each holds samples of its own metric only,
   and no two samples of the page name the same series.
   */
  lemma RenderedPageReadsBack(s: Snapshot, format: real -> string)
    requires WholeSnapshot(s) && forall x :: '\n' !in format(x)
    ensures var page := Sections(s, format);
            && ReadPage(PageText(page)) == Some(page)
            && (forall i, j | 0 <= i < j < |page| :: page[i].name != page[j].name)
            && (forall i | 0 <= i < |page| :: OwnSamples(page[i]) && NoRepeat(page[i].samples))
            && (forall i, j, x, y | 0 <= i < j < |page| && x in page[i].samples && y in page[j].samples :: !SameSeries(x, y))
  {
    hide FamilyOf, NoRepeat, OwnSamples, Sections, PrintableSection, ReadPage, PageText;
    SectionsArePrintable(s, format);
    SectionsAreTidy(s, format);
    PageReadsBack(Sections(s, format));
  }
}
