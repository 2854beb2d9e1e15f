/**
 What the metrics page says (internal/observability/prometheus.go:42-191): which series it
 has, and that the number read off each is its own field of the snapshot.
 */
module PageMeaning {
  import opened Wrappers
  import opened Ordering
  import opened Metrics
  import opened MetricsLaws
  import opened Exposition
  import opened Page
  import opened MetricsPage

  /** Among the samples is the series of this name and these labels, and it reads n. */
  ghost predicate Shows(samples: seq<Sample>, name: string, labels: seq<Label>, n: nat) {
    exists x :: x in samples && x.name == name && x.labels == labels && CountOn(x) == Some(n)
  }

  /** The series of one histogram: a bucket for each bound, the bucket of all, the sum, the count. */
  ghost predicate ShowsHistogram(samples: seq<Sample>, name: string, labels: seq<Label>, h: Histogram, format: real -> string) {
    && |h.buckets| == |LE_TEXTS|
    && (forall i | 0 <= i < |LE_TEXTS| :: Shows(samples, name + "_bucket", labels + [Label("le", LE_TEXTS[i])], h.buckets[i]))
    && Shows(samples, name + "_bucket", labels + [Label("le", "+Inf")], h.count)
    && Shows(samples, name + "_count", labels, h.count)
    && Sample(name + "_sum", labels, format(h.sum)) in samples
  }

  /** The counter and the histogram of one label of a metric; a missing label reads as nothing observed. */
  ghost predicate ShowsReading<K>(counters: seq<Sample>, counter: string, histograms: seq<Sample>, histogram: string,
                                  labels: seq<Label>, m: Readings<K>, k: K, format: real -> string)
  {
    && Shows(counters, counter, labels, if k in m then m[k].count else 0)
    && ShowsHistogram(histograms, histogram, labels, if k in m then m[k].latency else EMPTY_HISTOGRAM, format)
  }

  ghost predicate ShowsHttp(page: seq<Section>, m: Readings<HttpLabels>, format: real -> string)
    requires |page| == 9
  {
    && |page[0].samples| == |m| && |page[1].samples| == 14 * |m|
    && forall k | k in m ::
         ShowsReading(page[0].samples, REQUESTS, page[1].samples, DURATION,
                      [Label("route", k.routeTemplate), Label("method", k.method'), Label("status_class", k.statusClass)],
                      m, k, format)
  }

  ghost predicate ShowsRecommendations(page: seq<Section>, m: Readings<RecommendationResult>, format: real -> string)
    requires |page| == 9
  {
    var counters, histograms := page[2].samples, page[5].samples;
    && |counters| == 3 && |histograms| == 42
    && ShowsReading(counters, RECOMMENDATIONS, histograms, RECOMMENDATION_DURATION,
                    [Label("result", "success")], m, ResultSuccess, format)
    && ShowsReading(counters, RECOMMENDATIONS, histograms, RECOMMENDATION_DURATION,
                    [Label("result", "no_results")], m, NoResults, format)
    && ShowsReading(counters, RECOMMENDATIONS, histograms, RECOMMENDATION_DURATION,
                    [Label("result", "error")], m, ResultError, format)
  }

  ghost predicate ShowsCall(page: seq<Section>, m: Readings<ExternalLabels>, provider: string, result: string, k: ExternalLabels,
                            format: real -> string)
    requires |page| == 9
  {
    ShowsReading(page[3].samples, EXTERNAL_REQUESTS, page[4].samples, EXTERNAL_DURATION,
                 [Label("provider", provider), Label("result", result)], m, k, format)
  }

  ghost predicate ShowsExternal(page: seq<Section>, m: Readings<ExternalLabels>, format: real -> string)
    requires |page| == 9
  {
    && |page[3].samples| == 4 && |page[4].samples| == 56
    && ShowsCall(page, m, "google_routes", "success", ExternalLabels(GoogleRoutes, CallSuccess), format)
    && ShowsCall(page, m, "google_routes", "error", ExternalLabels(GoogleRoutes, CallError), format)
    && ShowsCall(page, m, "google_geocoding", "success", ExternalLabels(GoogleGeocoding, CallSuccess), format)
    && ShowsCall(page, m, "google_geocoding", "error", ExternalLabels(GoogleGeocoding, CallError), format)
  }

  ghost predicate ShowsEvents(page: seq<Section>, events: map<string, nat>)
    requires |page| == 9
  {
    && |page[6].samples| == 11
    && forall e | e in PRODUCT_EVENTS :: Shows(page[6].samples, EVENTS, [Label("event", e)], if e in events then events[e] else 0)
  }

  ghost predicate ShowsCatalog(page: seq<Section>, facilities: nat, fresh': nat, stale: nat)
    requires |page| == 9
  {
    && |page[7].samples| == 1 && Shows(page[7].samples, FACILITIES, [], facilities)
    && |page[8].samples| == 2 && Shows(page[8].samples, FRESHNESS, [Label("state", "fresh")], fresh')
    && Shows(page[8].samples, FRESHNESS, [Label("state", "stale")], stale)
  }

  /** Every field of the snapshot has its series, and there are no others. */
  ghost predicate ShowsSnapshot(page: seq<Section>, s: Snapshot, format: real -> string) {
    && |page| == 9
    && ShowsHttp(page, s.http, format) && ShowsRecommendations(page, s.recommendations, format)
    && ShowsExternal(page, s.external, format) && ShowsEvents(page, s.events)
    && ShowsCatalog(page, s.facilities, s.fresh', s.stale)
  }

  // ---------- lines ----------

  lemma ShownAt(samples: seq<Sample>, name: string, labels: seq<Label>, n: nat)
    requires Sample(name, labels, Decimal(n)) in samples
    ensures Shows(samples, name, labels, n)
  {
    CountIsOn(name, labels, n);
    hide CountOn, Decimal;
  }

  lemma CounterShown(name: string, lines: seq<Line>, i: nat)
    requires i < |lines|
    ensures |CounterSamples(name, lines)| == |lines|
    ensures Shows(CounterSamples(name, lines), name, lines[i].labels, lines[i].reading.count)
  {
    hide Decimal, Shows;
    assert CounterSamples(name, lines)[i] == Sample(name, lines[i].labels, Decimal(lines[i].reading.count));
    ShownAt(CounterSamples(name, lines), name, lines[i].labels, lines[i].reading.count);
  }

  lemma OneHistogramShown(samples: seq<Sample>, name: string, labels: seq<Label>, h: Histogram, format: real -> string)
    requires |h.buckets| == |LE_TEXTS| && forall x | x in HistogramSamples(name, labels, h, format) :: x in samples
    ensures ShowsHistogram(samples, name, labels, h, format)
  {
    hide Shows, Decimal;
    var own, n := HistogramSamples(name, labels, h, format), |LE_TEXTS|;
    forall i | 0 <= i < n
      ensures Shows(samples, name + "_bucket", labels + [Label("le", LE_TEXTS[i])], h.buckets[i])
    {
      assert own[i] in samples;
      ShownAt(samples, name + "_bucket", labels + [Label("le", LE_TEXTS[i])], h.buckets[i]);
    }
    assert own[n] in samples && own[n + 1] in samples && own[n + 2] in samples;
    ShownAt(samples, name + "_bucket", labels + [Label("le", "+Inf")], h.count);
    ShownAt(samples, name + "_count", labels, h.count);
  }

  lemma {:induction false} HistogramsHold(name: string, lines: seq<Line>, format: real -> string, i: nat)
    requires WholeLines(lines) && i < |lines|
    ensures |lines[i].reading.latency.buckets| == |LE_TEXTS|
    ensures forall x | x in HistogramSamples(name, lines[i].labels, lines[i].reading.latency, format) ::
              x in HistogramsOf(name, lines, format)
  {
    hide HistogramSamples;
    var n := |lines| - 1;
    assert lines[n] in lines && lines[i] in lines;
    if i < n { HistogramsHold(name, lines[..n], format, i); }
  }

  lemma {:induction false} HistogramsLength(name: string, lines: seq<Line>, format: real -> string)
    requires WholeLines(lines)
    ensures |HistogramsOf(name, lines, format)| == 14 * |lines|
  {
    if lines != [] {
      var last := lines[|lines| - 1];
      assert last in lines;
      HistogramsLength(name, lines[..|lines| - 1], format);
      assert |HistogramSamples(name, last.labels, last.reading.latency, format)| == 14;
    }
  }

  /** A line's counter and histogram, in the two sections made from the lines. */
  lemma LineShown(counter: string, histogram: string, lines: seq<Line>, format: real -> string, i: nat)
    requires WholeLines(lines) && i < |lines|
    ensures Shows(CounterSamples(counter, lines), counter, lines[i].labels, lines[i].reading.count)
    ensures ShowsHistogram(HistogramsOf(histogram, lines, format), histogram, lines[i].labels, lines[i].reading.latency, format)
  {
    hide CounterSamples, HistogramsOf, HistogramSamples, Shows, ShowsHistogram, WholeLines;
    CounterShown(counter, lines, i);
    HistogramsHold(histogram, lines, format, i);
    OneHistogramShown(HistogramsOf(histogram, lines, format), histogram, lines[i].labels, lines[i].reading.latency, format);
  }

  // ---------- what a bucket counts ----------

  /** The number a plain decimal text such as "0.25" stands for. */
  function ReadNumber(s: string): real {
    ReadWhole(s, 0.0)
  }

  function DigitValue(c: char): real {
    (c as int - '0' as int) as real
  }

  function ReadWhole(s: string, acc: real): real {
    if s == "" then acc
    else if s[0] == '.' then acc + ReadFraction(s[1..])
    else ReadWhole(s[1..], 10.0 * acc + DigitValue(s[0]))
  }

  function ReadFraction(s: string): real {
    if s == "" then 0.0 else (DigitValue(s[0]) + ReadFraction(s[1..])) / 10.0
  }

  lemma ReadsWhole(c: char)
    requires '0' <= c <= '9'
    ensures ReadNumber([c]) == DigitValue(c)
  {
    assert [c][1..] == "";
    assert ReadWhole("", DigitValue(c)) == DigitValue(c);
  }

  lemma ReadsFraction(c: char, digits: string)
    requires '0' <= c <= '9'
    ensures ReadNumber([c, '.'] + digits) == DigitValue(c) + ReadFraction(digits)
  {
    var s := [c, '.'] + digits;
    assert s[1..] == ['.'] + digits && s[1..][1..] == digits;
    assert ReadWhole(s[1..], DigitValue(c)) == DigitValue(c) + ReadFraction(digits);
  }

  lemma FractionStep(c: char, digits: string)
    ensures ReadFraction([c] + digits) == (DigitValue(c) + ReadFraction(digits)) / 10.0
  {
    assert ([c] + digits)[1..] == digits;
  }

  lemma Fractions()
    ensures ReadFraction("1") == 0.1 && ReadFraction("5") == 0.5 && ReadFraction("25") == 0.25
    ensures ReadFraction("01") == 0.01 && ReadFraction("05") == 0.05 && ReadFraction("025") == 0.025 && ReadFraction("005") == 0.005
  {
    assert ReadFraction("") == 0.0;
    hide ReadFraction;
    FractionStep('1', "");
    FractionStep('5', "");
    assert "25" == ['2'] + "5" && "01" == ['0'] + "1" && "05" == ['0'] + "5" && "025" == ['0'] + "25" && "005" == ['0'] + "05";
    FractionStep('2', "5");
    FractionStep('0', "1");
    FractionStep('0', "5");
    FractionStep('0', "25");
    FractionStep('0', "05");
  }

  /** The `le` text of a bucket is its bound. */
  lemma BoundTextsRead(i: nat)
    requires i < |LE_TEXTS|
    ensures |LE_TEXTS| == |BOUNDS| && ReadNumber(LE_TEXTS[i]) == BOUNDS[i]
  {
    Fractions();
    match i
    case 0 => TextReads("0.005", '0', "005");
    case 1 => TextReads("0.01", '0', "01");
    case 2 => TextReads("0.025", '0', "025");
    case 3 => TextReads("0.05", '0', "05");
    case 4 => TextReads("0.1", '0', "1");
    case 5 => TextReads("0.25", '0', "25");
    case 6 => TextReads("0.5", '0', "5");
    case 7 => ReadsWhole('1');
    case 8 => TextReads("2.5", '2', "5");
    case 9 => ReadsWhole('5');
    case 10 => TenReads();
  }

  lemma TextReads(s: string, c: char, digits: string)
    requires '0' <= c <= '9' && s == [c, '.'] + digits
    ensures ReadNumber(s) == DigitValue(c) + ReadFraction(digits)
  {
    ReadsFraction(c, digits);
  }

  lemma TenReads()
    ensures ReadNumber("10") == 10.0
  {
    assert "10"[1..] == "0" && "0"[1..] == "";
    assert ReadWhole("", 10.0) == 10.0;
    assert ReadWhole("0", 1.0) == 10.0;
  }

  /**
   After any observations, the bucket line of a label that was observed reads the number of
   its latencies, negative ones counted as zero, at or below the number its `le` text stands for.
   */
  lemma PrintedBucketsCount<K>(history: seq<Observation<K>>, k: K, name: string, labels: seq<Label>, format: real -> string, i: nat)
    requires k in After(history) && i < |LE_TEXTS|
    ensures var h := After(history)[k].latency;
            && |h.buckets| == |LE_TEXTS|
            && HistogramSamples(name, labels, h, format)[i].labels == labels + [Label("le", LE_TEXTS[i])]
            && CountOn(HistogramSamples(name, labels, h, format)[i])
            == Some(CountAtMost(Latencies(history, k), ReadNumber(LE_TEXTS[i])))
  {
    BucketsCount(history, k);
    BoundTextsRead(i);
    hide After, Latencies, CountAtMost, ReadNumber, CountOn, Decimal;
    LinesCarryCounts(name, labels, After(history)[k].latency, format);
  }

  // ---------- sections ----------

  lemma HttpShown(m: Readings<HttpLabels>, format: real -> string, k: HttpLabels)
    requires WholeBuckets(m) && WholeLines(HttpLines(m)) && k in m
    ensures ShowsReading(CountSamples(SortedSamples(m)), REQUESTS, HistogramsOf(DURATION, HttpLines(m), format), DURATION,
                         [Label("route", k.routeTemplate), Label("method", k.method'), Label("status_class", k.statusClass)],
                         m, k, format)
  {
    hide Decimal, Shows, ShowsHistogram, HistogramsOf, WholeLines, WholeBuckets, CounterSamples, HttpBefore;
    var samples := SortedSamples(m);
    assert HttpSample(k, m[k]) in Elements(samples);
    var i :| 0 <= i < |samples| && samples[i] == HttpSample(k, m[k]);
    LineShown(REQUESTS, DURATION, HttpLines(m), format, i);
    assert CountSamples(samples)[i] == Sample(REQUESTS, HttpPrometheusLabels(k), Decimal(m[k].count));
    ShownAt(CountSamples(samples), REQUESTS, HttpPrometheusLabels(k), m[k].count);
  }

  lemma HttpSectionsShown(m: Readings<HttpLabels>, format: real -> string)
    requires WholeBuckets(m) && WholeLines(HttpLines(m))
    ensures |CountSamples(SortedSamples(m))| == |m| && |HistogramsOf(DURATION, HttpLines(m), format)| == 14 * |m|
  {
    hide HttpBefore, HttpPrometheusLabels, WholeLines, WholeBuckets, HistogramsOf;
    SamplesNumber(m);
    HistogramsLength(DURATION, HttpLines(m), format);
  }

  lemma SamplesNumber(m: Readings<HttpLabels>)
    ensures |SortedSamples(m)| == |m|
  {
    var samples := SortedSamples(m);
    forall i, j | 0 <= i < j < |samples|
      ensures samples[i] != samples[j]
    {
      StringLessIrreflexive(samples[i].labels.statusClass);
    }
    NoDuplicatesCardinality(samples);
    hide HttpBefore;
    SampleSetSize(m);
  }

  lemma {:induction false} SampleSetSize(m: Readings<HttpLabels>)
    ensures |SampleSet(m)| == |m|
    decreases |m|
  {
    if m != map[] {
      var k :| k in m;
      SampleSetSize(m - {k});
      var rest := m - {k};
      assert forall other | other in m && other != k :: other in rest && rest[other] == m[other];
      assert SampleSet(m) == SampleSet(rest) + {HttpSample(k, m[k])};
    }
  }

  lemma ResultsShown(m: Readings<RecommendationResult>, format: real -> string, page: seq<Section>)
    requires WholeLines(ResultLines(m)) && |page| == 9
    requires page[2].samples == CounterSamples(RECOMMENDATIONS, ResultLines(m))
    requires page[5].samples == HistogramsOf(RECOMMENDATION_DURATION, ResultLines(m), format)
    ensures ShowsRecommendations(page, m, format)
  {
    hide Shows, ShowsHistogram, HistogramsOf, CounterSamples, WholeLines;
    var lines := ResultLines(m);
    HistogramsLength(RECOMMENDATION_DURATION, lines, format);
    CounterShown(RECOMMENDATIONS, lines, 0);
    LineShown(RECOMMENDATIONS, RECOMMENDATION_DURATION, lines, format, 0);
    LineShown(RECOMMENDATIONS, RECOMMENDATION_DURATION, lines, format, 1);
    LineShown(RECOMMENDATIONS, RECOMMENDATION_DURATION, lines, format, 2);
  }

  lemma CallsShown(m: Readings<ExternalLabels>, format: real -> string, page: seq<Section>)
    requires WholeLines(ExternalLines(m)) && |page| == 9
    requires page[3].samples == CounterSamples(EXTERNAL_REQUESTS, ExternalLines(m))
    requires page[4].samples == HistogramsOf(EXTERNAL_DURATION, ExternalLines(m), format)
    ensures ShowsExternal(page, m, format)
  {
    hide Shows, ShowsHistogram, HistogramsOf, CounterSamples, WholeLines;
    var lines := ExternalLines(m);
    HistogramsLength(EXTERNAL_DURATION, lines, format);
    CounterShown(EXTERNAL_REQUESTS, lines, 0);
    LineShown(EXTERNAL_REQUESTS, EXTERNAL_DURATION, lines, format, 0);
    LineShown(EXTERNAL_REQUESTS, EXTERNAL_DURATION, lines, format, 1);
    LineShown(EXTERNAL_REQUESTS, EXTERNAL_DURATION, lines, format, 2);
    LineShown(EXTERNAL_REQUESTS, EXTERNAL_DURATION, lines, format, 3);
  }

  lemma EventsShown(events: map<string, nat>, page: seq<Section>)
    requires |page| == 9 && page[6].samples == EventSamples(events)
    ensures ShowsEvents(page, events)
  {
    hide Shows, Decimal, EventList;
    EventListIsComplete();
    assert |EventList()| == 11 by { EventsNumber(); }
    var all := EventSamples(events);
    forall e | e in PRODUCT_EVENTS
      ensures Shows(all, EVENTS, [Label("event", e)], EventCount(events, e))
    {
      assert e in Elements(EventList());
      var i :| 0 <= i < |EventList()| && EventList()[i] == e;
      assert all[i] == Sample(EVENTS, [Label("event", e)], Decimal(EventCount(events, e)));
      ShownAt(all, EVENTS, [Label("event", e)], EventCount(events, e));
    }
  }

  lemma EventsNumber()
    ensures |EventList()| == 11
  {
  }

  lemma CatalogShown(facilities: nat, fresh': nat, stale: nat, page: seq<Section>)
    requires |page| == 9 && page[7].samples == [Sample(FACILITIES, [], Decimal(facilities))]
    requires page[8].samples == FreshnessSamples(fresh', stale)
    ensures ShowsCatalog(page, facilities, fresh', stale)
  {
    hide Shows, Decimal;
    assert page[7].samples[0] == Sample(FACILITIES, [], Decimal(facilities));
    ShownAt(page[7].samples, FACILITIES, [], facilities);
    assert page[8].samples[0] == Sample(FRESHNESS, [Label("state", "fresh")], Decimal(fresh'));
    assert page[8].samples[1] == Sample(FRESHNESS, [Label("state", "stale")], Decimal(stale));
    ShownAt(page[8].samples, FRESHNESS, [Label("state", "fresh")], fresh');
    ShownAt(page[8].samples, FRESHNESS, [Label("state", "stale")], stale);
  }

  lemma SectionsShowSnapshot(s: Snapshot, format: real -> string)
    requires WholeSnapshot(s)
    ensures ShowsSnapshot(Sections(s, format), s, format)
  {
    hide ShowsReading, ShowsRecommendations, ShowsExternal, ShowsEvents, ShowsCatalog, CountSamples, CounterSamples, HistogramsOf;
    hide HttpLines, ResultLines, ExternalLines, EventSamples, FreshnessSamples, WholeLines, WholeBuckets, SortedSamples, Decimal;
    LinesAreWhole(s);
    var page := Sections(s, format);
    forall k | k in s.http { HttpShown(s.http, format, k); }
    HttpSectionsShown(s.http, format);
    ResultsShown(s.recommendations, format, page);
    CallsShown(s.external, format, page);
    EventsShown(s.events, page);
    CatalogShown(s.facilities, s.fresh', s.stale, page);
  }

  /**
   Reading the page of any snapshot gives nine sections that show the snapshot: each field
   under its own name and labels, nothing else, and no series twice.
   */
  lemma PageShowsSnapshot(s: Snapshot, format: real -> string)
    requires WholeSnapshot(s) && forall x :: '\n' !in format(x)
    ensures var read := ReadPage(PageText(Sections(s, format)));
            && read.Some? && ShowsSnapshot(read.value, s, format)
            && forall i | 0 <= i < |read.value| :: NoRepeat(read.value[i].samples)
  {
    hide ShowsSnapshot, Sections, PageText, ReadPage, NoRepeat, OwnSamples, SameSeries;
    RenderedPageReadsBack(s, format);
    SectionsShowSnapshot(s, format);
  }
}
