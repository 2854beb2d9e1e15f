/** What the registry's counters and histograms mean after any sequence of observations. */
module MetricsLaws {
  import opened Metrics

  datatype Observation<K> = Observation(label': K, seconds: real)

  /** The readings after the observations, in order, starting from none. */
  function After<K>(history: seq<Observation<K>>): (m: Readings<K>)
    ensures WholeBuckets(m)
  {
    if history == [] then map[]
    else
      var n := |history| - 1;
      RecordedUnder(After(history[..n]), history[n].label', history[n].seconds)
  }

  /** The clamped latencies observed under one label, in order. */
  function Latencies<K(==)>(history: seq<Observation<K>>, k: K): seq<real> {
    if history == [] then []
    else
      var n := |history| - 1;
      var latency := if history[n].seconds < 0.0 then 0.0 else history[n].seconds;
      Latencies(history[..n], k) + if history[n].label' == k then [latency] else []
  }

  /** How many of the latencies are at most the bound. */
  function CountAtMost(latencies: seq<real>, bound: real): nat {
    if latencies == [] then 0
    else CountAtMost(latencies[..|latencies| - 1], bound) + if latencies[|latencies| - 1] <= bound then 1 else 0
  }

  function Sum(latencies: seq<real>): real {
    if latencies == [] then 0.0 else Sum(latencies[..|latencies| - 1]) + latencies[|latencies| - 1]
  }

  /** The reading that a list of latencies amounts to. */
  ghost predicate Summarises(r: Reading, latencies: seq<real>) {
    && r.count == r.latency.count == |latencies|
    && r.latency.sum == Sum(latencies)
    && |r.latency.buckets| == |BOUNDS|
    && forall i | 0 <= i < |BOUNDS| :: r.latency.buckets[i] == CountAtMost(latencies, BOUNDS[i])
  }

  lemma SummaryGrows(r: Reading, latencies: seq<real>, seconds: real)
    requires Summarises(r, latencies)
    ensures Summarises(Recorded(r, seconds), latencies + [Clamped(seconds)])
  {
    assert (latencies + [Clamped(seconds)])[..|latencies|] == latencies;
  }

  /**
   After any observations a label has a reading exactly when it was observed, and then each
   bucket is the number of its clamped latencies at or below the bucket's bound.
   */
  lemma {:induction false} BucketsCount<K>(history: seq<Observation<K>>, k: K)
    ensures k in After(history) <==> exists o :: o in history && o.label' == k
    ensures if k in After(history) then Summarises(After(history)[k], Latencies(history, k)) else Latencies(history, k) == []
  {
    if history != [] {
      var n := |history| - 1;
      BucketsCount(history[..n], k);
      assert history == history[..n] + [history[n]];
      assert forall o :: o in history <==> o in history[..n] || o == history[n];
      hide Recorded, Summarises;
      if history[n].label' == k {
        if k !in After(history[..n]) { EmptySummary(); }
        SummaryGrows(if k in After(history[..n]) then After(history[..n])[k] else EMPTY_READING,
                     Latencies(history[..n], k), history[n].seconds);
      } else {
        assert Latencies(history, k) == Latencies(history[..n], k);
      }
    }
  }

  lemma EmptySummary()
    ensures Summarises(EMPTY_READING, [])
  {
  }

  lemma {:induction false} CountIsMonotone(latencies: seq<real>, a: real, b: real)
    requires a <= b
    ensures CountAtMost(latencies, a) <= CountAtMost(latencies, b) <= |latencies|
  {
    if latencies != [] {
      CountIsMonotone(latencies[..|latencies| - 1], a, b);
    }
  }

  lemma BoundsIncrease(i: nat, j: nat)
    requires i <= j < |BOUNDS|
    ensures BOUNDS[i] <= BOUNDS[j]
  {
  }

  /** Buckets are cumulative: non-decreasing in the bound and never above the count. */
  lemma BucketsAreCumulative(r: Reading, latencies: seq<real>, i: nat, j: nat)
    requires Summarises(r, latencies) && i <= j < |BOUNDS|
    ensures r.latency.buckets[i] <= r.latency.buckets[j] <= r.latency.count
  {
    BoundsIncrease(i, j);
    CountIsMonotone(latencies, BOUNDS[i], BOUNDS[j]);
  }

  // ---------- nothing is counted twice or lost ----------

  /** The counts of all labels together. */
  ghost function Total<K(!new)>(m: Readings<K>): nat
    decreases |m|
  {
    if m == map[] then 0
    else
      var k :| k in m;
      m[k].count + Total(m - {k})
  }

  lemma {:induction false} TotalSplits<K(!new)>(m: Readings<K>, k: K)
    requires k in m
    ensures Total(m) == m[k].count + Total(m - {k})
    decreases |m|
  {
    var x :| x in m && Total(m) == m[x].count + Total(m - {x});
    if x != k {
      TotalSplits(m - {x}, k);
      TotalSplits(m - {k}, x);
      assert m - {x} - {k} == m - {k} - {x};
    }
  }

  /** Over all labels the counts add up to the number of observations. */
  lemma {:induction false} CountsAddUp<K(!new)>(history: seq<Observation<K>>)
    ensures Total(After(history)) == |history|
  {
    if history != [] {
      var n := |history| - 1;
      var before, after, k := After(history[..n]), After(history), history[n].label';
      CountsAddUp(history[..n]);
      TotalSplits(after, k);
      if k in before {
        TotalSplits(before, k);
        assert after - {k} == before - {k};
      } else {
        assert after - {k} == before;
      }
    }
  }
}
