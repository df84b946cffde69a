/**
 The two database tables of dnsping as an abstract store, and the two
 operations the prober performs on them: `init_stats` (a zero row per domain,
 inserted only where the primary key is free) and `updateDB` (append one
 sample, then recompute the domain's row from the whole sample history).
 */
module Persistence {

  /** A row of `timeseries`: one successful probe. */
  datatype Sample = Sample(domain: string, ts: int, latency: nat)

  /** A row of `stats`, keyed by domain. */
  datatype StatsRow = StatsRow(avgLatency: real, stdLatency: real, probes: int, tsFirst: int, tsLast: int)

  /** The row `init_stats` inserts: every field zero. */
  const ZeroRow := StatsRow(0.0, 0.0, 0, 0, 0)

  /** Both tables: the time series in insertion order, and the stats rows by primary key. */
  datatype Store = Store(series: seq<Sample>, stats: map<string, StatsRow>)

  /** The samples recorded for one domain, in insertion order. */
  function SamplesOf(series: seq<Sample>, d: string): (r: seq<Sample>)
    ensures |r| <= |series|
    ensures forall i :: 0 <= i < |r| ==> r[i].domain == d
  {
    if |series| == 0 then []
    else
      var last := series[|series| - 1];
      SamplesOf(series[..|series| - 1], d) + (if last.domain == d then [last] else [])
  }

  function Latencies(samples: seq<Sample>): (r: seq<nat>)
    ensures |r| == |samples|
  {
    if |samples| == 0 then [] else Latencies(samples[..|samples| - 1]) + [samples[|samples| - 1].latency]
  }

  function Sum(xs: seq<nat>): (r: nat) {
    if |xs| == 0 then 0 else Sum(xs[..|xs| - 1]) + xs[|xs| - 1]
  }

  /** The exact arithmetic mean, as `AVG(latency)` computes it. */
  function Mean(xs: seq<nat>): (r: real)
    requires |xs| > 0
  {
    Sum(xs) as real / |xs| as real
  }

  /** The mean latency over every sample recorded for `d`. */
  function MeanLatency(series: seq<Sample>, d: string): (r: real)
    requires |SamplesOf(series, d)| > 0
  {
    Mean(Latencies(SamplesOf(series, d)))
  }

  /** One `INSERT` into `stats`: it fails, leaving the table as it was, when the key exists. */
  function InsertIfAbsent(stats: map<string, StatsRow>, d: string): (r: map<string, StatsRow>) {
    if d in stats then stats else stats[d := ZeroRow]
  }

  /**
   `init_stats`: one insert per loaded domain, in list order. Rows from earlier
   runs are kept; every other listed domain gets a zero row.
   */
  function InitStats(s: Store, domains: seq<string>): (r: Store)
    ensures r.series == s.series
    ensures r.stats.Keys == s.stats.Keys + set d | d in domains
    ensures forall d :: d in s.stats ==> r.stats[d] == s.stats[d]
    ensures forall d :: d in r.stats && d !in s.stats ==> r.stats[d] == ZeroRow
  {
    if |domains| == 0 then s
    else
      var before := InitStats(s, domains[..|domains| - 1]);
      assert domains == domains[..|domains| - 1] + [domains[|domains| - 1]];
      before.(stats := InsertIfAbsent(before.stats, domains[|domains| - 1]))
  }

  lemma SamplesOfAppend(series: seq<Sample>, x: Sample, d: string)
    ensures SamplesOf(series + [x], d) == SamplesOf(series, d) + (if x.domain == d then [x] else [])
  {
    assert (series + [x])[..|series|] == series;
  }

  /**
   `updateDB`: append the sample, then, when the domain's stats row can be
   read, rewrite it: one more probe, the mean over the whole history, the
   standard deviation the database reports (`std`), the first timestamp only
   when this is the first probe, and the last timestamp always.
   */
  function UpdateDB(s: Store, domain: string, latency: nat, ts: int, std: real, statsReadable: bool): (r: Store)
    ensures r.series == s.series + [Sample(domain, ts, latency)]
    ensures r.stats.Keys == s.stats.Keys
    ensures forall e :: e in s.stats && e != domain ==> r.stats[e] == s.stats[e]
    ensures !statsReadable || domain !in s.stats ==> r.stats == s.stats
    ensures statsReadable && domain in s.stats ==>
      var prev, row := s.stats[domain], r.stats[domain];
      && |SamplesOf(r.series, domain)| == |SamplesOf(s.series, domain)| + 1
      && row.probes == prev.probes + 1
      && row.avgLatency == MeanLatency(r.series, domain)
      && row.stdLatency == std
      && row.tsLast == ts
      && (row.probes == 1 ==> row.tsFirst == ts)
      && (row.probes != 1 ==> row.tsFirst == prev.tsFirst)
  {
    var sample := Sample(domain, ts, latency);
    var series := s.series + [sample];
    SamplesOfAppend(s.series, sample, domain);
    if !statsReadable || domain !in s.stats then
      Store(series, s.stats)
    else
      var prev := s.stats[domain];
      var probes := prev.probes + 1;
      var tsFirst := if probes == 1 then ts else prev.tsFirst;
      var row := StatsRow(MeanLatency(series, domain), std, probes, tsFirst, ts);
      Store(series, s.stats[domain := row])
  }

  /** Recomputing the mean over the whole history agrees with a running mean. */
  lemma MeanExtend(xs: seq<nat>, x: nat)
    requires |xs| > 0
    ensures Mean(xs + [x]) == (Mean(xs) * |xs| as real + x as real) / (|xs| + 1) as real
  {
    assert (xs + [x])[..|xs|] == xs;
    assert Sum(xs + [x]) == Sum(xs) + x;
    var n := |xs| as real;
    assert Mean(xs) * n == Sum(xs) as real;
  }

  /** The mean lies between the smallest and the largest value. */
  lemma {:induction false} MeanBounds(xs: seq<nat>, lo: nat, hi: nat)
    requires |xs| > 0
    requires forall i :: 0 <= i < |xs| ==> lo <= xs[i] <= hi
    ensures lo as real <= Mean(xs) <= hi as real
  {
    SumBounds(xs, lo, hi);
    MeanBetween(Sum(xs), |xs|, lo, hi);
  }

  lemma MeanBetween(total: nat, n: nat, lo: nat, hi: nat)
    requires n > 0 && lo * n <= total <= hi * n
    ensures lo as real <= total as real / n as real <= hi as real
  {
    ProductAsReal(lo, n);
    ProductAsReal(hi, n);
    DivideBetween(lo as real, total as real, hi as real, n as real);
  }

  lemma ProductAsReal(a: nat, b: nat)
    ensures (a * b) as real == a as real * b as real
  {
  }

  lemma DivideBetween(lo: real, total: real, hi: real, n: real)
    requires n > 0.0 && lo * n <= total <= hi * n
    ensures lo <= total / n <= hi
  {
    assert total / n * n == total;
  }

  lemma {:induction false} SumBounds(xs: seq<nat>, lo: nat, hi: nat)
    requires forall i :: 0 <= i < |xs| ==> lo <= xs[i] <= hi
    ensures lo * |xs| <= Sum(xs) <= hi * |xs|
  {
    if |xs| > 0 {
      var n := |xs| - 1;
      SumBounds(xs[..n], lo, hi);
      assert lo * (n + 1) == lo * n + lo;
      assert hi * (n + 1) == hi * n + hi;
    }
  }

  /**
   The row of `d` agrees with its sample history: the probe count is the
   number of samples, and once there is one, the mean, first and last
   timestamps are those of the samples.
   */
  predicate RowMatchesHistory(s: Store, d: string)
    requires d in s.stats
  {
    var row, xs := s.stats[d], SamplesOf(s.series, d);
    && row.probes == |xs|
    && (|xs| > 0 ==>
          && row.avgLatency == Mean(Latencies(xs))
          && row.tsFirst == xs[0].ts
          && row.tsLast == xs[|xs| - 1].ts)
  }

  /** Every stats row agrees with the time series. */
  predicate Consistent(s: Store) {
    forall d :: d in s.stats ==> RowMatchesHistory(s, d)
  }

  /** A successful `updateDB` keeps every row in agreement with the time series. */
  lemma UpdateKeepsConsistent(s: Store, domain: string, latency: nat, ts: int, std: real)
    requires Consistent(s)
    ensures Consistent(UpdateDB(s, domain, latency, ts, std, true))
  {
    var r := UpdateDB(s, domain, latency, ts, std, true);
    forall d | d in r.stats
      ensures RowMatchesHistory(r, d)
    {
      UpdateKeepsRowMatching(s, domain, latency, ts, std, d);
    }
  }

  /** A successful `updateDB` keeps a row that agreed with its history in agreement. */
  lemma UpdateKeepsRowMatching(s: Store, domain: string, latency: nat, ts: int, std: real, d: string)
    requires d in s.stats && RowMatchesHistory(s, d)
    ensures d in UpdateDB(s, domain, latency, ts, std, true).stats
    ensures RowMatchesHistory(UpdateDB(s, domain, latency, ts, std, true), d)
  {
    var r := UpdateDB(s, domain, latency, ts, std, true);
    var sample := Sample(domain, ts, latency);
    SamplesOfAppend(s.series, sample, d);
    var xs := SamplesOf(s.series, d);
    if d == domain {
      var ys := xs + [sample];
      assert SamplesOf(r.series, d) == ys;
      assert r.stats[d].avgLatency == Mean(Latencies(ys));
      if |xs| > 0 {
        assert ys[0] == xs[0];
      }
    } else {
      assert xs + [] == xs;
      assert SamplesOf(r.series, d) == xs;
    }
  }

  /**
   When the stats read fails, the sample is still appended but the row is not
   rewritten: its probe count falls behind the history.
   */
  lemma FailedReadLosesCount(s: Store, domain: string, latency: nat, ts: int, std: real)
    requires domain in s.stats && RowMatchesHistory(s, domain)
    ensures !RowMatchesHistory(UpdateDB(s, domain, latency, ts, std, false), domain)
  {
    SamplesOfAppend(s.series, Sample(domain, ts, latency), domain);
  }

  /** `init_stats` keeps rows in agreement when the newly listed domains have no samples yet. */
  lemma InitKeepsConsistent(s: Store, domains: seq<string>)
    requires Consistent(s)
    requires forall i :: 0 <= i < |domains| && domains[i] !in s.stats ==> SamplesOf(s.series, domains[i]) == []
    ensures Consistent(InitStats(s, domains))
  {
    var r := InitStats(s, domains);
    forall d | d in r.stats
      ensures RowMatchesHistory(r, d)
    {
      if d !in s.stats {
        assert d in domains;
        var i :| 0 <= i < |domains| && domains[i] == d;
      } else {
        assert RowMatchesHistory(s, d);
      }
    }
  }

  /** Running `init_stats` again over the same list changes nothing. */
  lemma InitStatsIdempotent(s: Store, domains: seq<string>)
    ensures InitStats(InitStats(s, domains), domains) == InitStats(s, domains)
  {
    var once := InitStats(s, domains);
    var twice := InitStats(once, domains);
    assert twice.stats.Keys == once.stats.Keys;
    assert twice.stats == once.stats;
  }

  /** One reading a successful probe delivers to `updateDB`. */
  datatype Reading = Reading(ts: int, latency: nat, std: real)

  /** Successive `updateDB` calls for one domain whose stats reads all succeed. */
  function UpdateAll(s: Store, domain: string, readings: seq<Reading>): (r: Store)
    ensures r.stats.Keys == s.stats.Keys
    ensures |r.series| == |s.series| + |readings|
  {
    if |readings| == 0 then s
    else
      var x := readings[|readings| - 1];
      UpdateDB(UpdateAll(s, domain, readings[..|readings| - 1]), domain, x.latency, x.ts, x.std, true)
  }

  /**
   Once a row has a first probe, later updates never move its first timestamp,
   add one to its count each, and leave the last timestamp at the latest reading.
   */
  lemma {:induction false} UpdatesKeepFirstTimestamp(s: Store, domain: string, readings: seq<Reading>)
    requires domain in s.stats && s.stats[domain].probes >= 1
    ensures var row := UpdateAll(s, domain, readings).stats[domain];
      && row.tsFirst == s.stats[domain].tsFirst
      && row.probes == s.stats[domain].probes + |readings|
      && (|readings| > 0 ==> row.tsLast == readings[|readings| - 1].ts)
  {
    if |readings| > 0 {
      UpdatesKeepFirstTimestamp(s, domain, readings[..|readings| - 1]);
    }
  }

  /**
   Starting from a fresh zero row, the first timestamp after any number of
   updates is the first reading's, and the count is the number of readings.
   */
  lemma {:induction false} FirstTimestampIsFirstReading(s: Store, domain: string, readings: seq<Reading>)
    requires domain in s.stats && s.stats[domain].probes == 0
    requires |readings| > 0
    ensures var row := UpdateAll(s, domain, readings).stats[domain];
      && row.tsFirst == readings[0].ts
      && row.probes == |readings|
      && row.tsLast == readings[|readings| - 1].ts
  {
    var x := readings[0];
    FirstUpdate(s, domain, x);
    var first := UpdateAll(s, domain, [x]);
    UpdateAllSplit(s, domain, [x], readings[1..]);
    assert [x] + readings[1..] == readings;
    UpdatesKeepFirstTimestamp(first, domain, readings[1..]);
  }

  /** The first update of a zero-count row sets its count to one and its first timestamp. */
  lemma FirstUpdate(s: Store, domain: string, x: Reading)
    requires domain in s.stats && s.stats[domain].probes == 0
    ensures var row := UpdateAll(s, domain, [x]).stats[domain];
      row.probes == 1 && row.tsFirst == x.ts
  {
    assert [x][..0] == [];
  }

  lemma {:induction false} UpdateAllSplit(s: Store, domain: string, a: seq<Reading>, b: seq<Reading>)
    ensures UpdateAll(s, domain, a + b) == UpdateAll(UpdateAll(s, domain, a), domain, b)
  {
    if |b| > 0 {
      assert (a + b)[..|a + b| - 1] == a + b[..|b| - 1];
      UpdateAllSplit(s, domain, a, b[..|b| - 1]);
    } else {
      assert a + b == a;
    }
  }
}
