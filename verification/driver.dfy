/**
 The probing loop of dnsping's `main`: rounds over the domain list, one probe
 per domain in list order, `updateDB` after each successful probe when the
 database is in use, and a sleep between rounds.

 The real loop may run for ever; the model is handed the observations of a
 finite number of rounds and stops when they run out, so every statement is
 about the rounds that were observed.
 */
module Driver {
  import opened Probe
  import opened Persistence

  /** Seconds between rounds when `-i` is absent or not positive. */
  const DefaultInterval: nat := 60

  /** The `count` that means "probe for ever" (the default). */
  const Forever: int := -1

  /** The interval after defaulting a non-positive one to 60 seconds. */
  function EffectiveInterval(interval: int): (i: nat)
    ensures i > 0
    ensures interval > 0 ==> i == interval
    ensures interval <= 0 ==> i == DefaultInterval
  {
    if interval <= 0 then DefaultInterval else interval
  }

  /** What the start-up message promises: "for ever" or a number of times. */
  datatype Plan = ForEver | Times(n: nat)

  function Announce(count: int): (r: Plan) {
    if count < 0 then ForEver else Times(count)
  }

  /** The loop condition, evaluated before each round and again to decide whether to sleep. */
  predicate MoreRounds(count: int, done: nat) {
    count == Forever || done < count
  }

  /**
   What one probe meets: the resolver's outcome, and how the database answers
   the update (the deviation it computes, whether the stats row can be read).
   */
  datatype Observation = Observation(resolution: Resolution, std: real, statsReadable: bool)

  /** A probe's effect on the store: an update only when it answered and the database is in use. */
  function Record(s: Store, domain: string, o: Observation, usingDB: bool): (r: Store) {
    var result := Outcome(o.resolution);
    if result.Answered? && usingDB then
      UpdateDB(s, domain, result.latency, result.ts, o.std, o.statsReadable)
    else s
  }

  /** The samples a round appends: one per answered probe, in list order. */
  function NewSamples(domains: seq<string>, obs: seq<Observation>): (r: seq<Sample>)
    requires |obs| == |domains|
  {
    if |domains| == 0 then []
    else
      var n := |domains| - 1;
      NewSamples(domains[..n], obs[..n])
        + (var result := Outcome(obs[n].resolution);
           if result.Answered? then [Sample(domains[n], result.ts, result.latency)] else [])
  }

  /** One round: every domain probed once, in list order. */
  function RunRound(s: Store, domains: seq<string>, obs: seq<Observation>, usingDB: bool): (r: Store)
    requires |obs| == |domains|
    ensures r.stats.Keys == s.stats.Keys
    ensures usingDB ==> r.series == s.series + NewSamples(domains, obs)
    ensures !usingDB ==> r == s
  {
    if |domains| == 0 then s
    else
      var n := |domains| - 1;
      Record(RunRound(s, domains[..n], obs[..n], usingDB), domains[n], obs[n], usingDB)
  }

  /** Several rounds in a row. */
  function RunRounds(s: Store, domains: seq<string>, rounds: seq<seq<Observation>>, usingDB: bool): (r: Store)
    requires forall k :: 0 <= k < |rounds| ==> |rounds[k]| == |domains|
    ensures r.stats.Keys == s.stats.Keys
    ensures !usingDB ==> r == s
  {
    if |rounds| == 0 then s
    else
      var k := |rounds| - 1;
      RunRound(RunRounds(s, domains, rounds[..k], usingDB), domains, rounds[k], usingDB)
  }

  /** The domain list repeated `n` times: the order in which probes are issued. */
  function Repeat(domains: seq<string>, n: nat): (r: seq<string>)
    ensures |r| == n * |domains|
  {
    if n == 0 then [] else Repeat(domains, n - 1) + domains
  }

  /**
   The round loop. `rounds[k]` holds the observations of round k + 1, one per
   domain. Returns the store, the rounds run, the domains probed in order, the
   number of sleeps and the seconds slept.
   */
  method Drive(count: int, interval: int, domains: seq<string>, s: Store,
               rounds: seq<seq<Observation>>, usingDB: bool)
    returns (r: Store, done: nat, probed: seq<string>, sleeps: nat, slept: nat)
    requires forall k :: 0 <= k < |rounds| ==> |rounds[k]| == |domains|
    ensures count < Forever ==> done == 0 && sleeps == 0 && r == s && probed == []
    ensures count == Forever ==> done == |rounds| && sleeps == |rounds|
    ensures 0 <= count <= |rounds| ==> done == count && sleeps == (if count == 0 then 0 else count - 1)
    ensures count > |rounds| ==> done == |rounds| && sleeps == |rounds|
    ensures r == RunRounds(s, domains, rounds[..done], usingDB)
    ensures probed == Repeat(domains, done)
    ensures slept == sleeps * EffectiveInterval(interval)
  {
    r, done, probed, sleeps := s, 0, [], 0;
    while MoreRounds(count, done) && done < |rounds|
      invariant done <= |rounds|
      invariant count < Forever ==> done == 0 && sleeps == 0
      invariant count == Forever ==> sleeps == done
      invariant count >= 0 ==> done <= count && sleeps == (if done == count && done > 0 then done - 1 else done)
      invariant r == RunRounds(s, domains, rounds[..done], usingDB)
      invariant probed == Repeat(domains, done)
      decreases |rounds| - done
    {
      var probedNow;
      r, probedNow := DriveRound(r, domains, rounds[done], usingDB);
      probed := probed + probedNow;
      RunRoundsStep(s, domains, rounds, done, usingDB);
      done := done + 1;
      if MoreRounds(count, done) {
        sleeps := sleeps + 1;
      }
    }
    assert count >= 0 && done == |rounds| ==> rounds[..done] == rounds;
    slept := sleeps * EffectiveInterval(interval);
  }

  /** The first k + 1 rounds are the first k followed by round k. */
  lemma RunRoundsStep(s: Store, domains: seq<string>, rounds: seq<seq<Observation>>, k: nat, usingDB: bool)
    requires forall j :: 0 <= j < |rounds| ==> |rounds[j]| == |domains|
    requires k < |rounds|
    ensures RunRounds(s, domains, rounds[..k + 1], usingDB)
         == RunRound(RunRounds(s, domains, rounds[..k], usingDB), domains, rounds[k], usingDB)
  {
    assert rounds[..k + 1][..k] == rounds[..k];
  }

  /** One pass of the inner loop: every domain probed once, in list order. */
  method DriveRound(s: Store, domains: seq<string>, obs: seq<Observation>, usingDB: bool)
    returns (r: Store, probed: seq<string>)
    requires |obs| == |domains|
    ensures r == RunRound(s, domains, obs, usingDB)
    ensures probed == domains
  {
    r, probed := s, [];
    var i := 0;
    while i < |domains|
      invariant i <= |domains|
      invariant r == RunRound(s, domains[..i], obs[..i], usingDB)
      invariant probed == domains[..i]
    {
      r := Record(r, domains[i], obs[i], usingDB);
      probed := probed + [domains[i]];
      i := i + 1;
      assert domains[..i][..i - 1] == domains[..i - 1];
      assert obs[..i][..i - 1] == obs[..i - 1];
    }
    assert domains[..i] == domains && obs[..i] == obs;
  }

  /** "For ever" is announced for every negative count, but only -1 runs any round. */
  lemma NegativeCountAnnouncedButIdle(count: int)
    requires count < Forever
    ensures Announce(count) == ForEver
    ensures !MoreRounds(count, 0)
  {
  }

  /**
   Over any run in which every stats read succeeds, rows that agreed with the
   time series still agree.
   */
  lemma {:induction false} RunKeepsConsistent(s: Store, domains: seq<string>, rounds: seq<seq<Observation>>, usingDB: bool)
    requires forall k :: 0 <= k < |rounds| ==> |rounds[k]| == |domains|
    requires forall k, i :: 0 <= k < |rounds| && 0 <= i < |domains| ==> rounds[k][i].statsReadable
    requires Consistent(s)
    ensures Consistent(RunRounds(s, domains, rounds, usingDB))
  {
    if |rounds| > 0 {
      var k := |rounds| - 1;
      RunKeepsConsistent(s, domains, rounds[..k], usingDB);
      RoundKeepsConsistent(RunRounds(s, domains, rounds[..k], usingDB), domains, rounds[k], usingDB);
    }
  }

  lemma {:induction false} RoundKeepsConsistent(s: Store, domains: seq<string>, obs: seq<Observation>, usingDB: bool)
    requires |obs| == |domains|
    requires forall i :: 0 <= i < |obs| ==> obs[i].statsReadable
    requires Consistent(s)
    ensures Consistent(RunRound(s, domains, obs, usingDB))
  {
    if |domains| > 0 {
      var n := |domains| - 1;
      RoundKeepsConsistent(s, domains[..n], obs[..n], usingDB);
      var o := obs[n];
      var result := Outcome(o.resolution);
      if result.Answered? && usingDB {
        UpdateKeepsConsistent(RunRound(s, domains[..n], obs[..n], usingDB), domains[n], result.latency, result.ts, o.std);
      }
    }
  }
}
