/**
 The cache-busting query name built by `probe` in dnsping.cpp, and the outcome
 of one probe. The C library's `rand()` becomes a caller-supplied sequence of
 naturals; the resolver and the query become an abstract `Resolution`.
 */
module Probe {
  import opened Wrappers

  /** The alphabet of the random label, `charset` in `probe`: lower case, upper case, digits. */
  const Lower: string := "abcdefghijklmnopqrstuvwxyz"
  const Upper: string := "ABCDEFGHIJKLMNOPQRSTUVWXYZ"
  const Digits: string := "1234567890"
  const Charset: string := Lower + Upper + Digits

  const MinLabel: nat := 6
  const MaxLabel: nat := 12

  predicate IsAlnum(c: char) {
    ('a' <= c <= 'z') || ('A' <= c <= 'Z') || ('0' <= c <= '9')
  }

  /** A label the generator may produce: 6 to 12 characters of the alphabet. */
  predicate WellFormedLabel(lbl: string) {
    MinLabel <= |lbl| <= MaxLabel && forall i :: 0 <= i < |lbl| ==> IsAlnum(lbl[i])
  }

  /** The alphabet holds 62 characters, exactly the ASCII letters and digits. */
  lemma CharsetIsAlphanumeric()
    ensures |Charset| == 62
    ensures forall c :: c in Charset <==> IsAlnum(c)
  {
    forall c
      ensures c in Charset <==> IsAlnum(c)
    {
      if c in Charset {
        var k :| 0 <= k < |Charset| && Charset[k] == c;
        CharsetAt(k);
      }
      if IsAlnum(c) {
        AlnumIn(c);
      }
    }
  }

  /** Every position of the alphabet holds a letter or a digit. */
  lemma CharsetAt(k: nat)
    requires k < |Charset|
    ensures IsAlnum(Charset[k])
  {
    if k < 26 {
      assert Charset[k] == Lower[k];
      LowerAt(k);
    } else if k < 52 {
      assert Charset[k] == Upper[k - 26];
      UpperAt(k - 26);
    } else {
      assert Charset[k] == Digits[k - 52];
      DigitAt(k - 52);
    }
  }

  lemma LowerAt(k: nat)
    requires k < |Lower|
    ensures 'a' <= Lower[k] <= 'z'
  {
    assert Lower[k] in Lower;
  }

  lemma UpperAt(k: nat)
    requires k < |Upper|
    ensures 'A' <= Upper[k] <= 'Z'
  {
    assert Upper[k] in Upper;
  }

  lemma DigitAt(k: nat)
    requires k < |Digits|
    ensures '0' <= Digits[k] <= '9'
  {
    assert Digits[k] in Digits;
  }

  /** Every letter and digit occurs in the alphabet. */
  lemma AlnumIn(c: char)
    requires IsAlnum(c)
    ensures c in Charset
  {
    if 'a' <= c <= 'z' {
      assert c in Lower;
    } else if 'A' <= c <= 'Z' {
      assert c in Upper;
    } else {
      assert c in Digits;
    }
  }

  /** Some position of a character of the alphabet. */
  ghost function IndexIn(c: char): (k: nat)
    requires IsAlnum(c)
    ensures k < |Charset| && Charset[k] == c
  {
    AlnumIn(c);
    var k :| 0 <= k < |Charset| && Charset[k] == c; k
  }

  /** Label length chosen by the first random value: `6 + r % 7`. */
  function LabelLength(r: nat): (n: nat)
    ensures MinLabel <= n <= MaxLabel
  {
    6 + r % 7
  }

  /** Number of random values a probe consumes: one for the length, one per character. */
  function RandsUsed(rands: seq<nat>): (r: nat)
    requires |rands| > 0
  {
    1 + LabelLength(rands[0])
  }

  /** True when the supplied random values suffice for one label. */
  predicate EnoughRandomness(rands: seq<nat>) {
    |rands| > 0 && |rands| >= RandsUsed(rands)
  }

  /** The character a random value selects: `charset[r % 62]`. */
  function Pick(r: nat): (c: char)
    ensures IsAlnum(c)
  {
    CharsetAt(r % |Charset|);
    Charset[r % |Charset|]
  }

  /** The random label: character i is `charset[rands[i + 1] % 62]`. */
  function Label(rands: seq<nat>): (lbl: string)
    requires EnoughRandomness(rands)
    ensures WellFormedLabel(lbl)
    ensures |lbl| == 6 + rands[0] % 7
    ensures forall i :: 0 <= i < |lbl| ==> lbl[i] == Charset[rands[i + 1] % 62]
  {
    var n := LabelLength(rands[0]);
    seq(n, i requires 0 <= i < n => Pick(rands[i + 1]))
  }

  /** The name queried for `domain`: the random label, a dot, then the domain. */
  function QueryName(rands: seq<nat>, domain: string): (name: string)
    requires EnoughRandomness(rands)
    ensures MinLabel + 1 + |domain| <= |name| <= MaxLabel + 1 + |domain|
    ensures name[|name| - |domain|..] == domain
    ensures name[|name| - |domain| - 1] == '.'
    ensures WellFormedLabel(name[..|name| - |domain| - 1])
  {
    var lbl := Label(rands);
    assert (lbl + "." + domain)[..|lbl|] == lbl;
    lbl + "." + domain
  }

  /** Splits a name at its first dot into label and parent domain. */
  function SplitQueryName(name: string): (r: Option<(string, string)>)
    ensures r.Some? ==> r.value.0 + "." + r.value.1 == name && '.' !in r.value.0
    ensures r.None? <==> '.' !in name
  {
    if |name| == 0 then None
    else if name[0] == '.' then Some(([], name[1..]))
    else
      match SplitQueryName(name[1..])
      case None => None
      case Some((l, d)) => Some(([name[0]] + l, d))
  }

  /** The label never holds a dot, so splitting a query name recovers the probed domain. */
  lemma {:induction false} QueryNameSplits(rands: seq<nat>, domain: string)
    requires EnoughRandomness(rands)
    ensures SplitQueryName(QueryName(rands, domain)) == Some((Label(rands), domain))
  {
    var lbl := Label(rands);
    assert '.' !in lbl by {
      assert forall i :: 0 <= i < |lbl| ==> lbl[i] != '.';
    }
    SplitAfterDotFree(lbl, domain);
  }

  lemma {:induction false} SplitAfterDotFree(lbl: string, domain: string)
    requires '.' !in lbl
    ensures SplitQueryName(lbl + "." + domain) == Some((lbl, domain))
  {
    if |lbl| == 0 {
      assert lbl + "." + domain == ['.'] + domain;
    } else {
      var name := lbl + "." + domain;
      assert name[0] == lbl[0] && name[0] != '.';
      assert name[1..] == lbl[1..] + "." + domain;
      SplitAfterDotFree(lbl[1..], domain);
      assert [lbl[0]] + lbl[1..] == lbl;
    }
  }

  /** Every well-formed label is produced by some choice of random values. */
  lemma EveryLabelReachable(lbl: string)
    requires WellFormedLabel(lbl)
    ensures exists rands :: EnoughRandomness(rands) && Label(rands) == lbl
  {
    LabelOfRandsFor(lbl);
  }

  /** Random values that make the generator produce `lbl`: its length, then each character's position. */
  ghost function RandsFor(lbl: string): (rands: seq<nat>)
    requires WellFormedLabel(lbl)
    ensures EnoughRandomness(rands) && RandsUsed(rands) == |rands| == |lbl| + 1
    ensures forall i :: 0 <= i < |lbl| ==> rands[i + 1] < |Charset| && Charset[rands[i + 1]] == lbl[i]
  {
    ModOfSmaller(|lbl| - 6, 7);
    [|lbl| - 6] + seq(|lbl|, i requires 0 <= i < |lbl| => IndexIn(lbl[i]))
  }

  /** Generating from `RandsFor(lbl)` gives back `lbl`. */
  lemma LabelOfRandsFor(lbl: string)
    requires WellFormedLabel(lbl)
    ensures Label(RandsFor(lbl)) == lbl
  {
    var rands := RandsFor(lbl);
    var made := Label(rands);
    forall i | 0 <= i < |lbl|
      ensures made[i] == lbl[i]
    {
      ModOfSmaller(rands[i + 1], 62);
    }
  }

  lemma ModOfSmaller(k: nat, m: nat)
    requires k < m
    ensures k % m == k
  {
  }

  /** What the resolver library reports for one query. */
  datatype Resolution =
    | NoResolver                                  // the local resolver configuration cannot be read
    | NoResponse                                  // the query produced no packet
    | Response(queryTime: nat, timestamp: int)    // round-trip milliseconds, receipt time in seconds

  datatype ProbeError = ResolverUnavailable | NoAnswer

  /** The probe's outcome: a latency sample, or the reason it was skipped. */
  datatype ProbeResult = Answered(latency: nat, ts: int) | Failed(reason: ProbeError)

  /** What a probe reports for a resolver outcome: `probe`'s return value and out-parameters. */
  function Outcome(resolution: Resolution): (r: ProbeResult)
    ensures r.Answered? <==> resolution.Response?
    ensures r.Answered? ==> r.latency == resolution.queryTime && r.ts == resolution.timestamp
    ensures resolution.NoResolver? ==> r == Failed(ResolverUnavailable)
    ensures resolution.NoResponse? ==> r == Failed(NoAnswer)
  {
    match resolution
    case NoResolver => Failed(ResolverUnavailable)
    case NoResponse => Failed(NoAnswer)
    case Response(t, ts) => Answered(t, ts)
  }

  /** One probe: the name it queries and what it yields. */
  function ProbeDomain(rands: seq<nat>, domain: string, resolution: Resolution): (r: (string, ProbeResult))
    requires EnoughRandomness(rands)
    ensures SplitQueryName(r.0) == Some((Label(rands), domain))
    ensures r.1 == Outcome(resolution)
  {
    QueryNameSplits(rands, domain);
    (QueryName(rands, domain), Outcome(resolution))
  }
}
