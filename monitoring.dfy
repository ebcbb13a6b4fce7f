/** `MetricsMonitor`: per-deployment health-check samples kept within a
    five-minute sliding window, the rates and average latency computed from
    them, and the advisory threshold test for aborting a promotion. */
module Monitoring {
  import opened Common
  import opened IsoTime
  import opened Records

  /** `windowSize`: five minutes, in milliseconds. */
  const WindowSize: int := 300000

  datatype Thresholds = Thresholds(errorRate: real, maxLatency: real, minSuccessRate: real, minUptime: real)

  /** `defaultThresholds` */
  const DefaultThresholds: Thresholds := Thresholds(5.0, 1000.0, 95.0, 99.0)

  // ------------------------------------------------------------------ window

  /** Whether a sample is inside the window at `now`. A missing `checkedAt`
      counts as time 0 (`clearOldChecks`); the Invalid Date's NaN fails the
      comparison. */
  predicate InWindow(c: HealthCheck, now: int)
  {
    match c.checkedAt
    case None => now <= WindowSize
    case Some(At(t)) => now - t <= WindowSize
    case Some(InvalidDate) => false
  }

  /** A sample checked at `now` is inside the window, and a sample inside the
      window at some time was inside it at every earlier time. */
  lemma InWindowShrinks(c: HealthCheck, earlier: int, later: int)
    requires earlier <= later
    ensures c.checkedAt == Some(At(later)) ==> InWindow(c, later)
    ensures InWindow(c, later) ==> InWindow(c, earlier)
  {
  }

  /** `checks.filter(c => now - time(c) <= windowSize)`, in order. */
  function Prune(s: seq<HealthCheck>, now: int): (r: seq<HealthCheck>)
    ensures |r| <= |s|
    ensures forall c :: c in r <==> c in s && InWindow(c, now)
  {
    if s == [] then []
    else
      assert s == [s[0]] + s[1..];
      (if InWindow(s[0], now) then [s[0]] else []) + Prune(s[1..], now)
  }

  /** Pruning what was already pruned removes nothing more. */
  lemma {:induction false} PruneIdempotent(s: seq<HealthCheck>, now: int)
    ensures Prune(Prune(s, now), now) == Prune(s, now)
  {
    if s != [] {
      PruneIdempotent(s[1..], now);
      PruneConcat(if InWindow(s[0], now) then [s[0]] else [], Prune(s[1..], now), now);
    }
  }

  /** Pruning works sample by sample: a list pruned is its parts pruned. */
  lemma {:induction false} PruneConcat(a: seq<HealthCheck>, b: seq<HealthCheck>, now: int)
    ensures Prune(a + b, now) == Prune(a, now) + Prune(b, now)
  {
    if a == [] {
      assert a + b == b;
    } else {
      assert (a + b)[0] == a[0] && (a + b)[1..] == a[1..] + b;
      PruneConcat(a[1..], b, now);
    }
  }

  /** Pruning at an earlier time and then at a later one is pruning at the
      later one: whatever is outside the window stays outside. */
  lemma {:induction false} PruneLater(s: seq<HealthCheck>, earlier: int, later: int)
    requires earlier <= later
    ensures Prune(Prune(s, earlier), later) == Prune(s, later)
  {
    if s != [] {
      PruneLater(s[1..], earlier, later);
      PruneConcat(if InWindow(s[0], earlier) then [s[0]] else [], Prune(s[1..], earlier), later);
    }
  }

  /** Every list of the map pruned, the same deployment ids kept. */
  function Cleared(m: map<string, seq<HealthCheck>>, now: int): (r: map<string, seq<HealthCheck>>)
    ensures r.Keys == m.Keys
  {
    map k | k in m :: Prune(m[k], now)
  }

  /** Clearing twice at the same time is clearing once. */
  lemma ClearedIdempotent(m: map<string, seq<HealthCheck>>, now: int)
    ensures Cleared(Cleared(m, now), now) == Cleared(m, now)
  {
    forall k | k in m ensures Prune(Prune(m[k], now), now) == Prune(m[k], now) {
      PruneIdempotent(m[k], now);
    }
  }

  // ------------------------------------------------------------------- rates

  /** The number of samples with status `st`. */
  function Count(s: seq<HealthCheck>, st: CheckStatus): (n: nat)
    ensures n <= |s|
    ensures n == 0 <==> forall c :: c in s ==> c.status != st
    ensures n == |s| <==> forall c :: c in s ==> c.status == st
  {
    if s == [] then 0
    else
      assert s == [s[0]] + s[1..];
      (if s[0].status == st then 1 else 0) + Count(s[1..], st)
  }

  /** Each sample is passing, failing or pending. */
  lemma {:induction false} CountPartition(s: seq<HealthCheck>)
    ensures Count(s, Passing) + Count(s, Failing) + Count(s, Pending) == |s|
  {
    if s != [] {
      CountPartition(s[1..]);
    }
  }

  /** `getErrorRate`: 0 for no samples, else the percentage of failing ones. */
  function ErrorRate(s: seq<HealthCheck>): (r: real)
    ensures 0.0 <= r <= 100.0
    ensures s == [] ==> r == 0.0
    ensures r == 0.0 <==> forall c :: c in s ==> c.status != Failing
    ensures r == 100.0 <==> s != [] && forall c :: c in s ==> c.status == Failing
  {
    if |s| == 0 then 0.0
    else
      var r := (Count(s, Failing) as real / |s| as real) * 100.0;
      Percentage(Count(s, Failing), |s|);
      r
  }

  /** `getSuccessRate`: 100 for no samples, else the percentage of passing ones. */
  function SuccessRate(s: seq<HealthCheck>): (r: real)
    ensures 0.0 <= r <= 100.0
    ensures s == [] ==> r == 100.0
    ensures r == 100.0 <==> forall c :: c in s ==> c.status == Passing
    ensures r == 0.0 <==> s != [] && forall c :: c in s ==> c.status != Passing
  {
    if |s| == 0 then 100.0
    else
      var r := (Count(s, Passing) as real / |s| as real) * 100.0;
      Percentage(Count(s, Passing), |s|);
      r
  }

  lemma Percentage(k: nat, n: nat)
    requires 0 < n && k <= n
    ensures 0.0 <= (k as real / n as real) * 100.0 <= 100.0
    ensures (k as real / n as real) * 100.0 == 0.0 <==> k == 0
    ensures (k as real / n as real) * 100.0 == 100.0 <==> k == n
  {
    Share(k as real, n as real);
  }

  /** The share `a / b` of a part `a` of a positive whole `b`. */
  lemma Share(a: real, b: real)
    requires 0.0 <= a <= b && 0.0 < b
    ensures 0.0 <= a / b <= 1.0
    ensures a / b == 0.0 <==> a == 0.0
    ensures a / b == 1.0 <==> a == b
  {
    var q := a / b;
    assert q * b == a;
  }

  /** For samples present, the error and success rates add up to at most 100,
      and to exactly 100 when none is pending. */
  lemma RatesShare(s: seq<HealthCheck>)
    requires s != []
    ensures ErrorRate(s) + SuccessRate(s) <= 100.0
    ensures ErrorRate(s) + SuccessRate(s) == 100.0 <==> Count(s, Pending) == 0
  {
    CountPartition(s);
    SharesAdd(Count(s, Failing), Count(s, Passing), |s|);
  }

  lemma SharesAdd(f: nat, p: nat, n: nat)
    requires 0 < n && f + p <= n
    ensures (f as real / n as real) * 100.0 + (p as real / n as real) * 100.0 <= 100.0
    ensures (f as real / n as real) * 100.0 + (p as real / n as real) * 100.0 == 100.0 <==> f + p == n
  {
    SharesSum(f as real, p as real, n as real);
    Share((f + p) as real, n as real);
  }

  lemma SharesSum(a: real, b: real, n: real)
    requires 0.0 < n
    ensures a / n + b / n == (a + b) / n
  {
    var x, y := a / n, b / n;
    assert x * n == a && y * n == b;
    assert (x + y) * n == a + b;
  }

  /** `check.responseTime || 0` */
  function Latency(c: HealthCheck): real
  {
    if c.responseTime.Some? then c.responseTime.value else 0.0
  }

  function TotalLatency(s: seq<HealthCheck>): real
  {
    if s == [] then 0.0 else Latency(s[0]) + TotalLatency(s[1..])
  }

  /** The smallest and largest response time among the samples. */
  function MinLatency(s: seq<HealthCheck>): (r: real)
    requires s != []
    ensures forall c :: c in s ==> r <= Latency(c)
  {
    if |s| == 1 then Latency(s[0])
    else
      var rest := MinLatency(s[1..]);
      assert forall c :: c in s ==> c == s[0] || c in s[1..];
      if Latency(s[0]) < rest then Latency(s[0]) else rest
  }

  function MaxLatency(s: seq<HealthCheck>): (r: real)
    requires s != []
    ensures forall c :: c in s ==> Latency(c) <= r
  {
    if |s| == 1 then Latency(s[0])
    else
      var rest := MaxLatency(s[1..]);
      assert forall c :: c in s ==> c == s[0] || c in s[1..];
      if Latency(s[0]) > rest then Latency(s[0]) else rest
  }

  /** `getAverageLatency`: 0 for no samples, else the mean response time,
      which lies between the smallest and the largest one. */
  function AverageLatency(s: seq<HealthCheck>): (r: real)
    ensures s == [] ==> r == 0.0
    ensures s != [] ==> MinLatency(s) <= r <= MaxLatency(s)
  {
    if |s| == 0 then 0.0
    else
      MeanWithin(s);
      TotalLatency(s) / |s| as real
  }

  lemma MeanWithin(s: seq<HealthCheck>)
    requires s != []
    ensures MinLatency(s) <= TotalLatency(s) / |s| as real <= MaxLatency(s)
  {
    var lo, hi, n := MinLatency(s), MaxLatency(s), |s|;
    TotalAtLeast(s, lo);
    TotalAtMost(s, hi);
    TimesIsProduct(lo, n);
    TimesIsProduct(hi, n);
    MeanBetween(lo, hi, TotalLatency(s), n);
  }

  /** `n` copies of `x` added up. */
  function Times(x: real, n: nat): real
  {
    if n == 0 then 0.0 else x + Times(x, n - 1)
  }

  lemma {:induction false} TimesIsProduct(x: real, n: nat)
    ensures Times(x, n) == x * n as real
  {
    if n > 0 {
      TimesIsProduct(x, n - 1);
      ScaleStep(x, n - 1, n);
    }
  }

  lemma {:induction false} TotalAtLeast(s: seq<HealthCheck>, lo: real)
    requires forall c :: c in s ==> lo <= Latency(c)
    ensures Times(lo, |s|) <= TotalLatency(s)
  {
    if s != [] {
      assert s[0] in s;
      var rest := s[1..];
      assert forall c :: c in rest ==> c in s;
      TotalAtLeast(rest, lo);
    }
  }

  lemma {:induction false} TotalAtMost(s: seq<HealthCheck>, hi: real)
    requires forall c :: c in s ==> Latency(c) <= hi
    ensures TotalLatency(s) <= Times(hi, |s|)
  {
    if s != [] {
      assert s[0] in s;
      var rest := s[1..];
      assert forall c :: c in rest ==> c in s;
      TotalAtMost(rest, hi);
    }
  }

  lemma ScaleStep(x: real, n: nat, m: nat)
    requires m == n + 1
    ensures x * m as real == x * n as real + x
  {
  }

  lemma MeanBetween(lo: real, hi: real, total: real, n: nat)
    requires 0 < n && lo * n as real <= total <= hi * n as real
    ensures lo <= total / n as real <= hi
  {
    var m := total / n as real;
    assert m * n as real == total;
  }

  /** The `shouldAbortPromotion` test on a set of samples. */
  predicate Abort(s: seq<HealthCheck>, t: Thresholds)
  {
    ErrorRate(s) > t.errorRate || AverageLatency(s) > t.maxLatency || SuccessRate(s) < t.minSuccessRate
  }

  /** With no samples the default thresholds never abort; `minUptime` never
      matters. */
  lemma AbortFacts(s: seq<HealthCheck>, t: Thresholds, uptime: real)
    ensures !Abort([], DefaultThresholds)
    ensures Abort(s, t) == Abort(s, t.(minUptime := uptime))
  {
  }

  /** Twenty samples of which two fail: an error rate of 10%, which is above
      the default 5%, so the promotion should abort. */
  lemma TwoFailuresInTwenty(s: seq<HealthCheck>)
    requires |s| == 20 && Count(s, Failing) == 2
    ensures ErrorRate(s) == 10.0
    ensures Abort(s, DefaultThresholds)
  {
  }

  /** The samples missing `checkedAt`, for which `addHealthCheck`'s filter throws. */
  predicate Untimed(s: seq<HealthCheck>)
  {
    exists c :: c in s && c.checkedAt.None?
  }

  // ------------------------------------------------------------------- state

  class MetricsMonitor {
    var healthChecks: map<string, seq<HealthCheck>>

    constructor()
      ensures healthChecks == map[]
    {
      healthChecks := map[];
    }

    /** `this.healthChecks.get(id) || []` */
    function Samples(deploymentId: string): (r: seq<HealthCheck>)
      reads this
      ensures deploymentId !in healthChecks ==> r == []
      ensures deploymentId in healthChecks ==> r == healthChecks[deploymentId]
    {
      if deploymentId in healthChecks then healthChecks[deploymentId] else []
    }

    /** `addHealthCheck(check)` at time `now`. The sample is appended to its
        deployment's list and the list pruned to the window; other lists are
        unchanged. A sample without `checkedAt` in the list makes the filter
        throw (`ok` false): the push has then already reached a stored list,
        and nothing else changes. */
    method AddHealthCheck(c: HealthCheck, now: int) returns (ok: bool)
      modifies this
      ensures var pushed := old(Samples(c.deploymentId)) + [c];
              && (ok <==> !Untimed(pushed))
              && (ok ==> healthChecks == old(healthChecks)[c.deploymentId := Prune(pushed, now)])
              && (!ok ==> healthChecks == if c.deploymentId in old(healthChecks)
                                          then old(healthChecks)[c.deploymentId := pushed]
                                          else old(healthChecks))
    {
      var checks := Samples(c.deploymentId) + [c];
      if c.deploymentId in healthChecks {
        // `checks.push(check)` mutates the stored array itself.
        healthChecks := healthChecks[c.deploymentId := checks];
      }
      if Untimed(checks) {
        return false;
      }
      healthChecks := healthChecks[c.deploymentId := Prune(checks, now)];
      return true;
    }

    /** `getErrorRate` */
    function GetErrorRate(deploymentId: string): (r: real)
      reads this
      ensures 0.0 <= r <= 100.0
      ensures deploymentId !in healthChecks ==> r == 0.0
      ensures r == ErrorRate(Samples(deploymentId))
    {
      ErrorRate(Samples(deploymentId))
    }

    /** `getSuccessRate` */
    function GetSuccessRate(deploymentId: string): (r: real)
      reads this
      ensures 0.0 <= r <= 100.0
      ensures deploymentId !in healthChecks ==> r == 100.0
      ensures r == SuccessRate(Samples(deploymentId))
    {
      SuccessRate(Samples(deploymentId))
    }

    /** `getAverageLatency` */
    function GetAverageLatency(deploymentId: string): (r: real)
      reads this
      ensures deploymentId !in healthChecks ==> r == 0.0
      ensures r == AverageLatency(Samples(deploymentId))
      ensures Samples(deploymentId) != [] ==>
                MinLatency(Samples(deploymentId)) <= r <= MaxLatency(Samples(deploymentId))
    {
      AverageLatency(Samples(deploymentId))
    }

    /** `shouldAbortPromotion`: one of the three thresholds crossed. */
    function ShouldAbortPromotion(deploymentId: string, t: Thresholds): (r: bool)
      reads this
      ensures r <==> Abort(Samples(deploymentId), t)
      ensures deploymentId !in healthChecks ==> (r <==> t.errorRate < 0.0 || t.maxLatency < 0.0 || t.minSuccessRate > 100.0)
    {
      GetErrorRate(deploymentId) > t.errorRate || GetAverageLatency(deploymentId) > t.maxLatency
      || GetSuccessRate(deploymentId) < t.minSuccessRate
    }

    /** `clearOldChecks` at time `now`: every stored list pruned to the window,
        the same deployment ids kept. */
    method ClearOldChecks(now: int)
      modifies this
      ensures healthChecks == Cleared(old(healthChecks), now)
    {
      var entries := healthChecks;
      var todo := entries.Keys;
      while todo != {}
        invariant todo <= entries.Keys
        invariant healthChecks.Keys == entries.Keys
        invariant forall k :: k in entries && k !in todo ==> healthChecks[k] == Prune(entries[k], now)
        invariant forall k :: k in todo ==> healthChecks[k] == entries[k]
        decreases |todo|
      {
        var k :| k in todo;
        healthChecks := healthChecks[k := Prune(entries[k], now)];
        todo := todo - {k};
      }
    }
  }
}
