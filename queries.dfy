/** The registry's read-only queries: all deployments newest first, the
    deployments of one environment newest first, and the picks of the first
    (current) and second (previous) of those. */
module Queries {
  import opened Common
  import opened IsoTime
  import opened Records

  /** The time value the sort compares: `new Date(d.deployedAt!).getTime()`.
      A missing or invalid date is NaN in the source; here it counts as 0. */
  function Recency(d: Deployment): int
  {
    match d.deployedAt
    case Some(At(t)) => t
    case _ => 0
  }

  ghost predicate NewestFirst(s: seq<Deployment>)
  {
    forall i, j :: 0 <= i < j < |s| ==> Recency(s[i]) >= Recency(s[j])
  }

  /** A newest-first listing orders the deployments that carry a valid date by
      that date, latest first; one without a valid date sorts as if deployed
      at the epoch. */
  lemma NewestFirstByDate(s: seq<Deployment>)
    requires NewestFirst(s)
    ensures forall i, j, a, b :: 0 <= i < j < |s| && s[i].deployedAt == Some(At(a)) && s[j].deployedAt == Some(At(b))
                                 ==> a >= b
    ensures forall i, j, b :: && 0 <= i < j < |s| && !(s[i].deployedAt.Some? && s[i].deployedAt.value.At?)
                              && s[j].deployedAt == Some(At(b))
                              ==> b <= 0
  {
  }

  /** Places `d` before the first element that is not newer than it. */
  function Insert(d: Deployment, s: seq<Deployment>): (r: seq<Deployment>)
    requires NewestFirst(s)
    ensures NewestFirst(r)
    ensures multiset(r) == multiset(s) + multiset{d}
  {
    if s == [] || Recency(d) >= Recency(s[0]) then [d] + s
    else
      var rest := Insert(d, s[1..]);
      InsertBelow(d, s, rest);
      assert s == [s[0]] + s[1..];
      [s[0]] + rest
  }

  lemma InsertBelow(d: Deployment, s: seq<Deployment>, rest: seq<Deployment>)
    requires s != [] && NewestFirst(s) && Recency(d) < Recency(s[0])
    requires NewestFirst(rest) && multiset(rest) == multiset(s[1..]) + multiset{d}
    ensures NewestFirst([s[0]] + rest)
  {
    forall x | x in rest ensures Recency(x) <= Recency(s[0]) {
      assert x in multiset(rest);
      if x != d {
        assert x in multiset(s[1..]);
        var i :| 0 <= i < |s[1..]| && s[1..][i] == x;
        assert s[i + 1] == x;
      }
    }
    var r := [s[0]] + rest;
    forall i, j | 0 <= i < j < |r| ensures Recency(r[i]) >= Recency(r[j]) {
      assert r[j] == rest[j - 1];
      if i > 0 { assert r[i] == rest[i - 1]; } else { assert rest[j - 1] in rest; }
    }
  }

  /** `.sort((a, b) => time(b) - time(a))`: the same records, newest first. */
  function SortNewestFirst(s: seq<Deployment>): (r: seq<Deployment>)
    ensures NewestFirst(r)
    ensures multiset(r) == multiset(s)
  {
    if s == [] then []
    else
      assert s == [s[0]] + s[1..];
      Insert(s[0], SortNewestFirst(s[1..]))
  }

  /** `.filter(d => d.environment === env)`: each deployment of `env` as many
      times as in `s`, no other; the order is kept (OfEnvironmentConcat). */
  function OfEnvironment(s: seq<Deployment>, env: string): (r: seq<Deployment>)
    ensures |r| <= |s|
  {
    if s == [] then []
    else (if s[0].environment == env then [s[0]] else []) + OfEnvironment(s[1..], env)
  }

  /** Exactly the deployments of `env` in `s` are kept. */
  lemma {:induction false} OfEnvironmentMembers(s: seq<Deployment>, env: string)
    ensures forall d :: d in OfEnvironment(s, env) <==> d in s && d.environment == env
  {
    if s != [] {
      OfEnvironmentMembers(s[1..], env);
      assert s == [s[0]] + s[1..];
    }
  }

  /** Each deployment of `env` is kept as many times as it occurs, any other
      not at all. */
  lemma {:induction false} OfEnvironmentCount(s: seq<Deployment>, env: string)
    ensures forall d :: multiset(OfEnvironment(s, env))[d] == if d.environment == env then multiset(s)[d] else 0
  {
    if s != [] {
      OfEnvironmentCount(s[1..], env);
      assert s == [s[0]] + s[1..];
    }
  }

  /** Filtering a concatenation filters each part, in order. */
  lemma {:induction false} OfEnvironmentConcat(a: seq<Deployment>, b: seq<Deployment>, env: string)
    ensures OfEnvironment(a + b, env) == OfEnvironment(a, env) + OfEnvironment(b, env)
  {
    if a != [] {
      OfEnvironmentConcat(a[1..], b, env);
      var t := a[1..] + b;
      assert a + b != [] && (a + b)[0] == a[0] && (a + b)[1..] == t;
      var x := if a[0].environment == env then [a[0]] else [];
      assert OfEnvironment(a + b, env) == x + OfEnvironment(t, env);
      assert OfEnvironment(a, env) == x + OfEnvironment(a[1..], env);
      assert x + (OfEnvironment(a[1..], env) + OfEnvironment(b, env))
          == (x + OfEnvironment(a[1..], env)) + OfEnvironment(b, env);
    } else {
      assert a + b == b;
    }
  }

  /** The filtered list has two elements exactly when two positions of `s`
      hold deployments of `env`. */
  lemma TwoOfEnvironment(s: seq<Deployment>, env: string)
    ensures |OfEnvironment(s, env)| >= 2
        <==> exists i, j :: 0 <= i < j < |s| && s[i].environment == env && s[j].environment == env
  {
    if |OfEnvironment(s, env)| >= 2 {
      CountedTwoPositions(s, env);
    } else {
      forall i, j | 0 <= i < j < |s| && s[i].environment == env && s[j].environment == env
        ensures false
      {
        TwoPositionsCounted(s, env, i, j);
      }
    }
  }

  lemma TwoPositionsCounted(s: seq<Deployment>, env: string, i: nat, j: nat)
    requires i < j < |s| && s[i].environment == env && s[j].environment == env
    ensures |OfEnvironment(s, env)| >= 2
  {
    var a, b := s[..j], s[j..];
    assert s == a + b;
    OfEnvironmentConcat(a, b, env);
    assert s[i] in a && s[j] in b;
    OfEnvironmentMembers(a, env);
    OfEnvironmentMembers(b, env);
    assert s[i] in OfEnvironment(a, env);
    assert s[j] in OfEnvironment(b, env);
  }

  lemma {:induction false} CountedTwoPositions(s: seq<Deployment>, env: string)
    requires |OfEnvironment(s, env)| >= 2
    ensures exists i, j :: 0 <= i < j < |s| && s[i].environment == env && s[j].environment == env
  {
    var t := s[1..];
    assert s == [s[0]] + t;
    if s[0].environment == env {
      assert OfEnvironment(s, env) == [s[0]] + OfEnvironment(t, env);
      var d := OfEnvironment(t, env)[0];
      assert d in OfEnvironment(t, env);
      OfEnvironmentMembers(t, env);
      var k :| 0 <= k < |t| && t[k] == d;
      assert s[k + 1] == d && d.environment == env;
      assert 0 < k + 1 < |s| && s[0].environment == env && s[k + 1].environment == env;
    } else {
      assert OfEnvironment(s, env) == OfEnvironment(t, env);
      CountedTwoPositions(t, env);
      var i, j :| 0 <= i < j < |t| && t[i].environment == env && t[j].environment == env;
      assert s[i + 1] == t[i] && s[j + 1] == t[j];
      assert 0 <= i + 1 < j + 1 < |s| && s[i + 1].environment == env && s[j + 1].environment == env;
    }
  }

  /** `getDeploymentsByEnvironment`: exactly the deployments of `env`, newest first. */
  function ByEnvironment(s: seq<Deployment>, env: string): (r: seq<Deployment>)
    ensures NewestFirst(r)
    ensures multiset(r) == multiset(OfEnvironment(s, env))
    ensures |r| == |OfEnvironment(s, env)|
    ensures forall d :: d in r <==> d in s && d.environment == env
  {
    var r := SortNewestFirst(OfEnvironment(s, env));
    OfEnvironmentMembers(s, env);
    assert forall d :: d in r <==> d in multiset(r);
    r
  }

  /** `byEnvironment[0] || null`: the newest deployment of `env`, if any. */
  function Latest(s: seq<Deployment>, env: string): (r: Option<Deployment>)
    ensures r.None? <==> forall d :: d in s ==> d.environment != env
    ensures r.Some? ==> r.value in s && r.value.environment == env
    ensures r.Some? ==> forall d :: d in s && d.environment == env ==> Recency(d) <= Recency(r.value)
  {
    var sorted := ByEnvironment(s, env);
    if sorted == [] then None
    else
      HeadIsNewest(sorted);
      Some(sorted[0])
  }

  lemma HeadIsNewest(s: seq<Deployment>)
    requires s != [] && NewestFirst(s)
    ensures forall d :: d in s ==> Recency(d) <= Recency(s[0])
  {
    forall d | d in s ensures Recency(d) <= Recency(s[0]) {
      var i :| 0 <= i < |s| && s[i] == d;
      if i > 0 { assert Recency(s[0]) >= Recency(s[i]); }
    }
  }

  /** The environment listing holds each deployment of `env` as many times as
      `s` does, and no other; from a list without repeats it holds each once. */
  lemma ByEnvironmentCount(s: seq<Deployment>, env: string)
    ensures forall d :: multiset(ByEnvironment(s, env))[d] == if d.environment == env then multiset(s)[d] else 0
    ensures Distinct(s) ==> Distinct(ByEnvironment(s, env))
  {
    OfEnvironmentCount(s, env);
    var r := ByEnvironment(s, env);
    if Distinct(s) {
      DistinctCounts(s);
      assert forall d :: multiset(r)[d] <= multiset(s)[d];
      DistinctCounts(r);
    }
  }

  /** `getPreviousDeployment`: `byEnvironment[1]`, the second newest of `env`.
      It exists exactly when two positions of `s` hold deployments of `env`;
      at most one deployment of `env` is strictly newer, and another
      occurrence of `env` is at least as new. */
  function Previous(s: seq<Deployment>, env: string): (r: Option<Deployment>)
    ensures r.Some? <==> |OfEnvironment(s, env)| >= 2
    ensures r.Some? <==> exists i, j :: 0 <= i < j < |s| && s[i].environment == env && s[j].environment == env
    ensures r.Some? ==> r.value in s && r.value.environment == env
    ensures r.Some? ==> forall a, b ::
              (&& a in s && a.environment == env && Recency(a) > Recency(r.value)
               && b in s && b.environment == env && Recency(b) > Recency(r.value)) ==> a == b
    ensures r.Some? ==> exists n :: && n in s && n.environment == env && Recency(n) >= Recency(r.value)
                                   && (n != r.value || multiset(s)[n] >= 2)
  {
    TwoOfEnvironment(s, env);
    var sorted := ByEnvironment(s, env);
    if |sorted| < 2 then None
    else
      SecondAtMostOneNewer(s, env, sorted);
      SecondHasNewer(s, env, sorted);
      assert sorted[1] in sorted;
      Some(sorted[1])
  }

  /** Only the head of the listing can be strictly newer than its second element. */
  lemma SecondAtMostOneNewer(s: seq<Deployment>, env: string, sorted: seq<Deployment>)
    requires sorted == ByEnvironment(s, env) && |sorted| >= 2
    ensures forall a :: a in s && a.environment == env && Recency(a) > Recency(sorted[1]) ==> a == sorted[0]
  {
    forall a | a in s && a.environment == env && Recency(a) > Recency(sorted[1])
      ensures a == sorted[0]
    {
      var i :| 0 <= i < |sorted| && sorted[i] == a;
      assert i == 0;
    }
  }

  /** The head of the listing is at least as new as its second element, and
      is another occurrence in `s` even when the two are equal. */
  lemma SecondHasNewer(s: seq<Deployment>, env: string, sorted: seq<Deployment>)
    requires sorted == ByEnvironment(s, env) && |sorted| >= 2
    ensures var n := sorted[0];
            && n in s && n.environment == env && Recency(n) >= Recency(sorted[1])
            && (n != sorted[1] || multiset(s)[n] >= 2)
  {
    var n := sorted[0];
    assert sorted[1] in sorted;
    assert n in sorted;
    if n == sorted[1] {
      assert sorted == [n] + [n] + sorted[2..];
      assert multiset(sorted)[n] >= 2;
      OfEnvironmentCount(s, env);
      assert multiset(OfEnvironment(s, env))[n] == multiset(s)[n];
    }
  }
}
