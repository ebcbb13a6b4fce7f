/** The HTTP handlers that carry deployment logic of their own: promote (the
    only place the promote transition exists), the rollback handler's
    not-found guard, the traffic-split POST validation and the
    `/api/deployments/current` selection, as methods over the registry. */
module Routes {
  import opened Common
  import opened OrderedMap
  import opened Records
  import opened Queries
  import opened Snapshot
  import opened Storage

  /** The outcomes the handlers answer with: 200, 404 and 400. */
  datatype Response = Ok | NotFound | BadRequest

  /** A member of a JSON request body: a number, or anything else. */
  datatype BodyValue = Number(x: real) | NotNumber

  // ------------------------------------------------------------- promote

  /** The registry after promoting `id` of environment `env`: the target
      active, every deployment of another environment idle, the other
      deployments of `env` as they were. */
  function Promoted(m: OrderedMap<Deployment>, id: string, env: string): OrderedMap<Deployment>
  {
    OrderedMap(map k | k in m.items :: m.items[k].(status := if k == id then Active
                                                          else if m.items[k].environment != env then Idle
                                                          else m.items[k].status), m.keys)
  }

  /** The registry while the promote loop runs: only the visited ids have
      been updated. */
  function Promoting(m: OrderedMap<Deployment>, id: string, env: string, done: set<string>): OrderedMap<Deployment>
  {
    OrderedMap(map k | k in m.items :: m.items[k].(status := if k in done && k == id then Active
                                                          else if k in done && m.items[k].environment != env then Idle
                                                          else m.items[k].status), m.keys)
  }

  /** The update entries the promote loop writes for `s`. */
  function PromoteEntries(s: seq<Deployment>, id: string, env: string, stamp: string): (r: seq<LogEntry>)
    ensures |r| <= |s|
    decreases |s|
  {
    if s == [] then []
    else
      var d := s[|s| - 1];
      PromoteEntries(s[..|s| - 1], id, env, stamp)
      + (if d.id == id || d.environment != env then [UpdatedEntry(d.version, stamp)] else [])
  }

  /** The promote loop writes one update entry per deployment it changes
      (the target, and each deployment of another environment), and nothing else. */
  lemma {:induction false} PromoteEntriesMembers(s: seq<Deployment>, id: string, env: string, stamp: string)
    ensures forall e :: e in PromoteEntries(s, id, env, stamp) <==>
                          exists d :: d in s && (d.id == id || d.environment != env) && e == UpdatedEntry(d.version, stamp)
    decreases |s|
  {
    if s != [] {
      var init, d := s[..|s| - 1], s[|s| - 1];
      PromoteEntriesMembers(init, id, env, stamp);
      assert s == init + [d];
      var tail := if d.id == id || d.environment != env then [UpdatedEntry(d.version, stamp)] else [];
      assert PromoteEntries(s, id, env, stamp) == PromoteEntries(init, id, env, stamp) + tail;
      forall e ensures e in PromoteEntries(s, id, env, stamp) <==>
                       exists x :: x in s && (x.id == id || x.environment != env) && e == UpdatedEntry(x.version, stamp)
      {
        if e in PromoteEntries(init, id, env, stamp) {
          var x :| x in init && (x.id == id || x.environment != env) && e == UpdatedEntry(x.version, stamp);
          assert x in s;
        } else if e in tail {
          assert d in s;
        } else {
          forall x | x in s && (x.id == id || x.environment != env) ensures e != UpdatedEntry(x.version, stamp) {
            if x in init {
            } else {
              assert x == d;
            }
          }
        }
      }
    }
  }

  /** The split promote sets: all to green for a green target, else all to blue. */
  function PromoteSplit(env: string): (r: TrafficSplit)
    ensures r.blue + r.green == 100.0
    ensures env == "green" <==> r == TrafficSplit(0.0, 100.0)
  {
    if env == "green" then TrafficSplit(0.0, 100.0) else TrafficSplit(100.0, 0.0)
  }

  lemma PromotingStart(m: OrderedMap<Deployment>, id: string, env: string)
    ensures Promoting(m, id, env, {}) == m
  {
    assert Promoting(m, id, env, {}).items == m.items;
  }

  lemma PromotingStep(before: OrderedMap<Deployment>, current: OrderedMap<Deployment>, after: OrderedMap<Deployment>,
                      id: string, env: string, done: set<string>, d: Deployment, s: Status)
    requires current == Promoting(before, id, env, done)
    requires d.id in before.items && before.items[d.id] == d
    requires s == if d.id == id then Active else Idle
    requires d.id == id || d.environment != env
    requires after.items == current.items[d.id := Merge(current.items[d.id], StatusPatch(s))]
    requires after.keys == current.keys
    ensures after == Promoting(before, id, env, done + {d.id})
  {
    MergeLaws(current.items[d.id], NoChange, NoChange, s);
    assert after.items == Promoting(before, id, env, done + {d.id}).items;
  }

  lemma PromotingSkip(before: OrderedMap<Deployment>, id: string, env: string, done: set<string>, d: Deployment)
    requires d.id in before.items && before.items[d.id] == d
    requires d.id != id && d.environment == env
    ensures Promoting(before, id, env, done + {d.id}) == Promoting(before, id, env, done)
  {
    assert Promoting(before, id, env, done + {d.id}).items == Promoting(before, id, env, done).items;
  }

  lemma PromotingVersion(before: OrderedMap<Deployment>, id: string, env: string, done: set<string>, d: Deployment)
    requires d.id in before.items && before.items[d.id] == d
    ensures d.id in Promoting(before, id, env, done).items
    ensures Promoting(before, id, env, done).items[d.id].version == d.version
  {
  }

  lemma PromotingDone(before: OrderedMap<Deployment>, id: string, env: string, done: set<string>)
    requires forall k :: k in before.items ==> k in done
    ensures Promoting(before, id, env, done) == Promoted(before, id, env)
  {
    assert Promoting(before, id, env, done).items == Promoted(before, id, env).items;
  }

  lemma PromoteEntriesSnoc(s: seq<Deployment>, i: nat, id: string, env: string, stamp: string)
    requires i < |s|
    ensures PromoteEntries(s[..i + 1], id, env, stamp)
         == PromoteEntries(s[..i], id, env, stamp)
            + (if s[i].id == id || s[i].environment != env then [UpdatedEntry(s[i].version, stamp)] else [])
  {
    assert s[..i + 1][..i] == s[..i];
  }

  /** After a promote, every active deployment belongs to the promoted
      environment, the one the traffic now goes to. */
  lemma PromoteActiveInTarget(m: OrderedMap<Deployment>, id: string)
    requires KeyedDeployments(m) && id in m.items
    ensures var env := m.items[id].environment;
            && id in ActiveIds(Promoted(m, id, env))
            && forall k :: k in ActiveIds(Promoted(m, id, env)) ==> m.items[k].environment == env
  {
  }

  /** Unlike rollback, promote leaves an active sibling in the target's
      environment active, so two deployments can be active at once. */
  lemma PromoteKeepsActiveSibling(m: OrderedMap<Deployment>, id: string, sibling: string)
    requires KeyedDeployments(m) && id in m.items && sibling in m.items && sibling != id
    requires m.items[sibling].environment == m.items[id].environment
    requires m.items[sibling].status == Active
    ensures |ActiveIds(Promoted(m, id, m.items[id].environment))| >= 2
  {
    var a := ActiveIds(Promoted(m, id, m.items[id].environment));
    assert {id, sibling} <= a;
    assert |{id, sibling}| == 2;
    SubsetSize({id, sibling}, a);
  }

  lemma SubsetSize(a: set<string>, b: set<string>)
    requires a <= b
    ensures |a| <= |b|
  {
    assert b == a + (b - a);
  }

  /** The loop of the promote handler over the listing `all`. */
  method UpdateStatuses(s: MemStorage, all: seq<Deployment>, id: string, env: string, stamp: string,
                        ghost before: OrderedMap<Deployment>)
    requires s.Valid()
    requires forall d :: d in all ==> d.id in before.items && before.items[d.id] == d
    requires s.deployments == Promoting(before, id, env, {})
    modifies s
    ensures s.Valid()
    ensures s.deployments == Promoting(before, id, env, Ids(all))
    ensures s.logs == Pushed(old(s.logs), PromoteEntries(all, id, env, stamp), LogCap)
    ensures s.healthChecks == old(s.healthChecks) && s.trafficSplit == old(s.trafficSplit)
    ensures s.schemaVersion == old(s.schemaVersion)
  {
    ghost var logs0 := s.logs;
    assert all[..0] == [];
    for i := 0 to |all|
      invariant s.Valid()
      invariant s.deployments == Promoting(before, id, env, Ids(all[..i]))
      invariant s.logs == Pushed(logs0, PromoteEntries(all[..i], id, env, stamp), LogCap)
      invariant s.healthChecks == old(s.healthChecks) && s.trafficSplit == old(s.trafficSplit)
      invariant s.schemaVersion == old(s.schemaVersion)
    {
      var d := all[i];
      IdsSnoc(all, i);
      PromoteEntriesSnoc(all, i, id, env, stamp);
      ghost var current := s.deployments;
      ghost var done := PromoteEntries(all[..i], id, env, stamp);
      assert d in all;
      if d.id == id {
        PromotingVersion(before, id, env, Ids(all[..i]), d);
        var _ := s.UpdateDeployment(d.id, StatusPatch(Active), stamp);
        PromotingStep(before, current, s.deployments, id, env, Ids(all[..i]), d, Active);
        PushedConcat(logs0, done, [UpdatedEntry(d.version, stamp)], LogCap);
      } else if d.environment != env {
        PromotingVersion(before, id, env, Ids(all[..i]), d);
        var _ := s.UpdateDeployment(d.id, StatusPatch(Idle), stamp);
        PromotingStep(before, current, s.deployments, id, env, Ids(all[..i]), d, Idle);
        PushedConcat(logs0, done, [UpdatedEntry(d.version, stamp)], LogCap);
      } else {
        PromotingSkip(before, id, env, Ids(all[..i]), d);
        assert done + [] == done;
      }
    }
    assert all[..|all|] == all;
  }

  /** The promote handler: an unknown id answers 404 and changes nothing.
      Otherwise each deployment of the listing is visited in order: the
      target is set active, a deployment of a different environment idle;
      then the traffic goes to the target's environment. */
  method Promote(s: MemStorage, id: string, stamp: string) returns (r: Response)
    requires s.Valid()
    modifies s
    ensures s.Valid()
    ensures r == NotFound <==> id !in old(s.deployments.items)
    ensures r != BadRequest
    ensures r == NotFound ==> unchanged(s)
    ensures r == Ok ==> var env := old(s.deployments.items[id]).environment;
                        && s.deployments == Promoted(old(s.deployments), id, env)
                        && s.trafficSplit == PromoteSplit(env)
                        && s.logs == Pushed(old(s.logs), PromoteEntries(old(s.GetDeployments()), id, env, stamp)
                                                          + [TrafficEntry(stamp)], LogCap)
    ensures s.healthChecks == old(s.healthChecks) && s.schemaVersion == old(s.schemaVersion)
  {
    var found := s.GetDeploymentById(id);
    if found.None? {
      return NotFound;
    }
    var deployment := found.value;
    var env := deployment.environment;
    var all := s.GetDeployments();
    ghost var before := s.deployments;
    ghost var logs0 := s.logs;
    ListingCoversStore(before, all);
    PromotingStart(before, id, env);
    UpdateStatuses(s, all, id, env, stamp, before);
    PromotingDone(before, id, env, Ids(all));
    if env == "green" {
      s.UpdateTrafficSplit(0.0, 100.0, stamp);
    } else {
      s.UpdateTrafficSplit(100.0, 0.0, stamp);
    }
    PushedConcat(logs0, PromoteEntries(all, id, env, stamp), [TrafficEntry(stamp)], LogCap);
    return Ok;
  }

  // ------------------------------------------------------------ rollback

  /** The rollback handler: an unknown id answers 404 before the registry is
      asked to roll back; otherwise the registry rolls back and the handler
      reports the target's new status. */
  method Rollback(s: MemStorage, id: string, stamp: string) returns (r: Response, status: Option<Status>)
    requires s.Valid()
    modifies s
    ensures s.Valid()
    ensures r == NotFound <==> id !in old(s.deployments.items)
    ensures r != BadRequest
    ensures r == NotFound ==> unchanged(s) && status.None?
    ensures r == Ok ==> && s.deployments == RolledBack(old(s.deployments), id)
                        && s.trafficSplit == RollbackSplit(old(s.deployments.items[id]).environment, old(s.trafficSplit))
                        && s.logs == Pushed(old(s.logs), RollbackLog(old(s.GetDeployments()), old(s.deployments.items[id]), stamp),
                                            LogCap)
                        && status == Some(Active)
    ensures s.healthChecks == old(s.healthChecks) && s.schemaVersion == old(s.schemaVersion)
  {
    var found := s.GetDeploymentById(id);
    if found.None? {
      return NotFound, None;
    }
    var _ := s.RollbackToDeployment(id, stamp);
    var updated := s.GetDeploymentById(id);
    status := if updated.Some? then Some(updated.value.status) else Some(Active);
    r := Ok;
  }

  // ------------------------------------------------------- traffic split

  /** Whether the POST body `{ blue, green }` passes the handler's checks:
      both numbers, summing to exactly 100. No range check applies to either. */
  predicate SplitAccepted(blue: BodyValue, green: BodyValue)
  {
    blue.Number? && green.Number? && blue.x + green.x == 100.0
  }

  /** `POST /api/traffic-split`: a rejected body answers 400 and changes
      nothing; an accepted one is stored exactly as given. */
  method PostTrafficSplit(s: MemStorage, blue: BodyValue, green: BodyValue, stamp: string) returns (r: Response)
    requires s.Valid()
    modifies s
    ensures s.Valid()
    ensures r == BadRequest <==> !SplitAccepted(blue, green)
    ensures r != NotFound
    ensures r == BadRequest ==> unchanged(s)
    ensures r == Ok ==> && s.trafficSplit == TrafficSplit(blue.x, green.x)
                        && s.trafficSplit.blue + s.trafficSplit.green == 100.0
                        && s.logs == Pushed(old(s.logs), [TrafficEntry(stamp)], LogCap)
                        && s.deployments == old(s.deployments)
    ensures s.healthChecks == old(s.healthChecks) && s.schemaVersion == old(s.schemaVersion)
  {
    if !blue.Number? || !green.Number? {
      return BadRequest;
    }
    if blue.x + green.x != 100.0 {
      return BadRequest;
    }
    s.UpdateTrafficSplit(blue.x, green.x, stamp);
    return Ok;
  }

  /** A split that totals 100 keeps totalling 100 through a promote, a
      rollback and an accepted POST. */
  lemma SplitStaysWhole(current: TrafficSplit, env: string, blue: BodyValue, green: BodyValue)
    requires current.blue + current.green == 100.0
    ensures PromoteSplit(env).blue + PromoteSplit(env).green == 100.0
    ensures RollbackSplit(env, current).blue + RollbackSplit(env, current).green == 100.0
    ensures SplitAccepted(blue, green) ==> blue.x + green.x == 100.0
  {
  }

  /** Rolling back to a blue or green deployment sends the traffic where
      promoting it would; for any other environment rollback keeps the
      current split while promote sends everything to blue. */
  lemma RollbackSplitMatchesPromote(env: string, current: TrafficSplit)
    ensures env == "blue" || env == "green" ==> RollbackSplit(env, current) == PromoteSplit(env)
    ensures env != "blue" && env != "green" ==> && RollbackSplit(env, current) == current
                                                 && PromoteSplit(env) == TrafficSplit(100.0, 0.0)
  {
  }

  /** A non-number, or a pair off by any amount, is rejected; values outside
      [0, 100] that total 100 are accepted. */
  lemma SplitAcceptance()
    ensures !SplitAccepted(NotNumber, Number(100.0))
    ensures !SplitAccepted(Number(60.0), Number(50.0))
    ensures SplitAccepted(Number(150.0), Number(-50.0))
  {
  }

  // ------------------------------------------------------------- current

  /** The body of `/api/deployments/current`. */
  datatype Current = Current(blue: Option<Deployment>, green: Option<Deployment>)

  /** For blue and for green, the most recent deployment of that environment,
      or null when it has none. */
  function CurrentDeployments(s: MemStorage): (r: Current)
    reads s
    requires s.Valid()
    ensures r.blue.None? <==> forall d :: d in s.deployments.items.Values ==> d.environment != "blue"
    ensures r.blue.Some? ==> && r.blue.value in s.deployments.items.Values && r.blue.value.environment == "blue"
                             && forall d :: d in s.deployments.items.Values && d.environment == "blue"
                                            ==> Recency(d) <= Recency(r.blue.value)
    ensures r.green.None? <==> forall d :: d in s.deployments.items.Values ==> d.environment != "green"
    ensures r.green.Some? ==> && r.green.value in s.deployments.items.Values && r.green.value.environment == "green"
                              && forall d :: d in s.deployments.items.Values && d.environment == "green"
                                             ==> Recency(d) <= Recency(r.green.value)
  {
    ValuesAreItems(s.deployments);
    Current(Latest(s.deployments.Values(), "blue"), Latest(s.deployments.Values(), "green"))
  }
}
