/** `MemStorage`, the in-memory registry: the deployments map, the health-check
    map, the 100-entry audit log, the traffic split and the schema version,
    with the operations that change them. */
module Storage {
  import opened Common
  import opened IsoTime
  import opened OrderedMap
  import opened Records
  import opened Queries
  import opened Migrations
  import opened Snapshot

  /** `addLog` keeps only the last 100 entries. */
  const LogCap: nat := 100

  // ------------------------------------------------------------ log entries
  // Numbers and `JSON.stringify` output interpolated into a message are not
  // rendered; the literal text and the interpolated strings are.

  function CreatedEntry(d: Deployment, stamp: string): LogEntry
  {
    LogEntry(stamp, Info, "Deployment " + d.version + " created for " + d.environment + " environment")
  }

  function UpdatedEntry(version: string, stamp: string): LogEntry
  {
    LogEntry(stamp, Info, "Deployment " + version + " updated: ")
  }

  function TrafficEntry(stamp: string): LogEntry
  {
    LogEntry(stamp, Info, "Traffic split updated: % blue, % green")
  }

  function RollbackEntry(d: Deployment, stamp: string): LogEntry
  {
    LogEntry(stamp, Warn, "Rolled back to " + d.environment + " environment: " + d.version
                          + " (" + d.commitHash + "). All traffic now routing to " + d.environment + ".")
  }

  function MigrationEntry(m: Migration, stamp: string): LogEntry
  {
    LogEntry(stamp, Info, "Applied migration " + IntText(m.version) + ": " + m.description)
  }

  function MigrationEntries(applied: seq<Migration>, stamp: string): (r: seq<LogEntry>)
    ensures |r| == |applied|
    ensures forall i :: 0 <= i < |applied| ==> r[i] == MigrationEntry(applied[i], stamp)
  {
    seq(|applied|, i requires 0 <= i < |applied| => MigrationEntry(applied[i], stamp))
  }

  function SaveFailedEntry(message: string, stamp: string): LogEntry
  {
    LogEntry(stamp, Error, "Failed to persist storage: " + message)
  }

  // ----------------------------------------------------------- rollback plan

  /** The ids of the deployments in `s`. */
  function Ids(s: seq<Deployment>): set<string>
  {
    set d | d in s :: d.id
  }

  /** The update entries the idle loop of a rollback to `id` writes for `s`. */
  function IdleEntries(s: seq<Deployment>, id: string, stamp: string): (r: seq<LogEntry>)
    ensures |r| <= |s|
    decreases |s|
  {
    if s == [] then []
    else
      var d := s[|s| - 1];
      IdleEntries(s[..|s| - 1], id, stamp) + (if d.id != id then [UpdatedEntry(d.version, stamp)] else [])
  }

  /** The idle loop writes one update entry per deployment other than the
      target, and nothing else. */
  lemma {:induction false} IdleEntriesMembers(s: seq<Deployment>, id: string, stamp: string)
    ensures forall e :: e in IdleEntries(s, id, stamp) <==>
                          exists d :: d in s && d.id != id && e == UpdatedEntry(d.version, stamp)
    decreases |s|
  {
    if s != [] {
      var init, d := s[..|s| - 1], s[|s| - 1];
      IdleEntriesMembers(init, id, stamp);
      assert s == init + [d];
      var tail := if d.id != id then [UpdatedEntry(d.version, stamp)] else [];
      assert IdleEntries(s, id, stamp) == IdleEntries(init, id, stamp) + tail;
      forall e ensures e in IdleEntries(s, id, stamp) <==>
                       exists x :: x in s && x.id != id && e == UpdatedEntry(x.version, stamp)
      {
        if e in IdleEntries(init, id, stamp) {
          var x :| x in init && x.id != id && e == UpdatedEntry(x.version, stamp);
          assert x in s;
        } else if e in tail {
          assert d in s;
        } else {
          forall x | x in s && x.id != id ensures e != UpdatedEntry(x.version, stamp) {
            if x in init {
            } else {
              assert x == d;
            }
          }
        }
      }
    }
  }

  /** Every entry a rollback to `target` writes, in order: the target's update,
      one update per other deployment in `all`, the traffic update when the
      environment is blue or green, and the warning. */
  function RollbackLog(all: seq<Deployment>, target: Deployment, stamp: string): seq<LogEntry>
  {
    [UpdatedEntry(target.version, stamp)] + IdleEntries(all, target.id, stamp)
    + (if target.environment == "blue" || target.environment == "green" then [TrafficEntry(stamp)] else [])
    + [RollbackEntry(target, stamp)]
  }

  /** The registry after a rollback to `id`: that record active, every other
      record idle, nothing else about any record changed, order kept. */
  function RolledBack(m: OrderedMap<Deployment>, id: string): OrderedMap<Deployment>
  {
    OrderedMap(map k | k in m.items :: m.items[k].(status := if k == id then Active else Idle), m.keys)
  }

  /** The traffic split after a rollback into environment `env`. */
  function RollbackSplit(env: string, current: TrafficSplit): (r: TrafficSplit)
    ensures env == "blue" ==> r == TrafficSplit(100.0, 0.0)
    ensures env == "green" ==> r == TrafficSplit(0.0, 100.0)
    ensures env != "blue" && env != "green" ==> r == current
  {
    if env == "blue" then TrafficSplit(100.0, 0.0)
    else if env == "green" then TrafficSplit(0.0, 100.0)
    else current
  }

  /** The ids of the active deployments. */
  function ActiveIds(m: OrderedMap<Deployment>): set<string>
  {
    set k | k in m.items && m.items[k].status == Active
  }

  /** After a rollback exactly one deployment is active: the target. */
  lemma RollbackLeavesOneActive(m: OrderedMap<Deployment>, id: string)
    requires KeyedDeployments(m) && id in m.items
    ensures KeyedDeployments(RolledBack(m, id))
    ensures ActiveIds(RolledBack(m, id)) == {id}
  {
    var r := RolledBack(m, id);
    assert r.items.Keys == m.items.Keys;
    assert id in ActiveIds(r);
  }

  /** Every deployment the sorted listing yields is stored under its own id,
      and every stored id appears in the listing. */
  lemma ListingCoversStore(m: OrderedMap<Deployment>, all: seq<Deployment>)
    requires KeyedDeployments(m)
    requires multiset(all) == multiset(m.Values())
    ensures forall d :: d in all ==> d.id in m.items && m.items[d.id] == d
    ensures forall k :: k in m.items ==> k in Ids(all)
  {
    ValuesAreItems(m);
    forall d | d in all ensures d.id in m.items && m.items[d.id] == d {
      assert d in multiset(all);
      assert d in m.Values();
    }
    forall k | k in m.items ensures k in Ids(all) {
      assert m.items[k] in m.Values();
      assert m.items[k] in multiset(all);
    }
  }

  /** The registry while the rollback loop runs: the target active, the
      deployments already visited idle, the rest as they were. */
  function Rolling(m: OrderedMap<Deployment>, id: string, done: set<string>): OrderedMap<Deployment>
  {
    OrderedMap(map k | k in m.items :: m.items[k].(status := if k == id then Active
                                                          else if k in done then Idle
                                                          else m.items[k].status), m.keys)
  }

  lemma RollingStart(before: OrderedMap<Deployment>, after: OrderedMap<Deployment>, id: string)
    requires id in before.items
    requires after.items == before.items[id := Merge(before.items[id], StatusPatch(Active))]
    requires after.keys == before.keys
    ensures after == Rolling(before, id, {})
  {
    MergeLaws(before.items[id], NoChange, NoChange, Active);
    assert after.items == Rolling(before, id, {}).items;
  }

  lemma RollingIdle(before: OrderedMap<Deployment>, current: OrderedMap<Deployment>, after: OrderedMap<Deployment>,
                    id: string, done: set<string>, k: string)
    requires current == Rolling(before, id, done)
    requires k in before.items && k != id
    requires after.items == current.items[k := Merge(current.items[k], StatusPatch(Idle))]
    requires after.keys == current.keys
    ensures after == Rolling(before, id, done + {k})
  {
    MergeLaws(current.items[k], NoChange, NoChange, Idle);
    assert after.items == Rolling(before, id, done + {k}).items;
  }

  lemma RollingTarget(before: OrderedMap<Deployment>, id: string, done: set<string>)
    ensures Rolling(before, id, done + {id}) == Rolling(before, id, done)
  {
    assert Rolling(before, id, done + {id}).items == Rolling(before, id, done).items;
  }

  lemma RollingVersion(before: OrderedMap<Deployment>, id: string, done: set<string>, d: Deployment)
    requires d.id in before.items && before.items[d.id] == d
    ensures d.id in Rolling(before, id, done).items
    ensures Rolling(before, id, done).items[d.id].version == d.version
  {
  }

  lemma RollingDone(before: OrderedMap<Deployment>, id: string, done: set<string>)
    requires forall k :: k in before.items ==> k in done
    ensures Rolling(before, id, done) == RolledBack(before, id)
  {
    assert Rolling(before, id, done).items == RolledBack(before, id).items;
  }

  lemma IdsSnoc(s: seq<Deployment>, i: nat)
    requires i < |s|
    ensures Ids(s[..i + 1]) == Ids(s[..i]) + {s[i].id}
  {
    assert s[..i + 1] == s[..i] + [s[i]];
  }

  lemma IdleEntriesSnoc(s: seq<Deployment>, i: nat, id: string, stamp: string)
    requires i < |s|
    ensures IdleEntries(s[..i + 1], id, stamp)
         == IdleEntries(s[..i], id, stamp) + (if s[i].id != id then [UpdatedEntry(s[i].version, stamp)] else [])
  {
    assert s[..i + 1][..i] == s[..i];
  }

  /** The health checks of one deployment, in stored order. */
  function ChecksFor(s: seq<HealthCheck>, deploymentId: string): (r: seq<HealthCheck>)
    ensures |r| <= |s|
    ensures forall h :: h in r <==> h in s && h.deploymentId == deploymentId
  {
    if s == [] then []
    else
      assert s == [s[0]] + s[1..];
      (if s[0].deploymentId == deploymentId then [s[0]] else []) + ChecksFor(s[1..], deploymentId)
  }

  /** Each check of the deployment is kept as many times as it occurs, any
      other not at all. */
  lemma {:induction false} ChecksForCount(s: seq<HealthCheck>, deploymentId: string)
    ensures forall h :: multiset(ChecksFor(s, deploymentId))[h]
                        == if h.deploymentId == deploymentId then multiset(s)[h] else 0
  {
    if s != [] {
      ChecksForCount(s[1..], deploymentId);
      assert s == [s[0]] + s[1..];
    }
  }

  /** Filtering a concatenation filters each part, in order. */
  lemma {:induction false} ChecksForConcat(a: seq<HealthCheck>, b: seq<HealthCheck>, deploymentId: string)
    ensures ChecksFor(a + b, deploymentId) == ChecksFor(a, deploymentId) + ChecksFor(b, deploymentId)
  {
    if a != [] {
      ChecksForConcat(a[1..], b, deploymentId);
      var t := a[1..] + b;
      assert a + b != [] && (a + b)[0] == a[0] && (a + b)[1..] == t;
      var x := if a[0].deploymentId == deploymentId then [a[0]] else [];
      assert ChecksFor(a + b, deploymentId) == x + ChecksFor(t, deploymentId);
      assert ChecksFor(a, deploymentId) == x + ChecksFor(a[1..], deploymentId);
      assert x + (ChecksFor(a[1..], deploymentId) + ChecksFor(b, deploymentId))
          == (x + ChecksFor(a[1..], deploymentId)) + ChecksFor(b, deploymentId);
    } else {
      assert a + b == b;
    }
  }

  /** Records held under their own distinct ids are distinct. */
  lemma KeyedDeploymentsDistinct(m: OrderedMap<Deployment>)
    requires KeyedDeployments(m)
    ensures Distinct(m.Values())
  {
    var v := m.Values();
    forall i, j | 0 <= i < j < |v| ensures v[i] != v[j] {
      assert m.keys[i] in m.items && m.keys[j] in m.items;
      assert v[i].id == m.keys[i] && v[j].id == m.keys[j];
    }
  }

  lemma KeyedHealthChecksDistinct(m: OrderedMap<HealthCheck>)
    requires KeyedHealthChecks(m)
    ensures Distinct(m.Values())
  {
    var v := m.Values();
    forall i, j | 0 <= i < j < |v| ensures v[i] != v[j] {
      assert m.keys[i] in m.items && m.keys[j] in m.items;
      assert v[i].id == m.keys[i] && v[j].id == m.keys[j];
    }
  }

  /** A filter of a list without repeats has no repeats. */
  lemma ChecksForDistinct(s: seq<HealthCheck>, deploymentId: string)
    requires Distinct(s)
    ensures Distinct(ChecksFor(s, deploymentId))
  {
    var r := ChecksFor(s, deploymentId);
    ChecksForCount(s, deploymentId);
    DistinctCounts(s);
    assert forall h :: multiset(r)[h] <= multiset(s)[h];
    DistinctCounts(r);
  }

  /** The message of the first check `saveToDisk` fails, in its order: the
      schema validation, the dates `toISOString` must write, the write itself. */
  function SaveFailure(schemaValid: bool, data: Option<StorageData>, writeError: Option<string>): (r: Option<string>)
    ensures r.None? <==> schemaValid && data.Some? && writeError.None?
    ensures !schemaValid ==> r == Some("Invalid schema detected before save")
    ensures schemaValid && data.None? ==> r == Some("Invalid time value")
    ensures schemaValid && data.Some? && writeError.Some? ==> r == writeError
  {
    if !schemaValid then Some("Invalid schema detected before save")
    else if data.None? then Some("Invalid time value")
    else writeError
  }

  /** What reading the data file gives: the parsed document, or the message
      of the error `readFile` or `JSON.parse` threw. */
  datatype FileRead = Contents(data: StorageData) | ReadError(message: string)

  class MemStorage {
    var deployments: OrderedMap<Deployment>
    var healthChecks: OrderedMap<HealthCheck>
    var logs: seq<LogEntry>
    var trafficSplit: TrafficSplit
    var schemaVersion: int
    /** The ordered list of the migrations module. */
    const migrations: seq<Migration>

    /** Both maps are well formed and hold each record under its own id. */
    ghost predicate Valid()
      reads this
    {
      KeyedDeployments(deployments) && KeyedHealthChecks(healthChecks)
    }

    /** The fields' initial values: no records, no log, all traffic to blue,
        schema version 1. */
    constructor(ms: seq<Migration>)
      ensures Valid()
      ensures deployments == Empty() && healthChecks == Empty() && logs == []
      ensures trafficSplit == TrafficSplit(100.0, 0.0) && schemaVersion == 1
      ensures migrations == ms
    {
      deployments := Empty();
      healthChecks := Empty();
      logs := [];
      trafficSplit := TrafficSplit(100.0, 0.0);
      schemaVersion := 1;
      migrations := ms;
    }

    // ------------------------------------------------------------ queries

    /** `getDeployments`: every stored record once, newest first. */
    function GetDeployments(): (r: seq<Deployment>)
      reads this
      requires Valid()
      ensures NewestFirst(r)
      ensures multiset(r) == multiset(deployments.Values())
      ensures |r| == |deployments.keys|
      ensures forall d :: d in r <==> d in deployments.items.Values
    {
      var r := SortNewestFirst(deployments.Values());
      ValuesAreItems(deployments);
      assert forall d :: d in r <==> d in multiset(r);
      assert |r| == |multiset(r)|;
      r
    }

    /** `getDeploymentById` */
    function GetDeploymentById(id: string): (r: Option<Deployment>)
      reads this
      ensures r.Some? <==> id in deployments.items
      ensures r.Some? ==> r.value == deployments.items[id]
    {
      deployments.Get(id)
    }

    /** `getDeploymentsByEnvironment`: exactly the stored records of `env`, newest first. */
    function GetDeploymentsByEnvironment(env: string): (r: seq<Deployment>)
      reads this
      requires Valid()
      ensures NewestFirst(r)
      ensures forall d :: d in r <==> d in deployments.items.Values && d.environment == env
      ensures forall d :: multiset(r)[d] == if d.environment == env then multiset(deployments.Values())[d] else 0
      ensures Distinct(r)
    {
      ValuesAreItems(deployments);
      KeyedDeploymentsDistinct(deployments);
      ByEnvironmentCount(deployments.Values(), env);
      ByEnvironment(deployments.Values(), env)
    }

    /** `getPreviousDeployment`: the second element of the environment's listing. */
    function GetPreviousDeployment(env: string): (r: Option<Deployment>)
      reads this
      requires Valid()
      ensures var listing := GetDeploymentsByEnvironment(env);
              r == if |listing| >= 2 then Some(listing[1]) else None
    {
      var r := Previous(deployments.Values(), env);
      assert |ByEnvironment(deployments.Values(), env)| == |OfEnvironment(deployments.Values(), env)|;
      r
    }

    /** `getHealthChecks`: exactly the stored checks of one deployment, in stored order. */
    function GetHealthChecks(deploymentId: string): (r: seq<HealthCheck>)
      reads this
      requires Valid()
      ensures r == ChecksFor(healthChecks.Values(), deploymentId)
      ensures forall h :: h in r <==> h in healthChecks.items.Values && h.deploymentId == deploymentId
      ensures forall h :: multiset(r)[h] == if h.deploymentId == deploymentId then multiset(healthChecks.Values())[h] else 0
      ensures Distinct(r)
    {
      ValuesAreItems(healthChecks);
      KeyedHealthChecksDistinct(healthChecks);
      ChecksForCount(healthChecks.Values(), deploymentId);
      ChecksForDistinct(healthChecks.Values(), deploymentId);
      ChecksFor(healthChecks.Values(), deploymentId)
    }

    /** `getLogs`: the stored log, newest first; the deployment id is ignored. */
    function GetLogs(deploymentId: Option<string>): (r: seq<LogEntry>)
      reads this
      ensures |r| == |logs|
      ensures forall i :: 0 <= i < |logs| ==> r[i] == logs[|logs| - 1 - i]
    {
      Reverse(logs)
    }

    /** `getTrafficSplit` */
    function GetTrafficSplit(): TrafficSplit
      reads this
    {
      trafficSplit
    }

    /** `validateSchema` */
    function ValidateSchema(): bool
      reads this
    {
      SchemaValid(migrations, schemaVersion)
    }

    // ---------------------------------------------------------- mutations

    /** `addLog`: push, then cut back to the last 100 entries. */
    method AddLog(e: LogEntry)
      modifies this
      ensures logs == KeepLast(old(logs) + [e], LogCap)
      ensures logs == Pushed(old(logs), [e], LogCap)
      ensures deployments == old(deployments) && healthChecks == old(healthChecks)
      ensures trafficSplit == old(trafficSplit) && schemaVersion == old(schemaVersion)
    {
      logs := logs + [e];
      if |logs| > LogCap {
        logs := logs[|logs| - LogCap..];
      }
    }

    /** `createDeployment`: one new record under the fresh id, deployed now;
        no other record changes. */
    method CreateDeployment(ins: NewDeployment, id: string, now: int, stamp: string) returns (d: Deployment)
      requires Valid() && id !in deployments.items
      modifies this
      ensures Valid()
      ensures d == Deployment(id, ins.environment, ins.version, ins.commitHash, ins.commitMessage,
                              ins.status, Some(At(now)), ins.healthCheckStatus, ins.metrics)
      ensures deployments.items == old(deployments.items)[id := d]
      ensures deployments.keys == old(deployments.keys) + [id]
      ensures logs == Pushed(old(logs), [CreatedEntry(d, stamp)], LogCap)
      ensures healthChecks == old(healthChecks) && trafficSplit == old(trafficSplit)
      ensures schemaVersion == old(schemaVersion)
    {
      d := Deployment(id, ins.environment, ins.version, ins.commitHash, ins.commitMessage,
                      ins.status, Some(At(now)), ins.healthCheckStatus, ins.metrics);
      deployments := deployments.Set(id, d);
      AddLog(CreatedEntry(d, stamp));
    }

    /** `updateDeployment`: an unknown id changes nothing; a known one gets the
        patch merged into its record and nothing else changes. */
    method UpdateDeployment(id: string, p: Patch, stamp: string) returns (r: Option<Deployment>)
      requires Valid()
      modifies this
      ensures Valid()
      ensures r.None? <==> id !in old(deployments.items)
      ensures r.None? ==> deployments == old(deployments) && logs == old(logs)
      ensures r.Some? ==> && r.value == Merge(old(deployments.items[id]), p)
                          && deployments.items == old(deployments.items)[id := r.value]
                          && deployments.keys == old(deployments.keys)
                          && logs == Pushed(old(logs), [UpdatedEntry(old(deployments.items[id]).version, stamp)], LogCap)
      ensures healthChecks == old(healthChecks) && trafficSplit == old(trafficSplit)
      ensures schemaVersion == old(schemaVersion)
    {
      var found := deployments.Get(id);
      if found.None? {
        return None;
      }
      var updated := Merge(found.value, p);
      deployments := deployments.Set(id, updated);
      AddLog(UpdatedEntry(found.value.version, stamp));
      r := Some(updated);
    }

    /** `updateTrafficSplit`: stores the split as given, without checks. */
    method UpdateTrafficSplit(blue: real, green: real, stamp: string)
      modifies this
      ensures trafficSplit == TrafficSplit(blue, green)
      ensures logs == Pushed(old(logs), [TrafficEntry(stamp)], LogCap)
      ensures deployments == old(deployments) && healthChecks == old(healthChecks)
      ensures schemaVersion == old(schemaVersion)
    {
      trafficSplit := TrafficSplit(blue, green);
      AddLog(TrafficEntry(stamp));
    }

    /** `createHealthCheck`: one new check under the fresh id, checked now. */
    method CreateHealthCheck(ins: NewHealthCheck, id: string, now: int) returns (h: HealthCheck)
      requires Valid() && id !in healthChecks.items
      modifies this
      ensures Valid()
      ensures h == HealthCheck(id, ins.deploymentId, ins.endpoint, ins.status, ins.responseTime, Some(At(now)))
      ensures healthChecks.items == old(healthChecks.items)[id := h]
      ensures healthChecks.keys == old(healthChecks.keys) + [id]
      ensures deployments == old(deployments) && logs == old(logs)
      ensures trafficSplit == old(trafficSplit) && schemaVersion == old(schemaVersion)
    {
      h := HealthCheck(id, ins.deploymentId, ins.endpoint, ins.status, ins.responseTime, Some(At(now)));
      healthChecks := healthChecks.Set(id, h);
    }

    /** `rollbackToDeployment`: an unknown id fails before any change. A known
        one becomes active, every other deployment idle, traffic goes to a blue
        or green target's environment, and the entries are logged in order. */
    method RollbackToDeployment(id: string, stamp: string) returns (r: Outcome<string>)
      requires Valid()
      modifies this
      ensures Valid()
      ensures r.Pass? <==> id in old(deployments.items)
      ensures r.Fail? ==> r.error == "Deployment not found" && unchanged(this)
      ensures r.Pass? ==> && deployments == RolledBack(old(deployments), id)
                          && trafficSplit == RollbackSplit(old(deployments.items[id]).environment, old(trafficSplit))
                          && logs == Pushed(old(logs), RollbackLog(old(GetDeployments()), old(deployments.items[id]), stamp), LogCap)
      ensures healthChecks == old(healthChecks) && schemaVersion == old(schemaVersion)
    {
      var found := GetDeploymentById(id);
      if found.None? {
        return Fail("Deployment not found");
      }
      var target := found.value;
      var all := GetDeployments();
      ghost var before := deployments;
      ghost var logs0 := logs;
      ListingCoversStore(before, all);
      var _ := UpdateDeployment(id, StatusPatch(Active), stamp);
      RollingStart(before, deployments, id);
      IdleOthers(all, id, stamp, before);
      PushedConcat(logs0, [UpdatedEntry(target.version, stamp)], IdleEntries(all, id, stamp), LogCap);
      RollingDone(before, id, Ids(all));
      ghost var base := [UpdatedEntry(target.version, stamp)] + IdleEntries(all, id, stamp);
      ghost var traffic: seq<LogEntry> := [];
      if target.environment == "blue" {
        UpdateTrafficSplit(100.0, 0.0, stamp);
        traffic := [TrafficEntry(stamp)];
      } else if target.environment == "green" {
        UpdateTrafficSplit(0.0, 100.0, stamp);
        traffic := [TrafficEntry(stamp)];
      }
      PushedConcat(logs0, base, traffic, LogCap);
      AddLog(RollbackEntry(target, stamp));
      PushedConcat(logs0, base + traffic, [RollbackEntry(target, stamp)], LogCap);
      assert base + traffic + [RollbackEntry(target, stamp)] == RollbackLog(all, target, stamp);
      return Pass;
    }

    /** The loop of `rollbackToDeployment` that sets every deployment of the
        listing other than the target to idle. */
    method IdleOthers(all: seq<Deployment>, id: string, stamp: string, ghost before: OrderedMap<Deployment>)
      requires Valid()
      requires KeyedDeployments(before)
      requires forall d :: d in all ==> d.id in before.items && before.items[d.id] == d
      requires deployments == Rolling(before, id, {})
      modifies this
      ensures Valid()
      ensures deployments == Rolling(before, id, Ids(all))
      ensures logs == Pushed(old(logs), IdleEntries(all, id, stamp), LogCap)
      ensures healthChecks == old(healthChecks) && trafficSplit == old(trafficSplit)
      ensures schemaVersion == old(schemaVersion)
    {
      ghost var logs0 := logs;
      assert all[..0] == [];
      for i := 0 to |all|
        invariant Valid()
        invariant deployments == Rolling(before, id, Ids(all[..i]))
        invariant logs == Pushed(logs0, IdleEntries(all[..i], id, stamp), LogCap)
        invariant healthChecks == old(healthChecks) && trafficSplit == old(trafficSplit)
        invariant schemaVersion == old(schemaVersion)
      {
        var d := all[i];
        IdsSnoc(all, i);
        IdleEntriesSnoc(all, i, id, stamp);
        ghost var current := deployments;
        ghost var done := IdleEntries(all[..i], id, stamp);
        if d.id != id {
          assert d in all;
          RollingVersion(before, id, Ids(all[..i]), d);
          var _ := UpdateDeployment(d.id, StatusPatch(Idle), stamp);
          RollingIdle(before, current, deployments, id, Ids(all[..i]), d.id);
          PushedConcat(logs0, done, [UpdatedEntry(d.version, stamp)], LogCap);
        } else {
          RollingTarget(before, id, Ids(all[..i]));
          assert done + [] == done;
        }
      }
      assert all[..|all|] == all;
    }

    /** `upgradeSchema`: a lower target throws "Downgrade not supported" and
        changes nothing; otherwise the migrations loop runs, moving the version
        and logging each migration applied. */
    method UpgradeSchema(target: int, stamp: string) returns (r: Outcome<string>)
      modifies this
      ensures r.Fail? <==> target < old(schemaVersion)
      ensures r.Fail? ==> r.error == "Downgrade not supported" && unchanged(this)
      ensures r.Pass? ==> var run := Upgrade(migrations, old(schemaVersion), target);
                          && schemaVersion == run.version
                          && logs == Pushed(old(logs), MigrationEntries(run.applied, stamp), LogCap)
      ensures deployments == old(deployments) && healthChecks == old(healthChecks)
      ensures trafficSplit == old(trafficSplit)
    {
      if target < schemaVersion {
        return Fail("Downgrade not supported");
      }
      ghost var start := schemaVersion;
      ghost var logs0 := logs;
      for i := 0 to |migrations|
        invariant schemaVersion == Upgrade(migrations[..i], start, target).version
        invariant logs == Pushed(logs0, MigrationEntries(Upgrade(migrations[..i], start, target).applied, stamp), LogCap)
        invariant deployments == old(deployments) && healthChecks == old(healthChecks)
        invariant trafficSplit == old(trafficSplit)
      {
        var m := migrations[i];
        UpgradeStep(migrations, i, start, target);
        ghost var run := Upgrade(migrations[..i], start, target);
        if m.version > schemaVersion && m.version <= target {
          schemaVersion := m.version;
          AddLog(MigrationEntry(m, stamp));
          PushedConcat(logs0, MigrationEntries(run.applied, stamp), [MigrationEntry(m, stamp)], LogCap);
          MigrationEntriesSnoc(run.applied, m, stamp);
        }
      }
      assert migrations[..|migrations|] == migrations;
      return Pass;
    }

    /** `saveToDisk`: the snapshot it writes, or `None` when it fails; a failure
        (invalid schema, an unwritable date, a write error) appends one error
        entry with the first failure's message and changes nothing else. */
    method SaveToDisk(writeError: Option<string>, stamp: string) returns (written: Option<StorageData>)
      requires Valid()
      modifies this
      ensures Valid()
      ensures var failure := SaveFailure(SchemaValid(migrations, old(schemaVersion)),
                                         Serialise(old(deployments), old(healthChecks), old(logs), old(trafficSplit), old(schemaVersion)),
                                         writeError);
              && (written.None? <==> failure.Some?)
              && (failure.Some? ==> logs == Pushed(old(logs), [SaveFailedEntry(failure.value, stamp)], LogCap))
              && (failure.None? ==> logs == old(logs))
      ensures written.Some? ==> written == Serialise(deployments, healthChecks, logs, trafficSplit, schemaVersion)
      ensures deployments == old(deployments) && healthChecks == old(healthChecks)
      ensures trafficSplit == old(trafficSplit) && schemaVersion == old(schemaVersion)
    {
      var data := Serialise(deployments, healthChecks, logs, trafficSplit, schemaVersion);
      var failure := SaveFailure(ValidateSchema(), data, writeError);
      if failure.Some? {
        AddLog(SaveFailedEntry(failure.value, stamp));
        return None;
      }
      written := data;
    }

    /** `loadFromDisk`: a read error or a downgrade fails with nothing changed;
        otherwise the schema is upgraded to the file's version, and if the
        version reached validates, every field is restored from the file. */
    method LoadFromDisk(file: FileRead, stamp: string) returns (r: Outcome<string>)
      requires Valid()
      modifies this
      ensures Valid()
      ensures file.ReadError? ==> r == Fail(file.message) && unchanged(this)
      ensures file.Contents? && file.data.schemaVersion < old(schemaVersion) ==>
                r == Fail("Downgrade not supported") && unchanged(this)
      ensures file.Contents? && file.data.schemaVersion >= old(schemaVersion) ==>
                var run := Upgrade(migrations, old(schemaVersion), file.data.schemaVersion);
                if SchemaValid(migrations, run.version) then
                  && r == Pass
                  && deployments == LoadDeployments(file.data.deployments)
                  && healthChecks == LoadHealthChecks(file.data.healthChecks)
                  && logs == (if file.data.logs.Some? then file.data.logs.value else [])
                  && trafficSplit == file.data.trafficSplit
                  && schemaVersion == file.data.schemaVersion
                else
                  && r == Fail("Invalid schema detected")
                  && schemaVersion == run.version
                  && logs == Pushed(old(logs), MigrationEntries(run.applied, stamp), LogCap)
                  && deployments == old(deployments) && healthChecks == old(healthChecks)
                  && trafficSplit == old(trafficSplit)
    {
      if file.ReadError? {
        return Fail(file.message);
      }
      var parsed := file.data;
      ghost var run := Upgrade(migrations, schemaVersion, parsed.schemaVersion);
      if parsed.schemaVersion != schemaVersion {
        var upgraded := UpgradeSchema(parsed.schemaVersion, stamp);
        if upgraded.Fail? {
          return upgraded;
        }
      } else {
        NothingToUpgrade(migrations, schemaVersion);
      }
      if !ValidateSchema() {
        return Fail("Invalid schema detected");
      }
      Restore(parsed);
      return Pass;
    }

    /** The restoring half of `loadFromDisk`: every field from the file. */
    method Restore(parsed: StorageData)
      modifies this
      ensures Valid()
      ensures && deployments == LoadDeployments(parsed.deployments)
              && healthChecks == LoadHealthChecks(parsed.healthChecks)
              && logs == (if parsed.logs.Some? then parsed.logs.value else [])
              && trafficSplit == parsed.trafficSplit
              && schemaVersion == parsed.schemaVersion
    {
      deployments := LoadDeployments(parsed.deployments);
      healthChecks := LoadHealthChecks(parsed.healthChecks);
      logs := if parsed.logs.Some? then parsed.logs.value else [];
      trafficSplit := parsed.trafficSplit;
      schemaVersion := parsed.schemaVersion;
    }

    /** `loadFromDisk` as evidently intended: a snapshot whose version the
        migrations cannot reach is refused before anything runs; otherwise it
        loads as before, so a load that passes leaves a version that validates. */
    method LoadFromDiskChecked(file: FileRead, stamp: string) returns (r: Outcome<string>)
      requires Valid()
      modifies this
      ensures Valid()
      ensures r.Pass? <==> && file.Contents? && file.data.schemaVersion >= old(schemaVersion)
                           && Upgrade(migrations, old(schemaVersion), file.data.schemaVersion).version == file.data.schemaVersion
                           && SchemaValid(migrations, file.data.schemaVersion)
      ensures r.Pass? ==> && SchemaValid(migrations, schemaVersion)
                          && deployments == LoadDeployments(file.data.deployments)
                          && healthChecks == LoadHealthChecks(file.data.healthChecks)
                          && logs == (if file.data.logs.Some? then file.data.logs.value else [])
                          && trafficSplit == file.data.trafficSplit
                          && schemaVersion == file.data.schemaVersion
      ensures r.Fail? ==> && deployments == old(deployments) && healthChecks == old(healthChecks)
                          && trafficSplit == old(trafficSplit)
      ensures file.ReadError? ==> r == Fail(file.message) && unchanged(this)
      ensures file.Contents? && file.data.schemaVersion < old(schemaVersion) ==>
                r == Fail("Downgrade not supported") && unchanged(this)
      ensures file.Contents? && file.data.schemaVersion >= old(schemaVersion) ==>
                var run := Upgrade(migrations, old(schemaVersion), file.data.schemaVersion);
                && (run.version != file.data.schemaVersion ==> r == Fail("Invalid schema detected") && unchanged(this))
                && (run.version == file.data.schemaVersion && !SchemaValid(migrations, run.version) ==>
                      && r == Fail("Invalid schema detected")
                      && schemaVersion == run.version
                      && logs == Pushed(old(logs), MigrationEntries(run.applied, stamp), LogCap))
    {
      if && file.Contents? && file.data.schemaVersion >= schemaVersion
         && Upgrade(migrations, schemaVersion, file.data.schemaVersion).version != file.data.schemaVersion
      {
        return Fail("Invalid schema detected");
      }
      r := LoadFromDisk(file, stamp);
    }
  }

  /** A registry whose only migration is version 1 loads a snapshot of
      version 2: the load passes, and the schema version it then holds fails
      `validateSchema`, so every later save fails. The checked load refuses
      the same snapshot. */
  method LoadPastLastMigration() returns (r: Outcome<string>, valid: bool, checked: Outcome<string>)
    ensures r == Pass && !valid
    ensures checked.Fail?
  {
    var ms := [Migration(1, "Initial schema", true)];
    var file := Contents(StorageData([], [], None, TrafficSplit(100.0, 0.0), 2));
    assert Find(ms, 1) == Some(ms[0]);
    assert ms[0] in ms;
    var s := new MemStorage(ms);
    r := s.LoadFromDisk(file, "");
    valid := s.ValidateSchema();
    var t := new MemStorage(ms);
    checked := t.LoadFromDiskChecked(file, "");
  }

  /** Upgrading to the current version applies nothing. */
  lemma NothingToUpgrade(ms: seq<Migration>, v: int)
    ensures Upgrade(ms, v, v) == UpgradeRun([], v)
  {
  }

  /** One turn of the upgrade loop. */
  lemma UpgradeStep(ms: seq<Migration>, i: nat, start: int, target: int)
    requires i < |ms|
    ensures var run := Upgrade(ms[..i], start, target);
            Upgrade(ms[..i + 1], start, target)
              == if run.version < ms[i].version <= target then UpgradeRun(run.applied + [ms[i]], ms[i].version)
                 else run
  {
    assert ms[..i + 1][..i] == ms[..i];
  }

  lemma MigrationEntriesSnoc(applied: seq<Migration>, m: Migration, stamp: string)
    ensures MigrationEntries(applied + [m], stamp) == MigrationEntries(applied, stamp) + [MigrationEntry(m, stamp)]
  {
  }
}
