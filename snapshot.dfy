/** The snapshot the registry writes to and reads from its data file: each
    record with its Date field turned into ISO-8601 text or null, and the
    mappings that build it (`saveToDisk`) and turn it back into records
    (`loadFromDisk`). */
module Snapshot {
  import opened Common
  import opened IsoTime
  import opened OrderedMap
  import opened Records

  /** A deployment as written to the file: `deployedAt` is text or null. */
  datatype SavedDeployment = SavedDeployment(
    id: string,
    environment: string,
    version: string,
    commitHash: string,
    commitMessage: Option<string>,
    status: Status,
    deployedAt: Option<string>,
    healthCheckStatus: Option<string>,
    metrics: Option<Metrics>)

  /** A health check as written to the file: `checkedAt` is text or null. */
  datatype SavedHealthCheck = SavedHealthCheck(
    id: string,
    deploymentId: string,
    endpoint: string,
    status: CheckStatus,
    responseTime: Option<real>,
    checkedAt: Option<string>)

  /** The `StorageData` document. A file without a `logs` member has `None`. */
  datatype StorageData = StorageData(
    deployments: seq<SavedDeployment>,
    healthChecks: seq<SavedHealthCheck>,
    logs: Option<seq<LogEntry>>,
    trafficSplit: TrafficSplit,
    schemaVersion: int)

  /** `date ? date.toISOString() : null`. The outer `None` is the RangeError
      that `toISOString` throws for the Invalid Date. */
  function SaveDate(v: Option<DateValue>): (r: Option<Option<string>>)
    ensures r.None? <==> v.Some? && !(v.value.At? && InRange(v.value.ms))
    ensures r == Some(None) <==> v.None?
  {
    match v
    case None => Some(None)
    case Some(InvalidDate) => None
    case Some(At(t)) => if InRange(t) then Some(Some(Format(t))) else None
  }

  /** `text ? new Date(text) : undefined`: null and the empty text give no date. */
  function LoadDate(s: Option<string>): (r: Option<DateValue>)
    ensures r.None? <==> s.None? || s.value == ""
  {
    match s
    case None => None
    case Some(text) => if text == "" then None else Some(Parse(text))
  }

  /** Rehydrating a serialised date gives back the date it came from. */
  lemma DateRoundTrip(v: Option<DateValue>)
    requires SaveDate(v).Some?
    ensures LoadDate(SaveDate(v).value) == v
  {
    if v.Some? {
      ParseFormat(v.value.ms);
      FormatNotEmpty(v.value.ms);
    }
  }

  lemma FormatNotEmpty(t: int)
    requires InRange(t)
    ensures Format(t) != ""
  {
    ParseFormat(t);
  }

  function SaveDeployment(d: Deployment): (r: Option<SavedDeployment>)
    ensures r.Some? <==> SaveDate(d.deployedAt).Some?
  {
    match SaveDate(d.deployedAt)
    case None => None
    case Some(at) =>
      Some(SavedDeployment(d.id, d.environment, d.version, d.commitHash, d.commitMessage,
                           d.status, at, d.healthCheckStatus, d.metrics))
  }

  function LoadDeployment(s: SavedDeployment): (r: Deployment)
    ensures r.deployedAt == LoadDate(s.deployedAt)
  {
    Deployment(s.id, s.environment, s.version, s.commitHash, s.commitMessage,
               s.status, LoadDate(s.deployedAt), s.healthCheckStatus, s.metrics)
  }

  /** A deployment survives the trip through the file unchanged, every field
      copied and the date read back equal. */
  lemma DeploymentRoundTrip(d: Deployment)
    requires SaveDeployment(d).Some?
    ensures LoadDeployment(SaveDeployment(d).value) == d
  {
    DateRoundTrip(d.deployedAt);
  }

  function SaveHealthCheck(h: HealthCheck): (r: Option<SavedHealthCheck>)
    ensures r.Some? <==> SaveDate(h.checkedAt).Some?
  {
    match SaveDate(h.checkedAt)
    case None => None
    case Some(at) =>
      Some(SavedHealthCheck(h.id, h.deploymentId, h.endpoint, h.status, h.responseTime, at))
  }

  function LoadHealthCheck(s: SavedHealthCheck): (r: HealthCheck)
    ensures r.checkedAt == LoadDate(s.checkedAt)
  {
    HealthCheck(s.id, s.deploymentId, s.endpoint, s.status, s.responseTime, LoadDate(s.checkedAt))
  }

  lemma HealthCheckRoundTrip(h: HealthCheck)
    requires SaveHealthCheck(h).Some?
    ensures LoadHealthCheck(SaveHealthCheck(h).value) == h
  {
    DateRoundTrip(h.checkedAt);
  }

  /** `xs.map(f)` where `f` may throw: every element converted, or the error. */
  function SaveEach<A, B>(xs: seq<A>, f: A -> Option<B>): (r: Option<seq<B>>)
    ensures r.None? <==> exists i :: 0 <= i < |xs| && f(xs[i]).None?
    ensures r.Some? ==> |r.value| == |xs| && forall i :: 0 <= i < |xs| ==> f(xs[i]) == Some(r.value[i])
    decreases |xs|
  {
    if xs == [] then Some([])
    else
      var init := SaveEach(xs[..|xs| - 1], f);
      var last := xs[|xs| - 1];
      if init.None? then
        var i :| 0 <= i < |xs| - 1 && f(xs[..|xs| - 1][i]).None?;
        assert xs[i] == xs[..|xs| - 1][i];
        None
      else if f(last).None? then None
      else
        var r := init.value + [f(last).value];
        assert forall i :: 0 <= i < |xs| - 1 ==> xs[i] == xs[..|xs| - 1][i];
        Some(r)
  }

  /** The registry invariant both maps keep: each record sits under its own id. */
  ghost predicate KeyedDeployments(m: OrderedMap<Deployment>)
  {
    m.Valid() && forall k :: k in m.items ==> m.items[k].id == k
  }

  ghost predicate KeyedHealthChecks(m: OrderedMap<HealthCheck>)
  {
    m.Valid() && forall k :: k in m.items ==> m.items[k].id == k
  }

  /** `new Map(parsed.deployments.map(d => [d.id, rehydrated d]))` */
  function LoadDeployments(saved: seq<SavedDeployment>): (r: OrderedMap<Deployment>)
    ensures KeyedDeployments(r)
  {
    var es := seq(|saved|, i requires 0 <= i < |saved| => (saved[i].id, LoadDeployment(saved[i])));
    FromEntriesFrom(es);
    FromEntries(es)
  }

  function LoadHealthChecks(saved: seq<SavedHealthCheck>): (r: OrderedMap<HealthCheck>)
    ensures KeyedHealthChecks(r)
  {
    var es := seq(|saved|, i requires 0 <= i < |saved| => (saved[i].id, LoadHealthCheck(saved[i])));
    FromEntriesFrom(es);
    FromEntries(es)
  }

  /** Writing the deployments map out and reading it back restores the same
      map: the same records under the same ids, in the same order. */
  lemma DeploymentsRoundTrip(m: OrderedMap<Deployment>)
    requires KeyedDeployments(m)
    requires SaveEach(m.Values(), SaveDeployment).Some?
    ensures LoadDeployments(SaveEach(m.Values(), SaveDeployment).value) == m
  {
    var saved := SaveEach(m.Values(), SaveDeployment).value;
    var es := seq(|saved|, i requires 0 <= i < |saved| => (saved[i].id, LoadDeployment(saved[i])));
    forall i | 0 <= i < |es| ensures es[i] == m.Entries()[i] {
      var d := m.items[m.keys[i]];
      assert SaveDeployment(d) == Some(saved[i]);
      DeploymentRoundTrip(d);
    }
    assert es == m.Entries();
    FromEntriesRoundTrip(m);
  }

  lemma HealthChecksRoundTrip(m: OrderedMap<HealthCheck>)
    requires KeyedHealthChecks(m)
    requires SaveEach(m.Values(), SaveHealthCheck).Some?
    ensures LoadHealthChecks(SaveEach(m.Values(), SaveHealthCheck).value) == m
  {
    var saved := SaveEach(m.Values(), SaveHealthCheck).value;
    var es := seq(|saved|, i requires 0 <= i < |saved| => (saved[i].id, LoadHealthCheck(saved[i])));
    forall i | 0 <= i < |es| ensures es[i] == m.Entries()[i] {
      var h := m.items[m.keys[i]];
      assert SaveHealthCheck(h) == Some(saved[i]);
      HealthCheckRoundTrip(h);
    }
    assert es == m.Entries();
    FromEntriesRoundTrip(m);
  }

  /** The `data` object `saveToDisk` builds, or `None` when a date cannot be written. */
  function Serialise(deployments: OrderedMap<Deployment>, healthChecks: OrderedMap<HealthCheck>,
                     logs: seq<LogEntry>, split: TrafficSplit, version: int): (r: Option<StorageData>)
    requires deployments.Valid() && healthChecks.Valid()
    ensures r.None? <==> SaveEach(deployments.Values(), SaveDeployment).None?
                         || SaveEach(healthChecks.Values(), SaveHealthCheck).None?
    ensures r.Some? ==> r.value.logs == Some(logs) && r.value.trafficSplit == split
                        && r.value.schemaVersion == version
  {
    var ds := SaveEach(deployments.Values(), SaveDeployment);
    var hs := SaveEach(healthChecks.Values(), SaveHealthCheck);
    if ds.None? || hs.None? then None
    else Some(StorageData(ds.value, hs.value, Some(logs), split, version))
  }

  /** A snapshot that could be written reads back as the maps it was taken from. */
  lemma SerialiseRoundTrip(deployments: OrderedMap<Deployment>, healthChecks: OrderedMap<HealthCheck>,
                           logs: seq<LogEntry>, split: TrafficSplit, version: int)
    requires KeyedDeployments(deployments) && KeyedHealthChecks(healthChecks)
    requires Serialise(deployments, healthChecks, logs, split, version).Some?
    ensures var data := Serialise(deployments, healthChecks, logs, split, version).value;
            && LoadDeployments(data.deployments) == deployments
            && LoadHealthChecks(data.healthChecks) == healthChecks
  {
    DeploymentsRoundTrip(deployments);
    HealthChecksRoundTrip(healthChecks);
  }
}
