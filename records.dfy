/** The records the deployment registry stores: deployments, health-check
    samples, audit-log entries, the traffic split and schema migrations, and
    the object-spread merge that `updateDeployment` applies to a record. */
module Records {
  import opened Common
  import opened IsoTime

  datatype Status = Active | Idle | Deploying | Failed

  datatype Level = Info | Warn | Error | Debug

  datatype CheckStatus = Passing | Failing | Pending

  /** The metrics blob a deployment carries, as the sample data fills it. */
  datatype Metrics = Metrics(successRate: real, avgResponseTime: real, uptime: real)

  /** A stored deployment. `None` stands for the source's null/undefined;
      `deployedAt` is a Date once created and may be missing after a reload. */
  datatype Deployment = Deployment(
    id: string,
    environment: string,
    version: string,
    commitHash: string,
    commitMessage: Option<string>,
    status: Status,
    deployedAt: Option<DateValue>,
    healthCheckStatus: Option<string>,
    metrics: Option<Metrics>)

  /** The validated body of a create request (`InsertDeployment`). */
  datatype NewDeployment = NewDeployment(
    environment: string,
    version: string,
    commitHash: string,
    commitMessage: Option<string>,
    status: Status,
    healthCheckStatus: Option<string>,
    metrics: Option<Metrics>)

  /** `Partial<Deployment>`: for each field it names, the field's new value
      (`Some(None)` sets a nullable field to null). */
  datatype Patch = Patch(
    environment: Option<string>,
    version: Option<string>,
    commitHash: Option<string>,
    commitMessage: Option<Option<string>>,
    status: Option<Status>,
    deployedAt: Option<Option<DateValue>>,
    healthCheckStatus: Option<Option<string>>,
    metrics: Option<Option<Metrics>>)

  const NoChange := Patch(None, None, None, None, None, None, None, None)

  /** The patch `{ status: s }` that promote and rollback send. */
  function StatusPatch(s: Status): Patch
  {
    NoChange.(status := Some(s))
  }

  function Override<T>(current: T, given: Option<T>): T
  {
    match given
    case Some(v) => v
    case None => current
  }

  /** `{ ...d, ...p }`: every field `p` names takes its value from `p`; every
      other field, and the id, keeps its value. */
  function Merge(d: Deployment, p: Patch): (r: Deployment)
    ensures r.id == d.id
  {
    Deployment(
      d.id,
      Override(d.environment, p.environment),
      Override(d.version, p.version),
      Override(d.commitHash, p.commitHash),
      Override(d.commitMessage, p.commitMessage),
      Override(d.status, p.status),
      Override(d.deployedAt, p.deployedAt),
      Override(d.healthCheckStatus, p.healthCheckStatus),
      Override(d.metrics, p.metrics))
  }

  function Later<T>(first: Option<T>, later: Option<T>): Option<T>
  {
    if later.Some? then later else first
  }

  /** `{ ...p, ...q }`: the patch that applies `p` and then `q`. */
  function Then(p: Patch, q: Patch): Patch
  {
    Patch(
      Later(p.environment, q.environment),
      Later(p.version, q.version),
      Later(p.commitHash, q.commitHash),
      Later(p.commitMessage, q.commitMessage),
      Later(p.status, q.status),
      Later(p.deployedAt, q.deployedAt),
      Later(p.healthCheckStatus, q.healthCheckStatus),
      Later(p.metrics, q.metrics))
  }

  /** Merging is the spread it models: an empty patch changes nothing, a
      status patch changes only the status, two merges are one merge of the
      combined patch, and merging the same patch again changes nothing more. */
  lemma MergeLaws(d: Deployment, p: Patch, q: Patch, s: Status)
    ensures Merge(d, NoChange) == d
    ensures Merge(d, StatusPatch(s)) == d.(status := s)
    ensures Merge(Merge(d, p), q) == Merge(d, Then(p, q))
    ensures Merge(Merge(d, p), p) == Merge(d, p)
  {
  }

  /** A probe result for one endpoint of one deployment. */
  datatype HealthCheck = HealthCheck(
    id: string,
    deploymentId: string,
    endpoint: string,
    status: CheckStatus,
    responseTime: Option<real>,
    checkedAt: Option<DateValue>)

  /** The validated body of a health-check request (`InsertHealthCheck`). */
  datatype NewHealthCheck = NewHealthCheck(
    deploymentId: string,
    endpoint: string,
    status: CheckStatus,
    responseTime: Option<real>)

  /** An audit-log line; `timestamp` is the locale time text of its moment. */
  datatype LogEntry = LogEntry(timestamp: string, level: Level, message: string)

  /** Percentages of traffic routed to each environment. */
  datatype TrafficSplit = TrafficSplit(blue: real, green: real)

  /** One entry of the ordered migration list: its version, its description,
      and what its `validate()` reports. Its `up()` acts on data this model
      does not hold. */
  datatype Migration = Migration(version: int, description: string, valid: bool)
}
