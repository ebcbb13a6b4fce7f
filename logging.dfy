/** `LogManager`: a structured log of at most 1000 entries, each stamped with
    the ISO text of its moment and carrying a trace id, a span id and the
    caller's metadata, and the conjunctive filter that reads it back. */
module Logging {
  import opened Common
  import opened IsoTime
  import opened Records

  /** The number of entries the structured log keeps. */
  const MaxLogs: nat := 1000

  /** A value of the `metadata` record, which is `Record<string, unknown>`:
      text, a number, a boolean, null or undefined, or an object. */
  datatype Meta = Text(s: string) | Num(x: real) | Flag(b: bool) | Null | Structure

  /** JavaScript truthiness: the empty text, 0, false, null and undefined are
      false, every object is true. */
  predicate Truthy(v: Meta)
  {
    match v
    case Text(s) => s != ""
    case Num(x) => x != 0.0
    case Flag(b) => b
    case Null => false
    case Structure => true
  }

  datatype StructuredLog = StructuredLog(
    timestamp: string,
    level: Level,
    message: string,
    traceId: Meta,
    spanId: Meta,
    metadata: map<string, Meta>)

  /** `metadata[key] as string || generated`: the supplied value when it is
      truthy, the freshly generated id otherwise. */
  function Pick(metadata: map<string, Meta>, key: string, generated: string): (r: Meta)
    ensures key in metadata && Truthy(metadata[key]) ==> r == metadata[key]
    ensures !(key in metadata && Truthy(metadata[key])) ==> r == Text(generated)
  {
    if key in metadata && Truthy(metadata[key]) then metadata[key] else Text(generated)
  }

  /** The entry `log` builds at time `now`; `freshTrace` and `freshSpan` are
      the two ids `crypto.randomUUID()` would return. */
  function Entry(level: Level, message: string, metadata: map<string, Meta>, now: int,
                 freshTrace: string, freshSpan: string): (r: StructuredLog)
    requires InRange(now)
    ensures Parse(r.timestamp) == At(now)
    ensures r.level == level && r.message == message && r.metadata == metadata
    ensures r.traceId == Pick(metadata, "traceId", freshTrace)
    ensures r.spanId == Pick(metadata, "spanId", freshSpan)
  {
    ParseFormat(now);
    StructuredLog(Format(now), level, message,
                  Pick(metadata, "traceId", freshTrace), Pick(metadata, "spanId", freshSpan), metadata)
  }

  // ----------------------------------------------------------------- filters

  /** The filter `getLogs` accepts. Other keys a caller passes are ignored. */
  datatype LogFilter = LogFilter(
    level: Option<Level>,
    traceId: Option<string>,
    startTime: Option<DateValue>,
    endTime: Option<DateValue>)

  /** One `filtered = filtered.filter(...)` step. */
  datatype Criterion = LevelIs(level: Level) | TraceIs(traceId: string) | From(start: DateValue) | Until(end: DateValue)

  /** `new Date(log.timestamp) >= start` (or `<=` for `atMost`): a comparison
      with an Invalid Date on either side is false. */
  predicate Compares(timestamp: string, bound: DateValue, atMost: bool)
  {
    match (Parse(timestamp), bound)
    case (At(t), At(b)) => if atMost then t <= b else t >= b
    case _ => false
  }

  predicate Holds(l: StructuredLog, c: Criterion)
  {
    match c
    case LevelIs(v) => l.level == v
    case TraceIs(id) => l.traceId == Text(id)
    case From(start) => Compares(l.timestamp, start, false)
    case Until(end) => Compares(l.timestamp, end, true)
  }

  /** The steps `getLogs` applies, in its order: each criterion that is
      supplied, a trace id only when it is not empty. */
  function Criteria(f: LogFilter): (r: seq<Criterion>)
    ensures |r| == Supplied(f) <= 4
  {
    var a := if f.level.Some? then [LevelIs(f.level.value)] else [];
    var b := if f.traceId.Some? && f.traceId.value != "" then [TraceIs(f.traceId.value)] else [];
    var c := if f.startTime.Some? then [From(f.startTime.value)] else [];
    var d := if f.endTime.Some? then [Until(f.endTime.value)] else [];
    a + b + c + d
  }

  /** The chain holds one step per supplied criterion, and no other. */
  lemma CriteriaSupplied(f: LogFilter)
    ensures |Criteria(f)| == Supplied(f)
    ensures forall v :: LevelIs(v) in Criteria(f) <==> f.level == Some(v)
    ensures forall id :: TraceIs(id) in Criteria(f) <==> f.traceId == Some(id) && id != ""
    ensures forall d :: From(d) in Criteria(f) <==> f.startTime == Some(d)
    ensures forall d :: Until(d) in Criteria(f) <==> f.endTime == Some(d)
  {
    var a := if f.level.Some? then [LevelIs(f.level.value)] else [];
    var b := if f.traceId.Some? && f.traceId.value != "" then [TraceIs(f.traceId.value)] else [];
    var c := if f.startTime.Some? then [From(f.startTime.value)] else [];
    var d := if f.endTime.Some? then [Until(f.endTime.value)] else [];
    assert Criteria(f) == a + b + c + d;
    forall x ensures x in Criteria(f) <==> x in a || x in b || x in c || x in d {
      assert x in a + b + c + d <==> x in a + b + c || x in d;
      assert x in a + b + c <==> x in a + b || x in c;
      assert x in a + b <==> x in a || x in b;
    }
  }

  /** How many of the four criteria the filter supplies (an empty trace id
      does not count). */
  function Supplied(f: LogFilter): nat
  {
    (if f.level.Some? then 1 else 0) + (if f.traceId.Some? && f.traceId.value != "" then 1 else 0)
    + (if f.startTime.Some? then 1 else 0) + (if f.endTime.Some? then 1 else 0)
  }

  /** `s.filter(log => Holds(log, c))`, in order. */
  function Where(s: seq<StructuredLog>, c: Criterion): (r: seq<StructuredLog>)
    ensures |r| <= |s|
    ensures forall l :: l in r <==> l in s && Holds(l, c)
  {
    if s == [] then []
    else
      assert s == [s[0]] + s[1..];
      (if Holds(s[0], c) then [s[0]] else []) + Where(s[1..], c)
  }

  /** The chain of filters, one criterion after another. */
  function WhereAll(s: seq<StructuredLog>, cs: seq<Criterion>): seq<StructuredLog>
    decreases |cs|
  {
    if cs == [] then s else WhereAll(Where(s, cs[0]), cs[1..])
  }

  /** An entry meets every supplied criterion of `f`. */
  predicate Matches(l: StructuredLog, f: LogFilter)
  {
    && (f.level.Some? ==> l.level == f.level.value)
    && (f.traceId.Some? && f.traceId.value != "" ==> l.traceId == Text(f.traceId.value))
    && (f.startTime.Some? ==> Compares(l.timestamp, f.startTime.value, false))
    && (f.endTime.Some? ==> Compares(l.timestamp, f.endTime.value, true))
  }

  /** The entries that match `f`, in a single pass, in stored order. */
  function Select(s: seq<StructuredLog>, f: LogFilter): (r: seq<StructuredLog>)
    ensures |r| <= |s|
    ensures forall l :: l in r <==> l in s && Matches(l, f)
  {
    if s == [] then []
    else
      assert s == [s[0]] + s[1..];
      (if Matches(s[0], f) then [s[0]] else []) + Select(s[1..], f)
  }

  /** Every entry meets all criteria of `cs`. */
  predicate AllHold(l: StructuredLog, cs: seq<Criterion>)
  {
    forall i :: 0 <= i < |cs| ==> Holds(l, cs[i])
  }

  /** The entries of `s` that meet all of `cs`, in a single pass. */
  function Filter(s: seq<StructuredLog>, cs: seq<Criterion>): seq<StructuredLog>
  {
    if s == [] then [] else (if AllHold(s[0], cs) then [s[0]] else []) + Filter(s[1..], cs)
  }

  /** Filtering by one criterion and then by the rest is one pass by all. */
  lemma {:induction false} FilterWhere(s: seq<StructuredLog>, c: Criterion, cs: seq<Criterion>)
    ensures Filter(Where(s, c), cs) == Filter(s, [c] + cs)
  {
    if s != [] {
      FilterWhere(s[1..], c, cs);
      var w := Where(s[1..], c);
      assert AllHold(s[0], [c] + cs) <==> Holds(s[0], c) && AllHold(s[0], cs) by {
        if Holds(s[0], c) && AllHold(s[0], cs) {
          forall i | 0 <= i < |[c] + cs| ensures Holds(s[0], ([c] + cs)[i]) {
            if i > 0 { assert ([c] + cs)[i] == cs[i - 1]; }
          }
        }
        if AllHold(s[0], [c] + cs) {
          assert ([c] + cs)[0] == c;
          forall i | 0 <= i < |cs| ensures Holds(s[0], cs[i]) {
            assert ([c] + cs)[i + 1] == cs[i];
          }
        }
      }
      if Holds(s[0], c) {
        assert Where(s, c) == [s[0]] + w;
        assert ([s[0]] + w)[1..] == w;
      } else {
        assert Where(s, c) == w;
      }
    }
  }

  /** The chain of filters is the single pass by all its criteria. */
  lemma {:induction false} WhereAllIsFilter(s: seq<StructuredLog>, cs: seq<Criterion>)
    ensures WhereAll(s, cs) == Filter(s, cs)
    decreases |cs|
  {
    if cs == [] {
      FilterNothing(s);
    } else {
      WhereAllIsFilter(Where(s, cs[0]), cs[1..]);
      FilterWhere(s, cs[0], cs[1..]);
      assert [cs[0]] + cs[1..] == cs;
    }
  }

  lemma {:induction false} FilterNothing(s: seq<StructuredLog>)
    ensures Filter(s, []) == s
  {
    if s != [] {
      FilterNothing(s[1..]);
      assert AllHold(s[0], []);
      assert s == [s[0]] + s[1..];
    }
  }

  /** Meeting every step of the chain is meeting the filter. */
  lemma CriteriaMatch(l: StructuredLog, f: LogFilter)
    ensures AllHold(l, Criteria(f)) <==> Matches(l, f)
  {
    var a := if f.level.Some? then [LevelIs(f.level.value)] else [];
    var b := if f.traceId.Some? && f.traceId.value != "" then [TraceIs(f.traceId.value)] else [];
    var c := if f.startTime.Some? then [From(f.startTime.value)] else [];
    var d := if f.endTime.Some? then [Until(f.endTime.value)] else [];
    AllHoldConcat(l, a + b + c, d);
    AllHoldConcat(l, a + b, c);
    AllHoldConcat(l, a, b);
    assert Criteria(f) == a + b + c + d;
    assert a != [] ==> a[0] == LevelIs(f.level.value);
    assert b != [] ==> b[0] == TraceIs(f.traceId.value);
    assert c != [] ==> c[0] == From(f.startTime.value);
    assert d != [] ==> d[0] == Until(f.endTime.value);
  }

  lemma AllHoldConcat(l: StructuredLog, a: seq<Criterion>, b: seq<Criterion>)
    ensures AllHold(l, a + b) <==> AllHold(l, a) && AllHold(l, b)
  {
    if AllHold(l, a + b) {
      forall i | 0 <= i < |a| ensures Holds(l, a[i]) { assert (a + b)[i] == a[i]; }
      forall i | 0 <= i < |b| ensures Holds(l, b[i]) { assert (a + b)[|a| + i] == b[i]; }
    }
  }

  lemma {:induction false} FilterIsSelect(s: seq<StructuredLog>, f: LogFilter)
    ensures Filter(s, Criteria(f)) == Select(s, f)
  {
    if s != [] {
      FilterIsSelect(s[1..], f);
      CriteriaMatch(s[0], f);
    }
  }

  /** Selection keeps order: the selection of two runs of entries is the
      selection of the first followed by that of the second. */
  lemma {:induction false} SelectConcat(a: seq<StructuredLog>, b: seq<StructuredLog>, f: LogFilter)
    ensures Select(a + b, f) == Select(a, f) + Select(b, f)
  {
    if a == [] {
      assert a + b == b;
    } else {
      assert (a + b)[0] == a[0] && (a + b)[1..] == a[1..] + b;
      SelectConcat(a[1..], b, f);
    }
  }

  /** An entry logged at `now` passes a time bound exactly when `now` is on
      the right side of it; an Invalid Date bound lets nothing through. */
  lemma LoggedTimeBounds(l: StructuredLog, now: int, bound: int)
    requires InRange(now) && Parse(l.timestamp) == At(now)
    ensures Holds(l, From(At(bound))) <==> now >= bound
    ensures Holds(l, Until(At(bound))) <==> now <= bound
    ensures !Holds(l, From(InvalidDate)) && !Holds(l, Until(InvalidDate))
  {
  }

  // ------------------------------------------------------------------- state

  class LogManager {
    var logs: seq<StructuredLog>

    constructor()
      ensures logs == []
    {
      logs := [];
    }

    /** `log(level, message, metadata)` at time `now`. The entry is pushed at
        the end and the log cut back to its last 1000 entries. A time
        `toISOString` cannot write throws before anything is stored. */
    method Log(level: Level, message: string, metadata: map<string, Meta>, now: int,
               freshTrace: string, freshSpan: string) returns (ok: bool)
      modifies this
      ensures ok <==> InRange(now)
      ensures !ok ==> logs == old(logs)
      ensures ok ==> logs == KeepLast(old(logs) + [Entry(level, message, metadata, now, freshTrace, freshSpan)], MaxLogs)
      ensures ok ==> logs == Pushed(old(logs), [Entry(level, message, metadata, now, freshTrace, freshSpan)], MaxLogs)
      ensures ok ==> |logs| == if |old(logs)| < MaxLogs then |old(logs)| + 1 else MaxLogs
      ensures ok ==> logs[|logs| - 1] == Entry(level, message, metadata, now, freshTrace, freshSpan)
    {
      if !InRange(now) {
        return false;
      }
      var e := Entry(level, message, metadata, now, freshTrace, freshSpan);
      ghost var pushed := logs + [e];
      logs := logs + [e];
      if |logs| > MaxLogs {
        logs := logs[|logs| - MaxLogs..];
      }
      assert logs == KeepLast(pushed, MaxLogs);
      assert [e][1..] == [];
      return true;
    }

    /** `getLogs(filter)`: with no filter, the whole log; otherwise the
        entries, in stored order, that meet every supplied criterion. */
    function GetLogs(filter: Option<LogFilter>): (r: seq<StructuredLog>)
      reads this
      ensures filter.None? ==> r == logs
      ensures filter.Some? ==> r == Select(logs, filter.value)
      ensures filter.Some? ==> forall l :: l in r <==> l in logs && Matches(l, filter.value)
    {
      if filter.None? then logs
      else
        WhereAllIsFilter(logs, Criteria(filter.value));
        FilterIsSelect(logs, filter.value);
        WhereAll(logs, Criteria(filter.value))
    }

    /** `clear()` */
    method Clear()
      modifies this
      ensures logs == []
    {
      logs := [];
    }
  }

  /** A filter that supplies nothing, or only an empty trace id, returns the
      whole log in order. */
  lemma EmptyFilterKeepsAll(m: LogManager, traceId: Option<string>)
    requires traceId.None? || traceId == Some("")
    ensures m.GetLogs(Some(LogFilter(None, traceId, None, None))) == m.logs
  {
    var f := LogFilter(None, traceId, None, None);
    assert Criteria(f) == [];
  }
}
