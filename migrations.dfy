/** Schema versions: finding the migration of a version, validating the
    current version, and the upgrade loop that walks the ordered migration
    list and applies every migration above the running version and not
    above the target. */
module Migrations {
  import opened Common
  import opened Records

  /** `migrations.find(m => m.version === v)`: the first migration of version `v`. */
  function Find(ms: seq<Migration>, v: int): (r: Option<Migration>)
    ensures r.None? <==> forall m :: m in ms ==> m.version != v
    ensures r.Some? ==> exists i :: && 0 <= i < |ms| && ms[i] == r.value && r.value.version == v
                                    && forall j :: 0 <= j < i ==> ms[j].version != v
  {
    if ms == [] then None
    else if ms[0].version == v then Some(ms[0])
    else
      var r := Find(ms[1..], v);
      assert ms == [ms[0]] + ms[1..];
      if r.Some? then
        var i :| && 0 <= i < |ms[1..]| && ms[1..][i] == r.value
                 && forall j :: 0 <= j < i ==> ms[1..][j].version != v;
        assert ms[i + 1] == r.value;
        assert forall j :: 0 <= j < i + 1 ==> ms[j].version != v by {
          forall j | 0 <= j < i + 1 ensures ms[j].version != v {
            if j > 0 { assert ms[j] == ms[1..][j - 1]; }
          }
        }
        r
      else r
  }

  /** `validateSchema`: false when no migration has version `v`, otherwise
      what that migration's `validate()` reports. */
  function SchemaValid(ms: seq<Migration>, v: int): (r: bool)
    ensures (forall m :: m in ms ==> m.version != v) ==> !r
    ensures r <==> exists i :: && 0 <= i < |ms| && ms[i].version == v && ms[i].valid
                              && forall j :: 0 <= j < i ==> ms[j].version != v
  {
    var f := Find(ms, v);
    FirstOfVersion(ms, v);
    f.Some? && f.value.valid
  }

  /** The first migration of a version is the one `Find` returns. */
  lemma FirstOfVersion(ms: seq<Migration>, v: int)
    ensures forall i :: && 0 <= i < |ms| && ms[i].version == v
                        && (forall j :: 0 <= j < i ==> ms[j].version != v)
                        ==> Find(ms, v) == Some(ms[i])
  {
    forall i | && 0 <= i < |ms| && ms[i].version == v
               && (forall j :: 0 <= j < i ==> ms[j].version != v)
      ensures Find(ms, v) == Some(ms[i])
    {
      assert ms[i] in ms;
      var f := Find(ms, v);
      var k :| && 0 <= k < |ms| && ms[k] == f.value && f.value.version == v
               && forall j :: 0 <= j < k ==> ms[j].version != v;
      assert k == i;
    }
  }

  /** The running version and the migrations applied so far. */
  datatype UpgradeRun = UpgradeRun(applied: seq<Migration>, version: int)

  ghost predicate Ascending(ms: seq<Migration>)
  {
    forall i, j :: 0 <= i < j < |ms| ==> ms[i].version < ms[j].version
  }

  /** The `for (const migration of migrations)` loop of `upgradeSchema` after
      the migrations of `ms`, starting at version `current`: a migration runs
      when its version is above the running version and not above `target`,
      and the running version becomes its version. */
  function Upgrade(ms: seq<Migration>, current: int, target: int): (r: UpgradeRun)
    ensures r.version >= current
    ensures r.version == if r.applied == [] then current else r.applied[|r.applied| - 1].version
    ensures forall m :: m in r.applied ==> m in ms && current < m.version <= target
    ensures Ascending(r.applied)
    ensures forall m :: m in ms ==> m.version <= r.version || m.version > target
    decreases |ms|
  {
    if ms == [] then UpgradeRun([], current)
    else
      var before := Upgrade(ms[..|ms| - 1], current, target);
      var m := ms[|ms| - 1];
      var r := if before.version < m.version <= target then UpgradeRun(before.applied + [m], m.version) else before;
      FitsStep(ms, before, r, current, target);
      r
  }

  /** What `Upgrade` promises about a run over `ms`. */
  ghost predicate Fits(r: UpgradeRun, ms: seq<Migration>, current: int, target: int)
  {
    && r.version >= current
    && r.version == (if r.applied == [] then current else r.applied[|r.applied| - 1].version)
    && (forall m :: m in r.applied ==> m in ms && current < m.version <= target)
    && Ascending(r.applied)
    && (forall m :: m in ms ==> m.version <= r.version || m.version > target)
  }

  /** One more turn of the loop keeps the promise. */
  lemma FitsStep(ms: seq<Migration>, before: UpgradeRun, r: UpgradeRun, current: int, target: int)
    requires ms != [] && Fits(before, ms[..|ms| - 1], current, target)
    requires var m := ms[|ms| - 1];
             r == if before.version < m.version <= target then UpgradeRun(before.applied + [m], m.version) else before
    ensures Fits(r, ms, current, target)
  {
    var m := ms[|ms| - 1];
    var init := ms[..|ms| - 1];
    assert ms == init + [m];
    assert forall x :: x in ms ==> x in init || x == m;
    assert forall x :: x in init ==> x in ms;
    if before.version < m.version <= target {
      var a := before.applied + [m];
      assert forall x :: x in a ==> x in before.applied || x == m;
      assert forall i :: 0 <= i < |before.applied| ==> a[i] == before.applied[i];
      assert forall i :: 0 <= i < |before.applied| ==> a[i].version <= before.version;
      assert Ascending(a) by {
        forall i, j | 0 <= i < j < |a| ensures a[i].version < a[j].version {
          if j == |a| - 1 {
            assert a[i].version <= before.version;
          }
        }
      }
    }
  }

  /** The migrations of `ms` with a version in (current, target], in list order. */
  function InRange(ms: seq<Migration>, current: int, target: int): (r: seq<Migration>)
    ensures forall m :: m in r <==> m in ms && current < m.version <= target
    decreases |ms|
  {
    if ms == [] then []
    else
      var m := ms[|ms| - 1];
      assert ms == ms[..|ms| - 1] + [m];
      InRange(ms[..|ms| - 1], current, target) + (if current < m.version <= target then [m] else [])
  }

  /** On a list ordered by version the loop applies exactly the migrations
      in (current, target], in list order. */
  lemma {:induction false} UpgradeAscending(ms: seq<Migration>, current: int, target: int)
    requires Ascending(ms)
    ensures Upgrade(ms, current, target).applied == InRange(ms, current, target)
    decreases |ms|
  {
    if ms != [] {
      var init := ms[..|ms| - 1];
      var m := ms[|ms| - 1];
      assert Ascending(init);
      UpgradeAscending(init, current, target);
      var before := Upgrade(init, current, target);
      if current < m.version <= target && before.applied != [] {
        var last := before.applied[|before.applied| - 1];
        assert last in init;
        var k :| 0 <= k < |init| && init[k] == last;
        assert ms[k] == last;
      }
    }
  }

  /** When the list holds a migration of the target version and the target is
      not below the current one, the loop ends exactly at the target. */
  lemma UpgradeReachesTarget(ms: seq<Migration>, current: int, target: int)
    requires current < target
    requires exists m :: m in ms && m.version == target
    ensures Upgrade(ms, current, target).version == target
  {
    var r := Upgrade(ms, current, target);
    var m :| m in ms && m.version == target;
    assert m.version <= r.version;
    if r.applied != [] {
      assert r.applied[|r.applied| - 1] in r.applied;
    }
  }

  /** Upgrading again from the version an upgrade reached runs nothing. */
  lemma {:induction false} UpgradeAgain(ms: seq<Migration>, current: int, target: int)
    ensures Upgrade(ms, Upgrade(ms, current, target).version, target).applied == []
  {
    var v := Upgrade(ms, current, target).version;
    NothingAbove(ms, v, target);
  }

  lemma {:induction false} NothingAbove(ms: seq<Migration>, v: int, target: int)
    requires forall m :: m in ms ==> m.version <= v || m.version > target
    ensures Upgrade(ms, v, target).applied == []
    decreases |ms|
  {
    if ms != [] {
      var init := ms[..|ms| - 1];
      assert forall m :: m in init ==> m in ms;
      NothingAbove(init, v, target);
      assert ms[|ms| - 1] in ms;
    }
  }
}
