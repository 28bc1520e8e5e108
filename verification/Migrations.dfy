/** Schema migrations (pkg/database/migrations.go:29-48, 145-232): those above the highest
    recorded version are applied in ascending order, each in one transaction. */
module Migrations {
  /** What a script does to the schema is left open: a schema is the list of scripts executed. */
  datatype Migration = Migration(version: int, script: string, foreignKeysOff: bool)

  datatype Db = Db(applied: seq<int>, schema: seq<string>)

  const NEW_DATABASE := Db([], [])

  /** COALESCE(MAX(version), 0) */
  function CurrentVersion(applied: seq<int>): (v: int)
    ensures forall a :: a in applied ==> a <= v
    ensures applied == [] ==> v == 0
    ensures applied != [] ==> v in applied
  {
    if applied == [] then 0
    else
      var n := |applied| - 1;
      var rest := CurrentVersion(applied[..n]);
      assert applied == applied[..n] + [applied[n]];
      if n == 0 || applied[n] > rest then applied[n] else rest
  }

  /** The migrations above version `v`, in order. */
  function Pending(ms: seq<Migration>, v: int): (r: seq<Migration>)
    ensures forall m :: m in r <==> m in ms && m.version > v
  {
    if ms == [] then []
    else
      var n := |ms| - 1;
      assert ms == ms[..n] + [ms[n]];
      Pending(ms[..n], v) + if ms[n].version > v then [ms[n]] else []
  }

  function ApplyAll(db: Db, ms: seq<Migration>): Db {
    if ms == [] then db
    else
      var before, m := ApplyAll(db, ms[..|ms| - 1]), ms[|ms| - 1];
      Db(before.applied + [m.version], before.schema + [m.script])
  }

  /** `runMigrations`, interrupted before it has applied more than `steps` migrations. */
  function Run(db: Db, ms: seq<Migration>, steps: nat): Db {
    var pending := Pending(ms, CurrentVersion(db.applied));
    ApplyAll(db, if steps < |pending| then pending[..steps] else pending)
  }

  /** One start of the server after another, each interrupted somewhere. */
  function Runs(db: Db, ms: seq<Migration>, stops: seq<nat>): Db
    decreases |stops|
  {
    if stops == [] then db else Runs(Run(db, ms, stops[0]), ms, stops[1..])
  }

  /** Distinct versions, sorted. */
  ghost predicate Ascending(ms: seq<Migration>) {
    forall i, j :: 0 <= i < j < |ms| ==> ms[i].version < ms[j].version
  }

  function Versions(ms: seq<Migration>): seq<int> {
    seq(|ms|, i requires 0 <= i < |ms| => ms[i].version)
  }

  function Scripts(ms: seq<Migration>): seq<string> {
    seq(|ms|, i requires 0 <= i < |ms| => ms[i].script)
  }

  lemma NonePending(v: int)
    ensures Pending([], v) == []
  {
  }

  lemma OnePending(ms: seq<Migration>, v: int)
    requires ms != []
    ensures var n := |ms| - 1;
      Pending(ms, v) == Pending(ms[..n], v) + if ms[n].version > v then [ms[n]] else []
  {
  }

  lemma NothingApplied(db: Db, all: seq<Migration>)
    ensures ApplyAll(db, all[..0]) == db
  {
  }

  lemma {:induction false} ApplyAllLists(db: Db, ms: seq<Migration>)
    ensures ApplyAll(db, ms) == Db(db.applied + Versions(ms), db.schema + Scripts(ms))
  {
    if ms == [] {
      assert db.applied + [] == db.applied && db.schema + [] == db.schema;
    } else {
      var n := |ms| - 1;
      ApplyAllLists(db, ms[..n]);
      assert Versions(ms) == Versions(ms[..n]) + [ms[n].version];
      assert Scripts(ms) == Scripts(ms[..n]) + [ms[n].script];
    }
  }

  lemma ApplyAllAppend(db: Db, a: seq<Migration>, b: seq<Migration>)
    ensures ApplyAll(ApplyAll(db, a), b) == ApplyAll(db, a + b)
  {
    hide ApplyAll;
    ApplyAllLists(db, a);
    ApplyAllLists(ApplyAll(db, a), b);
    ApplyAllLists(db, a + b);
    assert Versions(a + b) == Versions(a) + Versions(b);
    assert Scripts(a + b) == Scripts(a) + Scripts(b);
  }

  lemma {:induction false} PendingKeepsOrder(ms: seq<Migration>, v: int)
    requires Ascending(ms)
    ensures Ascending(Pending(ms, v))
  {
    if ms != [] {
      var n := |ms| - 1;
      PendingKeepsOrder(ms[..n], v);
      forall m | m in Pending(ms[..n], v) ensures m.version < ms[n].version {
      }
    }
  }

  /** A pending migration is not recorded yet when its turn comes. */
  lemma NotYetApplied(db: Db, ms: seq<Migration>, pending: seq<Migration>, i: nat)
    requires Ascending(ms) && pending == Pending(ms, CurrentVersion(db.applied)) && i < |pending|
    ensures pending[i].version !in ApplyAll(db, pending[..i]).applied
  {
    hide ApplyAll, Pending, CurrentVersion;
    PendingKeepsOrder(ms, CurrentVersion(db.applied));
    ApplyAllLists(db, pending[..i]);
    assert pending[i] in pending;
  }

  /** In an ascending list the migrations above a version are a suffix. */
  lemma {:induction false} PendingIsSuffix(ms: seq<Migration>, v: int, k: nat)
    requires k <= |ms|
    requires forall i: nat :: i < |ms| ==> (ms[i].version <= v <==> i < k)
    ensures Pending(ms, v) == ms[k..]
    decreases |ms|
  {
    hide Pending;
    if ms == [] {
      NonePending(v);
    } else {
      var n := |ms| - 1;
      OnePending(ms, v);
      PendingIsSuffix(ms[..n], v, if k == |ms| then n else k);
      if k <= n {
        assert ms[k..] == ms[..n][k..] + [ms[n]];
      } else {
        assert ms[..n][n..] == [] && ms[k..] == [];
      }
    }
  }

  /** The highest version among the first `k` separates them from the others. */
  lemma VersionOfPrefix(all: seq<Migration>, k: nat)
    requires Ascending(all) && k <= |all| && forall m :: m in all ==> m.version > 0
    ensures forall i: nat :: i < |all| ==> (all[i].version <= CurrentVersion(Versions(all[..k])) <==> i < k)
    ensures CurrentVersion(Versions(all[..k])) >= 0
  {
    hide CurrentVersion;
    var vs := Versions(all[..k]);
    var v := CurrentVersion(vs);
    if k == 0 {
      forall i: nat | i < |all| ensures all[i].version > 0 {
        assert all[i] in all;
      }
    } else {
      var j: nat :| j < k && vs[j] == v;
      assert vs[k - 1] == all[k - 1].version && vs[j] == all[j].version;
      assert vs[k - 1] in vs && vs[k - 1] <= v;
      assert j <= k - 1 && all[j].version <= all[k - 1].version;
      assert v == all[k - 1].version;
      assert all[k - 1] in all;
    }
  }

  lemma {:induction false} PendingTwice(ms: seq<Migration>, low: int, high: int)
    requires low <= high
    ensures Pending(Pending(ms, low), high) == Pending(ms, high)
    decreases |ms|
  {
    hide Pending;
    if ms == [] {
      NonePending(low);
      NonePending(high);
    } else {
      var n := |ms| - 1;
      OnePending(ms, low);
      OnePending(ms, high);
      PendingTwice(ms[..n], low, high);
      var p := Pending(ms[..n], low);
      if ms[n].version > low {
        OnePending(p + [ms[n]], high);
        assert (p + [ms[n]])[..|p|] == p;
      } else {
        assert p + [] == p && Pending(ms[..n], high) + [] == Pending(ms[..n], high);
      }
    }
  }

  /** After the first `k` of the migrations that count, the rest of them is pending. */
  lemma RestIsPending(ms: seq<Migration>, k: nat)
    requires Ascending(ms) && k <= |Pending(ms, 0)|
    ensures var all := Pending(ms, 0);
      Pending(ms, CurrentVersion(ApplyAll(NEW_DATABASE, all[..k]).applied)) == all[k..]
  {
    var all := Pending(ms, 0);
    assert forall m :: m in all ==> m.version > 0;
    hide *;
    PendingKeepsOrder(ms, 0);
    ApplyAllLists(NEW_DATABASE, all[..k]);
    assert [] + Versions(all[..k]) == Versions(all[..k]);
    VersionOfPrefix(all, k);
    var v := CurrentVersion(Versions(all[..k]));
    PendingTwice(ms, 0, v);
    PendingIsSuffix(all, v, k);
  }

  /** However often and wherever the runs are interrupted, the database is always as after the
      first migrations, each applied once and in ascending order ... */
  lemma {:induction false} InterruptedRuns(ms: seq<Migration>, k: nat, stops: seq<nat>) returns (reached: nat)
    requires Ascending(ms) && k <= |Pending(ms, 0)|
    ensures k <= reached <= |Pending(ms, 0)|
    ensures Runs(ApplyAll(NEW_DATABASE, Pending(ms, 0)[..k]), ms, stops) ==
            ApplyAll(NEW_DATABASE, Pending(ms, 0)[..reached])
    decreases |stops|
  {
    hide ApplyAll, Pending;
    if stops == [] {
      reached := k;
    } else {
      var all := Pending(ms, 0);
      RestIsPending(ms, k);
      var more := if stops[0] < |all| - k then stops[0] else |all| - k;
      ApplyAllAppend(NEW_DATABASE, all[..k], all[k..][..more]);
      assert all[..k] + all[k..][..more] == all[..k + more];
      assert all[k..][..|all| - k] == all[k..];
      reached := InterruptedRuns(ms, k + more, stops[1..]);
    }
  }

  /** ... and one run that is left alone then ends where an uninterrupted first run ends. */
  lemma ResumedRunsAgree(ms: seq<Migration>, stops: seq<nat>)
    requires Ascending(ms)
    ensures Run(Runs(NEW_DATABASE, ms, stops), ms, |ms|) == Run(NEW_DATABASE, ms, |ms|)
    ensures Run(NEW_DATABASE, ms, |ms|) == Db(Versions(Pending(ms, 0)), Scripts(Pending(ms, 0)))
  {
    hide ApplyAll, Pending;
    var all := Pending(ms, 0);
    NothingApplied(NEW_DATABASE, all);
    var k := InterruptedRuns(ms, 0, stops);
    PendingSize(ms, 0);
    RestIsPending(ms, k);
    RestIsPending(ms, 0);
    ApplyAllAppend(NEW_DATABASE, all[..k], all[k..]);
    assert all[..k] + all[k..] == all && all[0..] == all;
    ApplyAllLists(NEW_DATABASE, all);
    assert [] + Versions(all) == Versions(all) && [] + Scripts(all) == Scripts(all);
    assert |all[k..]| <= |ms|;
  }

  lemma {:induction false} PendingSize(ms: seq<Migration>, v: int)
    ensures |Pending(ms, v)| <= |ms|
  {
    if ms != [] {
      PendingSize(ms[..|ms| - 1], v);
    }
  }

  /** Only the highest recorded version counts: a run brings any database up to date exactly
      when no migration at or below that version was skipped. One added later with a lower
      number is never applied. */
  lemma UpToDateIff(db: Db, ms: seq<Migration>)
    ensures (forall m :: m in ms ==> m.version in Run(db, ms, |ms|).applied) <==>
            (forall m :: m in ms && m.version <= CurrentVersion(db.applied) ==> m.version in db.applied)
  {
    hide ApplyAll;
    var v := CurrentVersion(db.applied);
    var pending := Pending(ms, v);
    PendingSize(ms, v);
    assert pending[..|pending|] == pending;
    ApplyAllLists(db, pending);
    forall m | m in ms && m.version > v ensures m.version in Versions(pending) {
      assert m in pending;
      var i: nat :| i < |pending| && pending[i] == m;
      assert Versions(pending)[i] == m.version;
    }
    forall x | x in Versions(pending) ensures x > v {
      var i: nat :| i < |pending| && Versions(pending)[i] == x;
      assert pending[i] in pending;
    }
  }

  /** For instance: a database made with migrations 1 and 3 never gets migration 2, however often
      the server with all three is started. */
  lemma {:induction false} SkippedMigrationStays(one: Migration, two: Migration, three: Migration, stops: seq<nat>)
    requires one.version == 1 && two.version == 2 && three.version == 3
    ensures Run(NEW_DATABASE, [one, three], 2) == Db([1, 3], [one.script, three.script])
    ensures Runs(Db([1, 3], [one.script, three.script]), [one, two, three], stops) ==
            Db([1, 3], [one.script, three.script])
    decreases |stops|
  {
    FirstAndThird(one, three);
    if stops != [] {
      NothingAboveThree(one, two, three, stops[0]);
      SkippedMigrationStays(one, two, three, stops[1..]);
    }
  }

  lemma FirstAndThird(one: Migration, three: Migration)
    requires one.version == 1 && three.version == 3
    ensures Run(NEW_DATABASE, [one, three], 2) == Db([1, 3], [one.script, three.script])
  {
    hide ApplyAll;
    OnePending([one, three], 0);
    assert [one, three][..1] == [one];
    OnePending([one], 0);
    assert [one][..0] == [];
    NonePending(0);
    assert [] + [one] + [three] == [one, three];
    ApplyAllLists(NEW_DATABASE, [one, three]);
    assert [] + Versions([one, three]) == [1, 3] && [] + Scripts([one, three]) == [one.script, three.script];
  }

  lemma NothingAboveThree(one: Migration, two: Migration, three: Migration, steps: nat)
    requires one.version == 1 && two.version == 2 && three.version == 3
    ensures var db := Db([1, 3], [one.script, three.script]);
      Run(db, [one, two, three], steps) == db
  {
    hide Pending;
    var db := Db([1, 3], [one.script, three.script]);
    assert 3 in db.applied;
    assert CurrentVersion(db.applied) == 3;
    NoneIn(Pending([one, two, three], 3));
  }

  lemma NoneIn<T>(s: seq<T>)
    ensures s == [] || s[0] in s
  {
  }

  // ---------------------------------------------------------------- the runner

  class Runner {
    var db: Db
    var foreignKeys: bool

    constructor ()
      ensures db == NEW_DATABASE && foreignKeys
    {
      db, foreignKeys := NEW_DATABASE, true;
    }

    /** One transaction: script and record together or neither. It fails when the script does,
        when the version is recorded already, or when the process stops before the commit (`commits`
        is whether all goes well). */
    method ApplyMigration(m: Migration, commits: bool) returns (ok: bool)
      modifies this
      ensures ok <==> commits && m.version !in old(db).applied
      ensures ok ==> db == ApplyAll(old(db), [m]) == Db(old(db).applied + [m.version], old(db).schema + [m.script])
      ensures !ok ==> db == old(db)
      ensures foreignKeys == (old(foreignKeys) || m.foreignKeysOff)
    {
      if m.foreignKeysOff {
        foreignKeys := false;
      }
      ok := commits;
      if m.version in db.applied {
        ok := false;
      }
      if ok {
        db := Db(db.applied + [m.version], db.schema + [m.script]);
        assert [m][..0] == [];
      }
      if m.foreignKeysOff {
        foreignKeys := true;
      }
    }

    /** Stops at the first failure; `steps` migrations have been applied then. */
    method RunMigrations(migrations: seq<Migration>, commits: nat -> bool) returns (ok: bool, ghost steps: nat)
      requires Ascending(migrations)
      modifies this
      ensures db == Run(old(db), migrations, steps)
      ensures var pending := Pending(migrations, CurrentVersion(old(db).applied));
        && (ok <==> steps >= |pending|)
        && (forall k: nat :: k < steps ==> commits(k))
        && (steps < |pending| ==> !commits(steps))
    {
      hide ApplyAll, Pending;
      var currentVersion := CurrentVersion(db.applied);
      var pending: seq<Migration> := [];
      NonePending(currentVersion);
      for i := 0 to |migrations|
        invariant pending == Pending(migrations[..i], currentVersion)
        modifies {}
      {
        OnePending(migrations[..i + 1], currentVersion);
        assert migrations[..i + 1][..i] == migrations[..i];
        if migrations[i].version > currentVersion {
          pending := pending + [migrations[i]];
        }
      }
      assert migrations[..|migrations|] == migrations;
      steps := 0;
      NothingApplied(db, pending);
      for i := 0 to |pending|
        invariant steps == i && db == ApplyAll(old(db), pending[..i])
        invariant forall k: nat :: k < i ==> commits(k)
      {
        NotYetApplied(old(db), migrations, pending, i);
        ok := ApplyMigration(pending[i], commits(i));
        if !ok {
          return false, steps;
        }
        ApplyAllAppend(old(db), pending[..i], [pending[i]]);
        assert pending[..i + 1] == pending[..i] + [pending[i]];
        steps := steps + 1;
      }
      assert pending[..|pending|] == pending;
      return true, steps;
    }
  }
}
