/** Migrations that survive crashes (internal/storage/postgres/migrate.go:36-70): one migrator at a
    time, stopping at any step of any run. A transaction is all or nothing. */
module Migrate {

  /** The recorded versions, and the bodies whose effect is committed, in order of commit. */
  datatype Schema = Schema(recorded: set<string>, effects: seq<string>)

  /** How far one migration gets: an error or a crash before its commit, a commit whose answer never
      arrives (with or without the commit having happened), or all the way. */
  datatype Fate =
    | CheckFails | ReadFails | BeginFails | BodyFails | RecordFails | CommitLost | CommitUnanswered
    | Fine

  ghost predicate Distinct(s: seq<string>) {
    forall i, j :: 0 <= i < j < |s| ==> s[i] != s[j]
  }

  /** A version is recorded exactly when its body's effect is committed, and no body twice. */
  ghost predicate Consistent(db: Schema) {
    (forall v :: v in db.recorded <==> v in db.effects) && Distinct(db.effects)
  }

  function Commit(db: Schema, name: string): Schema {
    Schema(db.recorded + {name}, db.effects + [name])
  }

  /** The names from `k` on, each with its fate; whether the run got to the end. */
  function RunFrom(db: Schema, names: seq<string>, fates: seq<Fate>, k: nat): (Schema, bool)
    requires |fates| >= |names|
    decreases |names| - k
  {
    if k >= |names| then (db, true)
    else if fates[k] == CheckFails then (db, false)
    else if names[k] in db.recorded then RunFrom(db, names, fates, k + 1)
    else if fates[k] == CommitUnanswered then (Commit(db, names[k]), false)
    else if fates[k] != Fine then (db, false)
    else RunFrom(Commit(db, names[k]), names, fates, k + 1)
  }

  /** A sequence of runs of the same program, one after another. */
  function RunAll(db: Schema, names: seq<string>, runs: seq<seq<Fate>>): Schema
    requires forall i :: 0 <= i < |runs| ==> |runs[i]| >= |names|
    decreases |runs|
  {
    if runs == [] then db else RunAll(RunFrom(db, names, runs[0], 0).0, names, runs[1..])
  }

  class Database {
    var recorded: set<string>
    var effects: seq<string>

    constructor (db: Schema)
      ensures View() == db
    {
      recorded, effects := db.recorded, db.effects;
    }

    function View(): Schema
      reads this
    {
      Schema(recorded, effects)
    }

    /** Creating the version table may fail; then every name in turn is checked and, if needed,
        its body and its record are committed in one transaction. */
    method Migrate(names: seq<string>, tableFails: bool, fates: seq<Fate>) returns (ok: bool)
      requires |fates| >= |names|
      modifies this
      ensures (View(), ok) == if tableFails then (old(View()), false) else RunFrom(old(View()), names, fates, 0)
    {
      if tableFails {
        return false;
      }
      var k := 0;
      while k < |names|
        invariant 0 <= k <= |names|
        invariant RunFrom(View(), names, fates, k) == RunFrom(old(View()), names, fates, 0)
      {
        var name := names[k];
        if fates[k].CheckFails? {
          return false;
        }
        if name !in recorded {
          if fates[k].ReadFails? || fates[k].BeginFails? {
            return false;
          }
          var txEffects, txRecorded := effects + [name], recorded;
          if fates[k].BodyFails? {
            return false;
          }
          txRecorded := txRecorded + {name};
          if fates[k].RecordFails? || fates[k].CommitLost? {
            return false;
          }
          recorded, effects := txRecorded, txEffects;
          if fates[k].CommitUnanswered? {
            return false;
          }
        }
        k := k + 1;
      }
      return true;
    }
  }

  // ---------- what a run does ----------

  /** The run gets past this name: it can be checked, and it is recorded or can be committed. */
  predicate GetsPast(db: Schema, names: seq<string>, fates: seq<Fate>, i: nat)
    requires i < |names| && i < |fates|
  {
    fates[i] != CheckFails && (names[i] in db.recorded || fates[i] == Fine)
  }

  /** The names from `k` up to `m` that are not recorded, in order. */
  function Unrecorded(recorded: set<string>, names: seq<string>, k: nat, m: nat): seq<string>
    requires k <= m <= |names|
    decreases m - k
  {
    if k == m then []
    else (if names[k] in recorded then [] else [names[k]]) + Unrecorded(recorded, names, k + 1, m)
  }

  lemma {:induction false} OtherName(recorded: set<string>, names: seq<string>, i: nat, k: nat, m: nat)
    requires Distinct(names) && i < k <= m <= |names|
    ensures Unrecorded(recorded + {names[i]}, names, k, m) == Unrecorded(recorded, names, k, m)
    decreases m - k
  {
    if k < m {
      OtherName(recorded, names, i, k + 1, m);
    }
  }

  /** Exactly these names have been committed since, in this order. */
  predicate Grown(before: Schema, after: Schema, added: seq<string>) {
    after.effects == before.effects + added && after.recorded == before.recorded + set x | x in added
  }

  /** What a run that stops at `m` adds: the unrecorded names before that place, and the one at it
      exactly if its commit went through unanswered. */
  function Added(db: Schema, names: seq<string>, fates: seq<Fate>, k: nat, m: nat): seq<string>
    requires k <= m <= |names| <= |fates|
  {
    Unrecorded(db.recorded, names, k, m) + if m < |names| && fates[m] == CommitUnanswered then [names[m]] else []
  }

  lemma GrownAfterCommit(db: Schema, name: string, after: Schema, added: seq<string>)
    requires Grown(Commit(db, name), after, added)
    ensures Grown(db, after, [name] + added)
  {
    assert (set x | x in [name] + added) == {name} + set x | x in added;
  }

  lemma SameAhead(db: Schema, names: seq<string>, fates: seq<Fate>, k: nat)
    requires Distinct(names) && |fates| >= |names| && k < |names|
    ensures forall i: nat :: k < i < |names| ==>
      GetsPast(Commit(db, names[k]), names, fates, i) == GetsPast(db, names, fates, i)
  {
  }

  lemma StopsHere(db: Schema, names: seq<string>, fates: seq<Fate>, k: nat)
    requires |fates| >= |names| && k <= |names| && (k < |names| ==> !GetsPast(db, names, fates, k))
    ensures var (after, ok) := RunFrom(db, names, fates, k);
      (ok <==> k == |names|) && Grown(db, after, Added(db, names, fates, k, k))
  {
  }

  lemma GoesPast(db: Schema, names: seq<string>, fates: seq<Fate>, k: nat, m: nat)
    requires |fates| >= |names| && k < m <= |names| && GetsPast(db, names, fates, k)
    ensures names[k] in db.recorded ==>
      RunFrom(db, names, fates, k) == RunFrom(db, names, fates, k + 1)
      && Added(db, names, fates, k, m) == Added(db, names, fates, k + 1, m)
    ensures names[k] !in db.recorded ==>
      RunFrom(db, names, fates, k) == RunFrom(Commit(db, names[k]), names, fates, k + 1)
      && Added(db, names, fates, k, m) == [names[k]] + Added(db, names, fates, k + 1, m)
  {
    hide Commit;
  }

  lemma AddedAhead(db: Schema, names: seq<string>, fates: seq<Fate>, k: nat, m: nat)
    requires Distinct(names) && |fates| >= |names| && k < m <= |names|
    ensures Added(Commit(db, names[k]), names, fates, k + 1, m) == Added(db, names, fates, k + 1, m)
  {
    OtherName(db.recorded, names, k, k + 1, m);
  }

  /** The run stops at the first name it does not get past, returns nil exactly if there is none, and
      has committed body and record together of exactly the names added, in order. */
  lemma {:induction false} RunExactly(db: Schema, names: seq<string>, fates: seq<Fate>, k: nat) returns (m: nat)
    requires Distinct(names) && |fates| >= |names| && k <= |names|
    ensures k <= m <= |names| && (forall i: nat :: k <= i < m ==> GetsPast(db, names, fates, i))
    ensures m < |names| ==> !GetsPast(db, names, fates, m)
    ensures var (after, ok) := RunFrom(db, names, fates, k);
      (ok <==> m == |names|) && Grown(db, after, Added(db, names, fates, k, m))
    decreases |names| - k
  {
    hide Grown, Distinct, RunFrom, Added, Commit, GetsPast;
    m := k;
    if k == |names| || !GetsPast(db, names, fates, k) {
      StopsHere(db, names, fates, k);
    } else if names[k] in db.recorded {
      m := RunExactly(db, names, fates, k + 1);
      GoesPast(db, names, fates, k, m);
    } else {
      var next := Commit(db, names[k]);
      m := RunExactly(next, names, fates, k + 1);
      GoesPast(db, names, fates, k, m);
      SameAhead(db, names, fates, k);
      AddedAhead(db, names, fates, k, m);
      GrownAfterCommit(db, names[k], RunFrom(next, names, fates, k + 1).0, Added(next, names, fates, k + 1, m));
    }
  }

  /** Returning nil, and the committed names, without reference to where the run stops. */
  lemma SucceedsExactly(db: Schema, names: seq<string>, fates: seq<Fate>)
    requires Distinct(names) && |fates| >= |names|
    ensures RunFrom(db, names, fates, 0).1 <==>
      forall i: nat :: i < |names| ==> GetsPast(db, names, fates, i)
  {
    var m := RunExactly(db, names, fates, 0);
  }

  // ---------- crash safety ----------

  lemma CommitKeeps(db: Schema, name: string)
    requires Consistent(db) && name !in db.recorded
    ensures Consistent(Commit(db, name))
  {
  }

  lemma {:induction false} RunKeeps(db: Schema, names: seq<string>, fates: seq<Fate>, k: nat)
    requires |fates| >= |names| && Consistent(db)
    ensures var r := RunFrom(db, names, fates, k);
      && Consistent(r.0) && db.recorded <= r.0.recorded && db.effects <= r.0.effects
      && (r.1 ==> forall i :: k <= i < |names| ==> names[i] in r.0.recorded)
    decreases |names| - k
  {
    if k < |names| {
      if names[k] in db.recorded {
        RunKeeps(db, names, fates, k + 1);
      } else {
        CommitKeeps(db, names[k]);
        RunKeeps(Commit(db, names[k]), names, fates, k + 1);
      }
    }
  }

  /** Across any sequence of runs, each stopping anywhere: recorded means committed, every body
      commits at most once, and nothing committed is undone. */
  lemma {:induction false} CrashSafe(db: Schema, names: seq<string>, runs: seq<seq<Fate>>)
    requires Consistent(db) && forall i :: 0 <= i < |runs| ==> |runs[i]| >= |names|
    ensures var r := RunAll(db, names, runs); Consistent(r) && db.effects <= r.effects
    decreases |runs|
  {
    if runs != [] {
      RunKeeps(db, names, runs[0], 0);
      CrashSafe(RunFrom(db, names, runs[0], 0).0, names, runs[1..]);
    }
  }

  /** A run that returns nil has recorded every name, and from then on no run changes anything,
      wherever it stops. */
  lemma SuccessIsFinal(db: Schema, names: seq<string>, fates: seq<Fate>, next: seq<Fate>)
    requires Consistent(db) && |fates| >= |names| && |next| >= |names| && RunFrom(db, names, fates, 0).1
    ensures var r := RunFrom(db, names, fates, 0).0;
      (forall name :: name in names ==> name in r.recorded) && RunFrom(r, names, next, 0).0 == r
  {
    RunKeeps(db, names, fates, 0);
    NothingToDo(RunFrom(db, names, fates, 0).0, names, next, 0);
  }

  lemma {:induction false} NothingToDo(db: Schema, names: seq<string>, fates: seq<Fate>, k: nat)
    requires |fates| >= |names| && forall i :: k <= i < |names| ==> names[i] in db.recorded
    ensures RunFrom(db, names, fates, k).0 == db
    decreases |names| - k
  {
    if k < |names| {
      NothingToDo(db, names, fates, k + 1);
    }
  }

  // ---------- order ----------

  /** Exactly the first `n` names are recorded, and they were committed in order. */
  predicate IsPrefix(db: Schema, names: seq<string>, n: nat) {
    n <= |names| && db.effects == names[..n] && db.recorded == set x | x in names[..n]
  }

  lemma {:induction false} RunKeepsPrefix(db: Schema, names: seq<string>, fates: seq<Fate>, k: nat, n: nat)
      returns (m: nat)
    requires Distinct(names) && |fates| >= |names| && IsPrefix(db, names, n) && k <= |names| && n <= |names|
    requires k <= n
    ensures n <= m && IsPrefix(RunFrom(db, names, fates, k).0, names, m)
    ensures RunFrom(db, names, fates, k).1 ==> m == |names|
    decreases |names| - k
  {
    m := n;
    if k < |names| && !fates[k].CheckFails? {
      if k < n {
        assert names[..n][k] == names[k];
        m := RunKeepsPrefix(db, names, fates, k + 1, n);
      } else {
        NextName(db, names, n);
        if fates[k] == Fine {
          m := RunKeepsPrefix(Commit(db, names[k]), names, fates, k + 1, n + 1);
        } else if fates[k] == CommitUnanswered {
          m := n + 1;
        }
      }
    }
  }

  lemma NextName(db: Schema, names: seq<string>, n: nat)
    requires Distinct(names) && IsPrefix(db, names, n) && n < |names|
    ensures names[n] !in db.recorded && IsPrefix(Commit(db, names[n]), names, n + 1)
  {
    assert names[..n + 1] == names[..n] + [names[n]];
  }

  /** If the recorded versions start as a prefix of the sorted names they stay one, whatever runs
      stop where: migrations take effect in order, with no gaps. */
  lemma {:induction false} PrefixForever(db: Schema, names: seq<string>, runs: seq<seq<Fate>>, n: nat) returns (m: nat)
    requires Distinct(names) && IsPrefix(db, names, n) && forall i :: 0 <= i < |runs| ==> |runs[i]| >= |names|
    ensures n <= m && IsPrefix(RunAll(db, names, runs), names, m)
    decreases |runs|
  {
    m := n;
    if runs != [] {
      m := RunKeepsPrefix(db, names, runs[0], 0, n);
      m := PrefixForever(RunFrom(db, names, runs[0], 0).0, names, runs[1..], m);
    }
  }
}
