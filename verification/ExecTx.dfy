/**
 * The retrying transaction runner (internal/storage/duckdb.go, ExecTx, BeginTX, Commit, Rollback).
 *
 * What SQL and `fn` do in attempt i is given by a script.  `fn` may leave the transaction open, as it
 * should, or commit it or roll it back itself.
 */
module ExecTx {
  import opened Std

  const MAX_RETRIES: nat := 3

  /** An error, and whether its text marks it as a serialization failure. */
  datatype Error = Error(text: string, serialization: bool)

  datatype BeginOutcome = Begun | BeginRefused(err: Error) | SchemaRefused(err: Error)
  datatype OwnFinish = LeftOpen | OwnCommit(err: Option<Error>) | OwnRollback(err: Option<Error>)

  /** `fn` finishes the transaction (or not) and returns; then commit and rollback answer if asked. */
  datatype Attempt = Attempt(
    begin: BeginOutcome, finish: OwnFinish, fn: Option<Error>, commit: Option<Error>, rollback: Option<Error>)

  type Script = nat -> Attempt

  datatype Answer = Nil | Failed(err: Error) | Exhausted

  /** What ExecTx answers, and for each attempt that ran `fn` whether its transaction was committed. */
  datatype Outcome = Outcome(answer: Answer, committed: seq<bool>)

  predicate Commits(a: Attempt) {
    match a.finish
    case LeftOpen => a.fn.None? && a.commit.None?
    case OwnCommit(err) => err.None?
    case OwnRollback(_) => false
  }

  /** The error the attempt ends with: that of `fn`, or else that of a commit that still has work to do. */
  function AttemptError(a: Attempt): Option<Error> {
    if a.fn.Some? then a.fn
    else if a.finish.LeftOpen? then a.commit
    else None
  }

  /** The loop from attempt `i` on. */
  function Attempts(script: Script, i: nat): (r: Outcome)
    decreases MAX_RETRIES + 1 - i
  {
    if i > MAX_RETRIES then Outcome(Exhausted, [])
    else
      var a := script(i);
      if !a.begin.Begun? then Outcome(Failed(a.begin.err), [])
      else
        var err := AttemptError(a);
        if err.None? then Outcome(Nil, [Commits(a)])
        else if !err.value.serialization || i == MAX_RETRIES then Outcome(Failed(err.value), [Commits(a)])
        else
          var rest := Attempts(script, i + 1);
          Outcome(rest.answer, [Commits(a)] + rest.committed)
  }

  // ----- what callers may rely on -----

  /** `fn` runs at most four times, and the final "exhausted" return is never taken. */
  lemma {:induction false} AtMostFourRuns(script: Script, i: nat)
    requires i <= 3
    ensures Attempts(script, i).answer != Exhausted
    ensures |Attempts(script, i).committed| <= 4 - i
    decreases 3 - i
  {
    if i < 3 { AtMostFourRuns(script, i + 1); }
  }

  /** What an attempt answers when it is the last. */
  function LastAnswer(a: Attempt): Answer {
    if !a.begin.Begun? then Failed(a.begin.err)
    else if AttemptError(a).None? then Nil
    else Failed(AttemptError(a).value)
  }

  /** The loop ends with attempt `n`: the first that is not retried, or the fourth. */
  ghost predicate EndsAt(script: Script, from: nat, n: nat) {
    && from <= n <= 3
    && (forall j: nat :: from <= j < n ==> Retried(script(j)))
    && (n == 3 || !Retried(script(n)))
  }

  /** The answer is that of the attempt the loop ends with, and each attempt that began has run `fn`. */
  lemma {:induction false} AnswerExact(script: Script, i: nat, n: nat)
    requires EndsAt(script, i, n)
    ensures var o := Attempts(script, i);
      && o.answer == LastAnswer(script(n))
      && |o.committed| == n - i + (if script(n).begin.Begun? then 1 else 0)
      && forall j :: 0 <= j < |o.committed| ==> o.committed[j] == Commits(script(i + j))
    decreases n - i
  {
    if i < n {
      AnswerExact(script, i + 1, n);
      var rest := Attempts(script, i + 1).committed;
      forall j | 0 < j <= |rest| ensures ([Commits(script(i))] + rest)[j] == Commits(script(i + j)) {
        assert rest[j - 1] == Commits(script(i + 1 + (j - 1)));
      }
    }
  }

  /** Every loop ends at exactly one attempt. */
  lemma {:induction false} EndsSomewhere(script: Script, i: nat) returns (n: nat)
    requires i <= 3
    ensures EndsAt(script, i, n) && forall n': nat :: EndsAt(script, i, n') ==> n' == n
    decreases 3 - i
  {
    n := i;
    if Retried(script(i)) && i < 3 {
      n := EndsSomewhere(script, i + 1);
      forall n': nat | EndsAt(script, i, n') ensures n' == n {
        assert EndsAt(script, i + 1, n');
      }
    }
  }

  /** Four serialization failures run `fn` four times, and the fourth error is the answer. */
  lemma FourFailuresFourRuns(script: Script)
    requires Retried(script(0)) && Retried(script(1)) && Retried(script(2)) && Retried(script(3))
    ensures |Attempts(script, 0).committed| == 4
    ensures Attempts(script, 0).answer == Failed(AttemptError(script(3)).value)
  {
    AnswerExact(script, 0, 3);
  }

  /**
   * Nil means that the last attempt committed, an error means that nothing was committed, and no
   * attempt follows a committed one.
   */
  ghost predicate AnswersTruly(r: Outcome) {
    && (r.answer == Nil <==> |r.committed| > 0 && r.committed[|r.committed| - 1])
    && (forall j :: 0 <= j < |r.committed| - 1 ==> !r.committed[j])
  }

  /** `fn` reports success without a commit, or failure after its own commit. */
  predicate Misleads(a: Attempt) {
    && !a.finish.LeftOpen?
    && (a.fn.None? <==> !Commits(a))
  }

  lemma TrulyCons(answer: Answer, c: bool, rest: seq<bool>)
    requires |rest| > 0 || answer != Nil
    ensures AnswersTruly(Outcome(answer, [c] + rest)) <==> !c && AnswersTruly(Outcome(answer, rest))
  {
    var all := [c] + rest;
    assert all[0] == c;
    assert |rest| > 0 ==> all[|all| - 1] == rest[|rest| - 1];
    if !c && AnswersTruly(Outcome(answer, rest)) {
      forall j | 0 <= j < |all| - 1 ensures !all[j] {
        if j > 0 { assert all[j] == rest[j - 1]; }
      }
    } else if AnswersTruly(Outcome(answer, all)) {
      forall j | 0 <= j < |rest| - 1 ensures !rest[j] {
        assert all[j + 1] == rest[j];
      }
    }
  }

  /** A nil answer comes from an attempt that ran. */
  lemma {:induction false} NilRan(script: Script, i: nat)
    ensures Attempts(script, i).answer == Nil ==> |Attempts(script, i).committed| > 0
  {
  }

  /** A loop that ends with this attempt answers truly exactly when `fn` is not misleading. */
  lemma TruthfulLast(a: Attempt)
    ensures var err := AttemptError(a);
      AnswersTruly(Outcome(if err.None? then Nil else Failed(err.value), [Commits(a)])) <==> !Misleads(a)
  {
  }

  ghost predicate NoneMisleads(script: Script, from: nat, n: nat) {
    forall j: nat :: from <= j < from + n ==> !Misleads(script(j))
  }

  lemma NoneMisleadsFirst(script: Script, from: nat, n: nat)
    requires n >= 1
    ensures NoneMisleads(script, from, n) <==> !Misleads(script(from)) && NoneMisleads(script, from + 1, n - 1)
  {
    if !Misleads(script(from)) && NoneMisleads(script, from + 1, n - 1) {
      forall j: nat | from <= j < from + n ensures !Misleads(script(j)) {
        if j > from { assert from + 1 <= j < from + 1 + (n - 1); }
      }
    }
  }

  lemma {:induction false} TruthfulFrom(script: Script, i: nat)
    requires i <= MAX_RETRIES
    ensures AnswersTruly(Attempts(script, i)) <==> NoneMisleads(script, i, |Attempts(script, i).committed|)
    decreases MAX_RETRIES - i
  {
    var a, o := script(i), Attempts(script, i);
    if !a.begin.Begun? {
      assert o.committed == [] && o.answer != Nil;
    } else {
      NoneMisleadsFirst(script, i, |o.committed|);
      if Retried(a) && i < MAX_RETRIES {
        TruthfulFrom(script, i + 1);
        NilRan(script, i + 1);
        TrulyCons(Attempts(script, i + 1).answer, Commits(a), Attempts(script, i + 1).committed);
        assert Commits(a) <==> Misleads(a);
      } else {
        TruthfulLast(a);
      }
    }
  }

  /** The attempt began and ended with a serialization error, so another one follows. */
  predicate Retried(a: Attempt) {
    a.begin.Begun? && AttemptError(a).Some? && AttemptError(a).value.serialization
  }

  /** Attempt `j` runs `fn` in a loop that is about to make attempt `i`. */
  ghost predicate RunsFrom(script: Script, i: nat, j: nat) {
    i <= j <= MAX_RETRIES && script(j).begin.Begun? && forall m: nat :: i <= m < j ==> Retried(script(m))
  }

  lemma {:induction false} RunsFromIff(script: Script, i: nat, j: nat)
    requires i <= MAX_RETRIES
    ensures RunsFrom(script, i, j) <==> i <= j < i + |Attempts(script, i).committed|
    decreases MAX_RETRIES - i
  {
    if Retried(script(i)) && i < MAX_RETRIES {
      RunsFromIff(script, i + 1, j);
    }
    AtMostFourRuns(script, i);
  }

  /** ExecTx answers truly exactly when no `fn` that runs is misleading. */
  lemma AnswersTrulyIff(script: Script)
    ensures AnswersTruly(Attempts(script, 0))
       <==> forall j: nat :: RunsFrom(script, 0, j) ==> !Misleads(script(j))
  {
    TruthfulFrom(script, 0);
    forall j: nat ensures RunsFrom(script, 0, j) <==> j < |Attempts(script, 0).committed| { RunsFromIff(script, 0, j); }
  }

  /** A `fn` that rolls back and returns nil makes ExecTx answer nil although nothing was committed. */
  lemma OwnRollbackAnswersNil()
    ensures var script := (_: nat) => Attempt(Begun, OwnRollback(None), None, None, None);
      Attempts(script, 0) == Outcome(Nil, [false]) && !AnswersTruly(Attempts(script, 0))
  {
  }

  /** When `fn` never finishes the transaction itself: nil exactly when one attempt committed, the last. */
  lemma LeftOpenAnswersTruly(script: Script)
    requires forall i :: script(i).finish.LeftOpen?
    ensures AnswersTruly(Attempts(script, 0))
  {
    AnswersTrulyIff(script);
  }

  // ----- the runner over a real lock -----

  class Database {
    var locked: bool
    ghost var acquisitions: nat
    ghost var releases: nat
    ghost var commits: nat

    constructor ()
      ensures !locked && acquisitions == releases && commits == 0
    {
      locked := false;
      acquisitions, releases, commits := 0, 0, 0;
    }

    method Lock()
      requires !locked
      modifies this
      ensures locked && acquisitions == old(acquisitions) + 1 && releases == old(releases) && commits == old(commits)
    {
      locked := true;
      acquisitions := acquisitions + 1;
    }

    method Unlock()
      requires locked
      modifies this
      ensures !locked && acquisitions == old(acquisitions) && releases == old(releases) + 1 && commits == old(commits)
    {
      locked := false;
      releases := releases + 1;
    }

    /** The lock stays held exactly when a transaction is handed out. */
    method BeginTX(outcome: BeginOutcome) returns (r: Result<TX, Error>)
      requires !locked
      modifies this
      ensures acquisitions == old(acquisitions) + 1 && commits == old(commits)
      ensures outcome.Begun? <==> r.Ok?
      ensures r.Ok? ==> fresh(r.value) && r.value.db == this && !r.value.done && locked && releases == old(releases)
      ensures r.Err? ==> r.error == outcome.err && !locked && releases == old(releases) + 1
    {
      Lock();
      if outcome.BeginRefused? {
        Unlock();
        return Err(outcome.err);
      }
      if outcome.SchemaRefused? {
        Unlock();
        return Err(outcome.err);
      }
      var tx := new TX(this);
      return Ok(tx);
    }
  }

  class TX {
    const db: Database
    var done: bool

    constructor (db: Database)
      ensures this.db == db && !done
    {
      this.db := db;
      done := false;
    }

    method Commit(sql: Option<Error>) returns (err: Option<Error>)
      requires !done ==> db.locked
      modifies this, db
      ensures done && db.acquisitions == old(db.acquisitions)
      ensures old(done) ==>
        err == None && db.locked == old(db.locked) && db.releases == old(db.releases) && db.commits == old(db.commits)
      ensures !old(done) ==> err == sql && !db.locked && db.releases == old(db.releases) + 1
      ensures !old(done) ==> db.commits == old(db.commits) + if sql.None? then 1 else 0
    {
      if done {
        return None;
      }
      done := true;
      if sql.None? {
        db.commits := db.commits + 1;
      }
      db.Unlock();
      return sql;
    }

    method Rollback(sql: Option<Error>) returns (err: Option<Error>)
      requires !done ==> db.locked
      modifies this, db
      ensures done && db.acquisitions == old(db.acquisitions) && db.commits == old(db.commits)
      ensures old(done) ==> err == None && db.locked == old(db.locked) && db.releases == old(db.releases)
      ensures !old(done) ==> err == sql && !db.locked && db.releases == old(db.releases) + 1
    {
      if done {
        return None;
      }
      done := true;
      db.Unlock();
      return sql;
    }

    /** What `fn` does to the transaction before it returns. */
    method RunFn(a: Attempt) returns (err: Option<Error>)
      requires !done && db.locked
      modifies this, db
      ensures err == a.fn && db.acquisitions == old(db.acquisitions)
      ensures a.finish.LeftOpen? ==>
        !done && db.locked && db.releases == old(db.releases) && db.commits == old(db.commits)
      ensures !a.finish.LeftOpen? ==> done && !db.locked && db.releases == old(db.releases) + 1
      ensures !a.finish.LeftOpen? ==> db.commits == old(db.commits) + if Commits(a) then 1 else 0
    {
      match a.finish {
        case LeftOpen =>
        case OwnCommit(sql) => var _ := Commit(sql);
        case OwnRollback(sql) => var _ := Rollback(sql);
      }
      return a.fn;
    }
  }

  function CountTrue(s: seq<bool>): nat {
    if s == [] then 0 else (if s[0] then 1 else 0) + CountTrue(s[1..])
  }

  /** Whatever happens, the lock is free again on return and every acquisition has been released. */
  method ExecTx(db: Database, script: Script) returns (answer: Answer)
    requires !db.locked && db.acquisitions == db.releases
    modifies db
    ensures answer == Attempts(script, 0).answer
    ensures !db.locked && db.acquisitions == db.releases
    ensures db.commits == old(db.commits) + CountTrue(Attempts(script, 0).committed)
  {
    var i := 0;
    while i <= MAX_RETRIES
      invariant 0 <= i <= MAX_RETRIES + 1
      invariant !db.locked && db.acquisitions == db.releases
      invariant Attempts(script, i).answer == Attempts(script, 0).answer
      invariant db.commits + CountTrue(Attempts(script, i).committed) ==
        old(db.commits) + CountTrue(Attempts(script, 0).committed)
      decreases MAX_RETRIES + 1 - i
    {
      var a := script(i);
      var began := db.BeginTX(a.begin);
      if began.Err? {
        return Failed(began.error);
      }
      var tx := began.value;
      var err := tx.RunFn(a);
      if err.None? {
        err := tx.Commit(a.commit);
        if err.None? {
          return Nil;
        }
      }
      var _ := tx.Rollback(a.rollback);
      assert err == AttemptError(a);
      if !err.value.serialization || i == MAX_RETRIES {
        return Failed(err.value);
      }
      i := i + 1;
    }
    return Exhausted;
  }
}
