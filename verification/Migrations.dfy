/**
 * The migration engine (internal/migrate/migrate.go, runMigrations).
 *
 * The database is the schema_migrations table: version to dirty flag, with the version as primary key.
 * Reading the directory, parsing a file name and every SQL statement may fail; which of them fail in a
 * run is given by that run's faults.  A commit whose reply is lost counts as an error although it took
 * effect.  Migration scripts do not touch schema_migrations.
 */
module Migrations {
  import opened Std

  type Rows = map<int, bool>

  /** A directory entry: its name, whether it ends in .up.sql, and the number its name starts with. */
  datatype Entry = Entry(name: string, isUp: bool, version: Option<int>)

  datatype Fault = NoFault | ReadFails | BeginFails | ScriptFails | InsertFails | CommitFails | CommitReplyLost

  /** What goes wrong in one run; `at` gives the fault of each version's attempt. */
  datatype Faults = Faults(createFails: bool, queryFails: bool, readDirFails: bool, at: int -> Fault)

  // ----- the current version -----

  function Clean(rows: Rows): set<int> {
    set v | v in rows && !rows[v]
  }

  /** COALESCE(MAX(version), 0) over the clean rows. */
  ghost predicate IsVersion(rows: Rows, m: int) {
    && (Clean(rows) == {} ==> m == 0)
    && (Clean(rows) != {} ==> m in Clean(rows))
    && (forall v :: v in Clean(rows) ==> v <= m)
  }

  lemma VersionExists(rows: Rows)
    ensures exists m :: IsVersion(rows, m)
  {
    if Clean(rows) == {} {
      assert IsVersion(rows, 0);
    } else {
      var m := MaximumExists(Clean(rows));
      assert IsVersion(rows, m);
    }
  }

  ghost function VersionOf(rows: Rows): int {
    VersionExists(rows);
    var m :| IsVersion(rows, m);
    m
  }

  ghost function StartOf(rows: Rows, queryFails: bool): int {
    if queryFails then 0 else VersionOf(rows)
  }

  // ----- the directory -----

  predicate Selected(e: Entry, start: int) {
    e.isUp && e.version.Some? && e.version.value > start
  }

  /** upFiles: a later entry of the same version replaces an earlier one. */
  function UpFiles(entries: seq<Entry>, start: int): map<int, string> {
    if entries == [] then map[]
    else
      var last := entries[|entries| - 1];
      var before := UpFiles(entries[..|entries| - 1], start);
      if Selected(last, start) then before[last.version.value := last.name] else before
  }

  function Highest(entries: seq<Entry>, start: int): int {
    if entries == [] then 0
    else
      var last := entries[|entries| - 1];
      var before := Highest(entries[..|entries| - 1], start);
      if Selected(last, start) && last.version.value > before then last.version.value else before
  }

  /** upFiles holds exactly the versions of the directory above the start, none above the highest. */
  lemma {:induction false} UpFilesExact(entries: seq<Entry>, start: int, v: int)
    ensures v in UpFiles(entries, start) <==>
      exists i :: 0 <= i < |entries| && Selected(entries[i], start) && entries[i].version.value == v
    ensures v in UpFiles(entries, start) ==> start < v <= Highest(entries, start)
  {
    if entries != [] {
      var n := |entries| - 1;
      UpFilesExact(entries[..n], start, v);
      assert forall i :: 0 <= i < n ==> entries[..n][i] == entries[i];
    }
  }

  /** Entry `i` is the last one selected for version `v`. */
  ghost predicate LastFor(entries: seq<Entry>, start: int, v: int, i: int) {
    && 0 <= i < |entries| && Selected(entries[i], start) && entries[i].version.value == v
    && forall j :: i < j < |entries| ==> !(Selected(entries[j], start) && entries[j].version.value == v)
  }

  /** Each version is run from the last entry that names it. */
  lemma {:induction false} UpFileIsLast(entries: seq<Entry>, start: int, v: int, i: int)
    requires LastFor(entries, start, v, i)
    ensures v in UpFiles(entries, start) && UpFiles(entries, start)[v] == entries[i].name
  {
    var n := |entries| - 1;
    if i < n {
      assert LastFor(entries[..n], start, v, i);
      UpFileIsLast(entries[..n], start, v, i);
    }
  }

  // ----- applying versions in order -----

  datatype Outcome = Outcome(rows: Rows, commits: seq<int>, ok: bool)

  /** One version: read, begin, script, insert (which fails on a recorded version), commit. */
  function Step(rows: Rows, v: int, fault: Fault): Outcome {
    if fault in {ReadFails, BeginFails, ScriptFails, InsertFails, CommitFails} || v in rows then
      Outcome(rows, [], false)
    else Outcome(rows[v := false], [v], fault == NoFault)
  }

  function ApplyFrom(rows: Rows, files: set<int>, v: int, highest: int, at: int -> Fault): Outcome
    decreases highest - v
  {
    if v > highest then Outcome(rows, [], true)
    else if v !in files then ApplyFrom(rows, files, v + 1, highest, at)
    else
      var first := Step(rows, v, at(v));
      if !first.ok then first
      else
        var rest := ApplyFrom(first.rows, files, v + 1, highest, at);
        Outcome(rest.rows, first.commits + rest.commits, rest.ok)
  }

  ghost function RunOnce(rows: Rows, entries: seq<Entry>, f: Faults): Outcome {
    var start := StartOf(rows, f.queryFails);
    if f.createFails || f.readDirFails then Outcome(rows, [], false)
    else ApplyFrom(rows, UpFiles(entries, start).Keys, start + 1, Highest(entries, start), f.at)
  }

  // ----- what a run commits -----

  /** Strictly increasing, starting above `low`. */
  predicate Ascends(s: seq<int>, low: int) {
    s == [] || (low < s[0] && Ascends(s[1..], s[0]))
  }

  /** The versions of `files` from `v` to `highest`, in order. */
  function Pending(files: set<int>, v: int, highest: int): seq<int>
    decreases highest - v
  {
    if v > highest then [] else (if v in files then [v] else []) + Pending(files, v + 1, highest)
  }

  lemma {:induction false} PendingExact(files: set<int>, v: int, highest: int, x: int)
    ensures x in Pending(files, v, highest) <==> x in files && v <= x <= highest
    decreases highest - v
  {
    if v <= highest { PendingExact(files, v + 1, highest, x); }
  }

  lemma {:induction false} PendingAscends(files: set<int>, v: int, highest: int, low: int)
    requires low < v
    ensures Ascends(Pending(files, v, highest), low)
    decreases highest - v
  {
    if v <= highest {
      var rest := Pending(files, v + 1, highest);
      if v in files {
        PendingAscends(files, v + 1, highest, v);
        assert ([v] + rest)[1..] == rest;
      } else {
        PendingAscends(files, v + 1, highest, low);
        assert Pending(files, v, highest) == rest;
      }
    }
  }

  lemma PrefixOfCons(v: int, s: seq<int>, t: seq<int>)
    requires s <= t
    ensures [v] + s <= [v] + t && [v] <= [v] + t && [] <= [v] + t
  {
  }

  /** A run commits a prefix of the pending versions; without an error, all of them. */
  lemma {:induction false} CommitsArePrefix(rows: Rows, files: set<int>, v: int, highest: int, at: int -> Fault)
    ensures var o := ApplyFrom(rows, files, v, highest, at);
      && o.commits <= Pending(files, v, highest)
      && (o.ok ==> o.commits == Pending(files, v, highest))
    decreases highest - v
  {
    if v <= highest {
      if v !in files {
        CommitsArePrefix(rows, files, v + 1, highest, at);
        assert Pending(files, v, highest) == Pending(files, v + 1, highest);
      } else {
        var first := Step(rows, v, at(v));
        CommitsArePrefix(first.rows, files, v + 1, highest, at);
        PrefixOfCons(v, ApplyFrom(first.rows, files, v + 1, highest, at).commits, Pending(files, v + 1, highest));
      }
    }
  }

  /** The commits ascend, were all unrecorded before, and are exactly what the run adds to the table. */
  lemma {:induction false} CommitsRecorded(
      rows: Rows, files: set<int>, v: int, highest: int, at: int -> Fault, low: int)
    requires low < v
    ensures var o := ApplyFrom(rows, files, v, highest, at);
      && Ascends(o.commits, low)
      && (forall x :: x in o.commits ==> low < x && x !in rows && x in o.rows && !o.rows[x])
      && (forall x :: x in o.rows ==> x in rows || x in o.commits)
      && (forall x :: x in rows ==> x in o.rows && o.rows[x] == rows[x])
    decreases highest - v
  {
    if v <= highest {
      if v !in files {
        CommitsRecorded(rows, files, v + 1, highest, at, low);
      } else {
        var first := Step(rows, v, at(v));
        if first.ok {
          CommitsRecorded(first.rows, files, v + 1, highest, at, v);
          var rest := ApplyFrom(first.rows, files, v + 1, highest, at);
          assert ([v] + rest.commits)[1..] == rest.commits;
        }
      }
    }
  }

  /** A failed run leaves an ordered prefix of the pending versions. */
  lemma RunLeavesPrefix(rows: Rows, entries: seq<Entry>, f: Faults)
    ensures
      var start := StartOf(rows, f.queryFails);
      var pending := Pending(UpFiles(entries, start).Keys, start + 1, Highest(entries, start));
      var o := RunOnce(rows, entries, f);
      o.commits <= pending && (o.ok ==> o.commits == pending)
  {
    var start := StartOf(rows, f.queryFails);
    CommitsArePrefix(rows, UpFiles(entries, start).Keys, start + 1, Highest(entries, start), f.at);
  }

  /** The attempt of a version goes through: no fault, and the version is not recorded yet. */
  predicate Applies(rows: Rows, at: int -> Fault, v: int) {
    at(v) == NoFault && v !in rows
  }

  lemma {:induction false} AppliesLater(rows: Rows, at: int -> Fault, v: int, s: seq<int>)
    requires Ascends(s, v)
    ensures forall i :: 0 <= i < |s| ==> (Applies(rows[v := false], at, s[i]) <==> Applies(rows, at, s[i]))
  {
    AscendsAbove(s, v);
    forall i | 0 <= i < |s| ensures Applies(rows[v := false], at, s[i]) <==> Applies(rows, at, s[i]) {
      assert s[i] in s;
    }
  }

  /**
   * The run stopped at the first pending version that does not go through, and committed exactly those before
   * it; that version itself only if nothing but the reply of its commit was lost.
   */
  ghost predicate StoppedAt(rows: Rows, at: int -> Fault, pending: seq<int>, commits: seq<int>, ok: bool, k: nat) {
    && k <= |pending|
    && (forall i :: 0 <= i < k ==> Applies(rows, at, pending[i]))
    && (ok <==> k == |pending|)
    && (if k == |pending| then commits == pending
        else
          && !Applies(rows, at, pending[k])
          && commits == pending[..k] +
               if at(pending[k]) == CommitReplyLost && pending[k] !in rows then [pending[k]] else [])
  }

  lemma StoppedLater(rows: Rows, at: int -> Fault, v: int, rest: seq<int>, commits: seq<int>, ok: bool, n: nat)
    requires Applies(rows, at, v) && Ascends(rest, v) && StoppedAt(rows[v := false], at, rest, commits, ok, n)
    ensures StoppedAt(rows, at, [v] + rest, [v] + commits, ok, n + 1)
  {
    var pending := [v] + rest;
    AppliesLater(rows, at, v, rest);
    AscendsAbove(rest, v);
    assert forall i :: 0 < i < |pending| ==> pending[i] == rest[i - 1];
    if n < |rest| {
      assert pending[n + 1] == rest[n] && rest[n] in rest;
      assert pending[..n + 1] == [v] + rest[..n];
    }
  }

  lemma {:induction false} StopsAtFirstFault(rows: Rows, files: set<int>, v: int, highest: int, at: int -> Fault)
    returns (k: nat)
    ensures var o := ApplyFrom(rows, files, v, highest, at);
      StoppedAt(rows, at, Pending(files, v, highest), o.commits, o.ok, k)
    decreases highest - v
  {
    k := 0;
    if v <= highest {
      var rest := Pending(files, v + 1, highest);
      if v !in files {
        k := StopsAtFirstFault(rows, files, v + 1, highest, at);
        assert Pending(files, v, highest) == rest;
      } else if Applies(rows, at, v) {
        var n := StopsAtFirstFault(rows[v := false], files, v + 1, highest, at);
        PendingAscends(files, v + 1, highest, v);
        var o := ApplyFrom(rows[v := false], files, v + 1, highest, at);
        StoppedLater(rows, at, v, rest, o.commits, o.ok, n);
        k := n + 1;
      } else {
        assert Pending(files, v, highest)[0] == v;
      }
    }
  }

  /** The versions a run has to apply, in order. */
  ghost function PendingOf(rows: Rows, entries: seq<Entry>, queryFails: bool): seq<int> {
    var start := StartOf(rows, queryFails);
    Pending(UpFiles(entries, start).Keys, start + 1, Highest(entries, start))
  }

  /** A run succeeds exactly when it can start and every pending version goes through. */
  lemma RunSucceedsIff(rows: Rows, entries: seq<Entry>, f: Faults)
    ensures RunOnce(rows, entries, f).ok <==>
      && !f.createFails && !f.readDirFails
      && forall i :: 0 <= i < |PendingOf(rows, entries, f.queryFails)| ==>
           Applies(rows, f.at, PendingOf(rows, entries, f.queryFails)[i])
  {
    var start := StartOf(rows, f.queryFails);
    var pending := PendingOf(rows, entries, f.queryFails);
    var k := StopsAtFirstFault(rows, UpFiles(entries, start).Keys, start + 1, Highest(entries, start), f.at);
    if k == |pending| {
      forall i | 0 <= i < |pending| ensures Applies(rows, f.at, pending[i]) { }
    } else {
      assert !Applies(rows, f.at, pending[k]);
    }
  }

  /** A run without an error leaves every version in the directory above its start recorded and clean. */
  lemma CompleteRunRecordsAll(rows: Rows, entries: seq<Entry>, f: Faults, i: nat)
    requires i < |entries| && Selected(entries[i], StartOf(rows, f.queryFails))
    requires RunOnce(rows, entries, f).ok
    ensures var v := entries[i].version.value;
      v in RunOnce(rows, entries, f).rows && !RunOnce(rows, entries, f).rows[v]
  {
    var start, v := StartOf(rows, f.queryFails), entries[i].version.value;
    UpFilesExact(entries, start, v);
    CompleteRecords(rows, UpFiles(entries, start).Keys, start + 1, Highest(entries, start), f.at, v);
  }

  lemma CompleteRecords(rows: Rows, files: set<int>, v: int, highest: int, at: int -> Fault, x: int)
    requires x in files && v <= x <= highest && ApplyFrom(rows, files, v, highest, at).ok
    ensures var o := ApplyFrom(rows, files, v, highest, at); x in o.rows && !o.rows[x]
  {
    PendingExact(files, v, highest, x);
    CommitsArePrefix(rows, files, v, highest, at);
    CommitsRecorded(rows, files, v, highest, at, v - 1);
  }

  // ----- any number of runs -----

  datatype Job = Job(entries: seq<Entry>, faults: Faults)

  ghost function RunAll(rows: Rows, jobs: seq<Job>): Outcome
    decreases |jobs|
  {
    if jobs == [] then Outcome(rows, [], true)
    else
      var first := RunOnce(rows, jobs[0].entries, jobs[0].faults);
      var rest := RunAll(first.rows, jobs[1..]);
      Outcome(rest.rows, first.commits + rest.commits, rest.ok)
  }

  ghost predicate QueriesSucceed(jobs: seq<Job>) {
    forall i :: 0 <= i < |jobs| ==> !jobs[i].faults.queryFails
  }

  lemma RunRecords(rows: Rows, job: Job)
    ensures var o := RunOnce(rows, job.entries, job.faults);
      && (forall x :: x in o.commits ==> x !in rows && x in o.rows && !o.rows[x])
      && (forall x :: x in o.rows ==> x in rows || x in o.commits)
      && (forall x :: x in rows ==> x in o.rows && o.rows[x] == rows[x])
      && Ascends(o.commits, StartOf(rows, job.faults.queryFails))
  {
    var start := StartOf(rows, job.faults.queryFails);
    var files, highest := UpFiles(job.entries, start).Keys, Highest(job.entries, start);
    CommitsRecorded(rows, files, start + 1, highest, job.faults.at, start);
  }

  lemma {:induction false} AscendsAbove(s: seq<int>, low: int)
    requires Ascends(s, low)
    ensures forall x :: x in s ==> low < x
  {
    if s != [] {
      AscendsAbove(s[1..], s[0]);
      assert s == [s[0]] + s[1..];
    }
  }

  lemma {:induction false} AscendsConcat(a: seq<int>, b: seq<int>, low: int, mid: int)
    requires Ascends(a, low) && Ascends(b, mid) && low <= mid && forall x :: x in a ==> x <= mid
    ensures Ascends(a + b, low)
  {
    if a == [] {
      assert a + b == b;
      AscendsLower(b, mid, low);
    } else {
      assert (a + b)[1..] == a[1..] + b;
      assert a[0] in a && forall x :: x in a[1..] ==> x in a;
      AscendsConcat(a[1..], b, a[0], mid);
    }
  }

  lemma AscendsLower(s: seq<int>, mid: int, low: int)
    requires Ascends(s, mid) && low <= mid
    ensures Ascends(s, low)
  {
  }

  /** Commits above the current version raise it to at least the last of them. */
  lemma VersionGrows(rows: Rows, rows': Rows, commits: seq<int>)
    requires forall x :: x in rows ==> x in rows' && rows'[x] == rows[x]
    requires forall x :: x in rows' ==> x in rows || x in commits
    requires forall x :: x in commits ==> x in rows' && !rows'[x] && VersionOf(rows) < x
    ensures VersionOf(rows) <= VersionOf(rows')
    ensures forall x :: x in commits ==> x <= VersionOf(rows')
  {
    var m, m' := VersionOf(rows), VersionOf(rows');
    assert IsVersion(rows, m) && IsVersion(rows', m');
    assert forall x :: x in commits ==> x in Clean(rows');
    assert forall x :: x in Clean(rows) ==> x in Clean(rows');
    if Clean(rows) != {} {
      assert m in Clean(rows');
    } else if commits == [] {
      assert forall x :: x in Clean(rows') ==> x in Clean(rows);
    } else {
      var x := commits[0];
      assert x in commits;
      assert m < x && x in Clean(rows');
      assert x <= m';
    }
  }

  /** While the version query succeeds, versions commit in strictly increasing order across all runs. */
  lemma {:induction false} CommitsAscendAcrossRuns(rows: Rows, jobs: seq<Job>)
    requires QueriesSucceed(jobs)
    ensures Ascends(RunAll(rows, jobs).commits, VersionOf(rows))
    decreases |jobs|
  {
    if jobs != [] {
      var first := RunOnce(rows, jobs[0].entries, jobs[0].faults);
      RunRecords(rows, jobs[0]);
      AscendsAbove(first.commits, VersionOf(rows));
      VersionGrows(rows, first.rows, first.commits);
      CommitsAscendAcrossRuns(first.rows, jobs[1..]);
      AscendsConcat(first.commits, RunAll(first.rows, jobs[1..]).commits, VersionOf(rows), VersionOf(first.rows));
    }
  }

  /** The version has an entry ending in .up.sql in the directory of some run. */
  ghost predicate HasUpFile(jobs: seq<Job>, v: int) {
    exists j, i :: 0 <= j < |jobs| && 0 <= i < |jobs[j].entries| && NamesUp(jobs[j].entries[i], v)
  }

  predicate NamesUp(e: Entry, v: int) {
    e.isUp && e.version == Some(v)
  }

  lemma RunCommitsUpFiles(rows: Rows, job: Job, v: int)
    requires v in RunOnce(rows, job.entries, job.faults).commits
    ensures exists i :: 0 <= i < |job.entries| && NamesUp(job.entries[i], v)
  {
    RunLeavesPrefix(rows, job.entries, job.faults);
    var start := StartOf(rows, job.faults.queryFails);
    PendingExact(UpFiles(job.entries, start).Keys, start + 1, Highest(job.entries, start), v);
    UpFilesExact(job.entries, start, v);
    var i :| 0 <= i < |job.entries| && Selected(job.entries[i], start) && job.entries[i].version.value == v;
    assert NamesUp(job.entries[i], v);
  }

  /** Whatever fails, only versions with an .up.sql entry are ever committed. */
  lemma {:induction false} OnlyUpFilesCommit(rows: Rows, jobs: seq<Job>, v: int)
    requires v in RunAll(rows, jobs).commits
    ensures HasUpFile(jobs, v)
    decreases |jobs|
  {
    var first := RunOnce(rows, jobs[0].entries, jobs[0].faults);
    if v in first.commits {
      RunCommitsUpFiles(rows, jobs[0], v);
      var i :| 0 <= i < |jobs[0].entries| && NamesUp(jobs[0].entries[i], v);
      assert NamesUp(jobs[0].entries[i], v);
    } else {
      OnlyUpFilesCommit(first.rows, jobs[1..], v);
      var j, i :| 0 <= j < |jobs[1..]| && 0 <= i < |jobs[1..][j].entries| && NamesUp(jobs[1..][j].entries[i], v);
      assert NamesUp(jobs[j + 1].entries[i], v);
    }
  }

  predicate NoRepeats(s: seq<int>) {
    s == [] || (s[0] !in s[1..] && NoRepeats(s[1..]))
  }

  lemma {:induction false} AscendsNoRepeats(s: seq<int>, low: int)
    requires Ascends(s, low)
    ensures NoRepeats(s)
  {
    if s != [] {
      AscendsAbove(s[1..], s[0]);
      AscendsNoRepeats(s[1..], s[0]);
    }
  }

  lemma {:induction false} NoRepeatsConcat(a: seq<int>, b: seq<int>)
    requires NoRepeats(a) && NoRepeats(b) && forall x :: x in a ==> x !in b
    ensures NoRepeats(a + b)
  {
    if a == [] {
      assert a + b == b;
    } else {
      assert a[0] in a && forall x :: x in a[1..] ==> x in a;
      NoRepeatsConcat(a[1..], b);
      assert (a + b)[0] == a[0] && (a + b)[1..] == a[1..] + b;
    }
  }

  /** Whatever fails, the version query included, no version commits twice or when already recorded. */
  lemma {:induction false} NoneCommittedTwice(rows: Rows, jobs: seq<Job>)
    ensures NoRepeats(RunAll(rows, jobs).commits)
    ensures forall x :: x in RunAll(rows, jobs).commits ==> x !in rows
    decreases |jobs|
  {
    if jobs != [] {
      var first := RunOnce(rows, jobs[0].entries, jobs[0].faults);
      RunRecords(rows, jobs[0]);
      AscendsNoRepeats(first.commits, StartOf(rows, jobs[0].faults.queryFails));
      NoneCommittedTwice(first.rows, jobs[1..]);
      NoRepeatsConcat(first.commits, RunAll(first.rows, jobs[1..]).commits);
    }
  }

  // ----- when the version query fails -----

  /** Every run from this table, with this query result, commits only above the current version. */
  ghost predicate AlwaysAbove(rows: Rows, queryFails: bool) {
    forall entries: seq<Entry>, f: Faults :: f.queryFails == queryFails ==> CommitsAbove(rows, entries, f)
  }

  ghost predicate CommitsAbove(rows: Rows, entries: seq<Entry>, f: Faults) {
    forall x :: x in RunOnce(rows, entries, f).commits ==> VersionOf(rows) < x
  }

  /** No version between the start and the current version is missing from the table. */
  ghost predicate NoGaps(rows: Rows, queryFails: bool) {
    forall v :: StartOf(rows, queryFails) < v <= VersionOf(rows) ==> v in rows
  }

  lemma {:induction false} SingleFileCommits(rows: Rows, v: int, file: int)
    requires v <= file && file !in rows
    ensures ApplyFrom(rows, {file}, v, file, (_: int) => NoFault).commits == [file]
    decreases file - v
  {
    if v < file {
      SingleFileCommits(rows, v + 1, file);
    } else {
      assert ApplyFrom(rows[file := false], {file}, file + 1, file, (_: int) => NoFault).commits == [];
    }
  }

  /** Order is kept exactly when no version is missing: always after a good query, not after a failed one. */
  lemma AlwaysAboveIff(rows: Rows, queryFails: bool)
    ensures AlwaysAbove(rows, queryFails) <==> NoGaps(rows, queryFails)
  {
    if NoGaps(rows, queryFails) {
      forall entries: seq<Entry>, f: Faults | f.queryFails == queryFails ensures CommitsAbove(rows, entries, f) {
        RunRecords(rows, Job(entries, f));
        AscendsAbove(RunOnce(rows, entries, f).commits, StartOf(rows, queryFails));
      }
    } else {
      var v :| StartOf(rows, queryFails) < v <= VersionOf(rows) && v !in rows;
      MissingVersionCommits(rows, queryFails, v);
    }
  }

  lemma SingleEntry(e: Entry, start: int)
    requires Selected(e, start) && e.version.value > 0
    ensures UpFiles([e], start).Keys == {e.version.value} && Highest([e], start) == e.version.value
  {
    assert [e][..0] == [];
    assert UpFiles([e], start) == map[e.version.value := e.name];
  }

  lemma MissingVersionCommits(rows: Rows, queryFails: bool, v: int)
    requires StartOf(rows, queryFails) < v <= VersionOf(rows) && v !in rows && v > 0
    ensures !AlwaysAbove(rows, queryFails)
  {
    var start := StartOf(rows, queryFails);
    var entries := [Entry("missing.up.sql", true, Some(v))];
    var f := Faults(false, queryFails, false, (_: int) => NoFault);
    SingleEntry(entries[0], start);
    SingleFileCommits(rows, start + 1, v);
    assert v in RunOnce(rows, entries, f).commits;
    assert !CommitsAbove(rows, entries, f);
  }

  /** After a failed query a version below the current one can still be committed. */
  lemma FailedQueryReorders()
    ensures
      var rows := map[3 := false];
      var f := Faults(false, true, false, (_: int) => NoFault);
      VersionOf(rows) == 3 && RunOnce(rows, [Entry("1_late.up.sql", true, Some(1))], f).commits == [1]
  {
    var rows: Rows := map[3 := false];
    assert 3 in Clean(rows) && IsVersion(rows, VersionOf(rows));
    var entries := [Entry("1_late.up.sql", true, Some(1))];
    SingleEntry(entries[0], 0);
    SingleFileCommits(rows, 1, 1);
  }

  // ----- the engine as written -----

  lemma FilesAppend(upFiles: map<int, string>, a: seq<int>, b: seq<int>)
    ensures FilesOf(upFiles, a + b) == FilesOf(upFiles, a) + FilesOf(upFiles, b)
  {
  }

  function FilesOf(upFiles: map<int, string>, versions: seq<int>): (files: seq<string>) {
    seq(|versions|, i requires 0 <= i < |versions| => if versions[i] in upFiles then upFiles[versions[i]] else "")
  }

  class Database {
    var rows: Rows
    ghost var commits: seq<int>
    ghost var scripts: seq<string>  // the files whose scripts were committed

    constructor (rows: Rows)
      ensures this.rows == rows && commits == [] && scripts == []
    {
      this.rows := rows;
      commits, scripts := [], [];
    }

    method CurrentVersion() returns (m: int)
      ensures m == VersionOf(rows)
    {
      var left := Clean(rows);
      m := 0;
      var found := false;
      while left != {}
        invariant left <= Clean(rows)
        invariant found <==> left != Clean(rows)
        invariant !found ==> m == 0
        invariant found ==> m in Clean(rows)
        invariant forall v :: v in Clean(rows) && v !in left ==> v <= m
        decreases |left|
      {
        assert (forall x :: x !in left) ==> left == {};
        var v :| v in left;
        if !found || v > m {
          m := v;
        }
        found := true;
        left := left - {v};
      }
      assert IsVersion(rows, m) && IsVersion(rows, VersionOf(rows));
    }

    /** One version in its own transaction. */
    method Migrate(version: int, upFile: string, fault: Fault) returns (ok: bool)
      modifies this
      ensures var o := Step(old(rows), version, fault);
        && rows == o.rows && commits == old(commits) + o.commits && ok == o.ok
        && scripts == old(scripts) + if version in o.commits then [upFile] else []
    {
      if fault == ReadFails || fault == BeginFails || fault == ScriptFails {
        return false;
      }
      if fault == InsertFails || version in rows {
        return false;
      }
      if fault == CommitFails {
        return false;
      }
      rows := rows[version := false];
      commits := commits + [version];
      scripts := scripts + [upFile];
      return fault == NoFault;
    }

    method ApplyVersions(upFiles: map<int, string>, start: int, highest: int, f: Faults)
      returns (ok: bool)
      modifies this
      ensures var o := ApplyFrom(old(rows), upFiles.Keys, start + 1, highest, f.at);
        && rows == o.rows && commits == old(commits) + o.commits && ok == o.ok
        && scripts == old(scripts) + FilesOf(upFiles, o.commits)
    {
      ghost var whole := ApplyFrom(rows, upFiles.Keys, start + 1, highest, f.at);
      ghost var done := [];
      var version := start + 1;
      while version <= highest
        invariant ExtendedBy(whole, ApplyFrom(rows, upFiles.Keys, version, highest, f.at), done)
        invariant commits == old(commits) + done && scripts == old(scripts) + FilesOf(upFiles, done)
        decreases highest - version
      {
        if version in upFiles {
          ghost var o, rows0, done0 := Step(rows, version, f.at(version)), rows, done;
          ok := Migrate(version, upFiles[version], f.at(version));
          done := done0 + o.commits;
          StepExtends(whole, rows0, upFiles.Keys, version, highest, f.at, done0);
          StepFiles(upFiles, rows0, version, f.at(version), done0);
          Regroup(old(commits), done0, o.commits);
          Regroup(old(scripts), FilesOf(upFiles, done0), if version in o.commits then [upFiles[version]] else []);
          if !ok {
            return false;
          }
        }
        version := version + 1;
      }
      return true;
    }

    method RunMigrations(entries: seq<Entry>, f: Faults) returns (ok: bool)
      modifies this
      ensures var o := RunOnce(old(rows), entries, f);
        && rows == o.rows && commits == old(commits) + o.commits && ok == o.ok
        && scripts == old(scripts) + FilesOf(UpFiles(entries, StartOf(old(rows), f.queryFails)), o.commits)
    {
      if f.createFails {
        return false;
      }
      var currentVersion := CurrentVersion();
      if f.queryFails {
        currentVersion := 0;
      }
      if f.readDirFails {
        return false;
      }
      var highestVersion := 0;
      var upFiles: map<int, string> := map[];
      for i := 0 to |entries|
        invariant upFiles == UpFiles(entries[..i], currentVersion)
        invariant highestVersion == Highest(entries[..i], currentVersion)
      {
        assert entries[..i + 1][..i] == entries[..i];
        var e := entries[i];
        if e.isUp && e.version.Some? && e.version.value > currentVersion {
          upFiles := upFiles[e.version.value := e.name];
          if e.version.value > highestVersion {
            highestVersion := e.version.value;
          }
        }
      }
      assert entries[..|entries|] == entries;
      ok := ApplyVersions(upFiles, currentVersion, highestVersion, f);
    }
  }

  /** What is done and what is left complete the whole. */
  ghost predicate ExtendedBy(whole: Outcome, rest: Outcome, done: seq<int>) {
    whole == Outcome(rest.rows, done + rest.commits, rest.ok)
  }

  lemma Regroup<T>(a: seq<T>, b: seq<T>, c: seq<T>)
    ensures (a + b) + c == a + (b + c)
  {
  }

  lemma StepFiles(upFiles: map<int, string>, rows: Rows, v: int, fault: Fault, done: seq<int>)
    requires v in upFiles
    ensures var o := Step(rows, v, fault);
      FilesOf(upFiles, done + o.commits) == FilesOf(upFiles, done) + if v in o.commits then [upFiles[v]] else []
  {
    FilesAppend(upFiles, done, Step(rows, v, fault).commits);
  }

  lemma StepExtends(
      whole: Outcome, rows: Rows, files: set<int>, v: int, highest: int, at: int -> Fault, done: seq<int>)
    requires v in files && v <= highest && ExtendedBy(whole, ApplyFrom(rows, files, v, highest, at), done)
    ensures var o := Step(rows, v, at(v));
      if o.ok then ExtendedBy(whole, ApplyFrom(o.rows, files, v + 1, highest, at), done + o.commits)
      else whole == Outcome(o.rows, done + o.commits, false)
  {
    var o := Step(rows, v, at(v));
    if o.ok {
      var rest := ApplyFrom(o.rows, files, v + 1, highest, at);
      assert done + (o.commits + rest.commits) == (done + o.commits) + rest.commits;
    }
  }
}
