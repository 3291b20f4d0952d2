/** The migration runner of src/db-migrations.ts: what is recorded decides what is pending, and several processes may run
    it at the same time over one database. */
module Migrations {
  import opened Options
  import opened Text

  datatype MigrationFile = MigrationFile(version: nat, checksum: string)

  /** The rows of schema_version: version to recorded checksum, absent for rows of a legacy install. */
  type Recorded = map<nat, Option<string>>

  /** loadMigrationFiles sorts the files and refuses two with one number. */
  ghost predicate Loaded(files: seq<MigrationFile>) {
    forall i, j :: 0 <= i < j < |files| ==> files[i].version < files[j].version
  }

  function Versions(files: seq<MigrationFile>): set<nat> {
    set f | f in files :: f.version
  }

  /** The files that are not recorded, in file order. */
  function Pending(recorded: Recorded, files: seq<MigrationFile>): seq<nat> {
    if files == [] then []
    else (if files[0].version in recorded then [] else [files[0].version]) + Pending(recorded, files[1..])
  }

  ghost predicate Ascending(vs: seq<nat>) {
    forall i, j :: 0 <= i < j < |vs| ==> vs[i] < vs[j]
  }

  lemma {:induction false} PendingMembers(recorded: Recorded, files: seq<MigrationFile>)
    requires Loaded(files)
    ensures forall v :: v in Pending(recorded, files) <==> v in Versions(files) && v !in recorded
    ensures Ascending(Pending(recorded, files))
  {
    if files != [] {
      VersionsHead(files);
      hide Loaded, Versions;
      PendingMembers(recorded, files[1..]);
      var rest := Pending(recorded, files[1..]);
      forall k | 0 <= k < |rest| ensures files[0].version < rest[k] { assert rest[k] in rest; }
    }
  }

  lemma VersionsHead(files: seq<MigrationFile>)
    requires Loaded(files) && files != []
    ensures Loaded(files[1..]) && Versions(files) == {files[0].version} + Versions(files[1..])
    ensures forall v :: v in Versions(files[1..]) ==> files[0].version < v
  {
    assert files == [files[0]] + files[1..];
  }

  /** An ascending list is determined by its members. */
  lemma {:induction false} AscendingUnique(a: seq<nat>, b: seq<nat>)
    requires Ascending(a) && Ascending(b)
    requires forall v :: v in a <==> v in b
    ensures a == b
  {
    if a == [] {
      assert forall k :: 0 <= k < |b| ==> b[k] in a;
    } else {
      assert a[0] in b;
      assert b[0] in a;
      assert a[0] == b[0];
      assert a == [a[0]] + a[1..] && b == [b[0]] + b[1..];
      forall v ensures v in a[1..] <==> v in b[1..] {
        if v in a[1..] { assert v in a && v > a[0]; assert v in b; }
        if v in b[1..] { assert v in b && v > b[0]; assert v in a; }
      }
      AscendingUnique(a[1..], b[1..]);
    }
  }

  // ---- one migration -----------------------------------------------------

  /** A database as the runner uses it: what is recorded, and the scripts that ran and were committed, in order. */
  datatype Db = Db(recorded: Recorded, executed: seq<nat>)

  datatype Tx = Skipped | Applied | RolledBack

  /** One IMMEDIATE transaction: re-check under the lock, run the script, record it; a failing script leaves nothing. */
  function ApplyTx(db: Db, m: MigrationFile, sqlOk: bool): (Db, Tx) {
    if m.version in db.recorded then (db, Skipped)
    else if !sqlOk then (db, RolledBack)
    else (Db(db.recorded[m.version := Some(m.checksum)], db.executed + [m.version]), Applied)
  }

  // ---- several runners at once -------------------------------------------

  /** A runner holds the snapshot it read at its start, which may be out of date, and the next file to look at. */
  datatype Runner = NotStarted | Running(snapshot: set<nat>, next: nat) | Aborted

  datatype World = World(db: Db, runners: map<nat, Runner>)

  /** The scheduler lets one runner take its next atomic step. */
  datatype Tick = Tick(runner: nat, strict: bool, sqlOk: bool)

  function StateOf(w: World, r: nat): Runner {
    if r in w.runners then w.runners[r] else NotStarted
  }

  predicate NewerThanCode(recorded: Recorded, files: seq<MigrationFile>) {
    exists v :: v in recorded.Keys && forall k :: 0 <= k < |files| ==> files[k].version < v
  }

  function Step(w: World, files: seq<MigrationFile>, t: Tick): World {
    match StateOf(w, t.runner)
    case Aborted => w
    case NotStarted =>
      if t.strict && files != [] && NewerThanCode(w.db.recorded, files) then w.(runners := w.runners[t.runner := Aborted])
      else w.(runners := w.runners[t.runner := Running(w.db.recorded.Keys, 0)])
    case Running(snapshot, next) =>
      if next >= |files| then w
      else if files[next].version in snapshot then w.(runners := w.runners[t.runner := Running(snapshot, next + 1)])
      else
        var (db, tx) := ApplyTx(w.db, files[next], t.sqlOk);
        World(db, w.runners[t.runner := if tx.RolledBack? then Aborted else Running(snapshot, next + 1)])
  }

  function Exec(w: World, files: seq<MigrationFile>, ticks: seq<Tick>): World
    decreases |ticks|
  {
    if ticks == [] then w else Step(Exec(w, files, ticks[..|ticks| - 1]), files, ticks[|ticks| - 1])
  }

  predicate Finished(w: World, files: seq<MigrationFile>, r: nat) {
    StateOf(w, r).Running? && StateOf(w, r).next >= |files|
  }

  /** Files up to index `n` are recorded. */
  ghost predicate RecordedUpTo(db: Db, files: seq<MigrationFile>, n: nat) {
    forall k :: 0 <= k < n && k < |files| ==> files[k].version in db.recorded
  }

  /** What holds of the database at every moment, whoever is running. */
  ghost predicate DbInv(db: Db, init: Recorded, files: seq<MigrationFile>) {
    && (forall v :: v in db.recorded <==> v in init || v in db.executed)
    && (forall v :: v in init ==> v in db.recorded && db.recorded[v] == init[v])
    && Ascending(db.executed)
    && (forall v :: v in db.executed ==> v !in init && v in Versions(files))
    && (forall k :: 0 <= k < |files| && files[k].version in db.executed ==>
          db.recorded[files[k].version] == Some(files[k].checksum) && RecordedUpTo(db, files, k))
  }

  /** What holds of every runner: its snapshot is still true, and everything before its position is recorded. */
  ghost predicate RunnerInv(s: Runner, db: Db, files: seq<MigrationFile>) {
    s.Running? ==> s.snapshot <= db.recorded.Keys && RecordedUpTo(db, files, s.next)
  }

  ghost predicate Inv(w: World, init: Recorded, files: seq<MigrationFile>) {
    DbInv(w.db, init, files) && forall r :: r in w.runners ==> RunnerInv(w.runners[r], w.db, files)
  }

  /** Running a script keeps the database in order, because everything before it is already there. */
  lemma ApplyKeeps(db: Db, init: Recorded, files: seq<MigrationFile>, i: nat)
    requires Loaded(files) && DbInv(db, init, files) && i < |files| && RecordedUpTo(db, files, i)
    requires files[i].version !in db.recorded
    ensures DbInv(ApplyTx(db, files[i], true).0, init, files)
  {
    var m := files[i];
    var after := ApplyTx(db, m, true).0;
    forall v | v in db.executed ensures v < m.version {
      var f :| f in files && f.version == v;
      var k :| 0 <= k < |files| && files[k] == f;
      assert RecordedUpTo(db, files, k);
    }
    forall x | 0 <= x < |db.executed| ensures db.executed[x] < m.version { assert db.executed[x] in db.executed; }
    forall k | 0 <= k < |files| && files[k].version in after.executed
      ensures after.recorded[files[k].version] == Some(files[k].checksum) && RecordedUpTo(after, files, k)
    {
      if k != i { assert files[k].version != m.version; assert files[k].version in db.executed; }
    }
    assert m in files;
  }

  lemma StepKeeps(w: World, init: Recorded, files: seq<MigrationFile>, t: Tick)
    requires Loaded(files) && Inv(w, init, files)
    ensures Inv(Step(w, files, t), init, files)
    ensures w.db.executed <= Step(w, files, t).db.executed
  {
    var s := StateOf(w, t.runner);
    hide DbInv;
    if s.Running? && s.next < |files| && files[s.next].version !in s.snapshot && t.sqlOk
       && files[s.next].version !in w.db.recorded {
      ApplyKeeps(w.db, init, files, s.next);
    }
  }

  lemma {:induction false} ExecKeeps(w: World, init: Recorded, files: seq<MigrationFile>, ticks: seq<Tick>)
    requires Loaded(files) && Inv(w, init, files)
    ensures Inv(Exec(w, files, ticks), init, files)
    ensures w.db.executed <= Exec(w, files, ticks).db.executed
    decreases |ticks|
  {
    hide Inv;
    hide Step;
    if ticks != [] {
      var shorter := ticks[..|ticks| - 1];
      ExecKeeps(w, init, files, shorter);
      StepKeeps(Exec(w, files, shorter), init, files, ticks[|ticks| - 1]);
    }
  }

  function Fresh(init: Recorded): World {
    World(Db(init, []), map[])
  }

  /** Any number of runners, any interleaving, any scripts failing: no script runs twice or again, scripts run in
      strictly ascending order of version, nothing recorded before is lost or changed, and every runner finds all files
      before its position recorded. */
  lemma RunnersAreSafe(init: Recorded, files: seq<MigrationFile>, ticks: seq<Tick>)
    requires Loaded(files)
    ensures var w := Exec(Fresh(init), files, ticks);
            && Ascending(w.db.executed)
            && (forall v :: v in w.db.executed ==> v !in init && v in Versions(files))
            && (forall v :: v in w.db.recorded <==> v in init || v in w.db.executed)
            && (forall v :: v in init ==> w.db.recorded[v] == init[v])
            && (forall f :: f in files && f.version in w.db.executed ==> w.db.recorded[f.version] == Some(f.checksum))
            && (forall r :: r in w.runners && w.runners[r].Running? ==> RecordedUpTo(w.db, files, w.runners[r].next))
  {
    ExecKeeps(Fresh(init), init, files, ticks);
  }

  /** Steps of one runner, none of whose scripts fails. */
  function Steps(r: nat, n: nat): seq<Tick> {
    seq(n, _ => Tick(r, false, true))
  }

  lemma {:induction false} StepsAhead(w: World, files: seq<MigrationFile>, r: nat, n: nat)
    requires !StateOf(w, r).Aborted? && n > 0
    ensures var s := StateOf(Exec(w, files, Steps(r, n)), r); s.Running? && (s.next >= n - 1 || s.next >= |files|)
  {
    assert Steps(r, n)[..n - 1] == Steps(r, n - 1) && Steps(r, n)[n - 1] == Tick(r, false, true);
    hide ApplyTx;
    if n > 1 {
      StepsAhead(w, files, r, n - 1);
    } else {
      assert Exec(w, files, Steps(r, 0)) == w;
    }
    NeverRolledBack(Exec(w, files, Steps(r, n - 1)).db);
  }

  lemma NeverRolledBack(db: Db)
    ensures forall m :: !ApplyTx(db, m, true).1.RolledBack?
  {
  }

  /** Nothing another runner has done keeps a runner from finishing: wherever it stands, one step and one for each file, with no
      failing script, bring it to the end. */
  lemma NobodyBlocks(w: World, files: seq<MigrationFile>, r: nat)
    requires !StateOf(w, r).Aborted?
    ensures Finished(Exec(w, files, Steps(r, |files| + 1)), files, r)
  {
    StepsAhead(w, files, r, |files| + 1);
  }

  /** Once one runner has finished, exactly the scripts that were pending have run, in order, whoever ran them: also the
      ones whose number lies below the highest recorded version. Nothing is pending any more. */
  lemma FinishedMeansDone(init: Recorded, files: seq<MigrationFile>, ticks: seq<Tick>, r: nat)
    requires Loaded(files) && Finished(Exec(Fresh(init), files, ticks), files, r)
    ensures var w := Exec(Fresh(init), files, ticks);
            w.db.executed == Pending(init, files) && Pending(w.db.recorded, files) == []
  {
    var w := Exec(Fresh(init), files, ticks);
    ExecKeeps(Fresh(init), init, files, ticks);
    PendingMembers(init, files);
    HasMember(Pending(w.db.recorded, files));
    PendingMembers(w.db.recorded, files);
    assert RecordedUpTo(w.db, files, |files|);
    forall v | v in Versions(files) ensures v in w.db.recorded {
      var f :| f in files && f.version == v;
    }
    AscendingUnique(w.db.executed, Pending(init, files));
  }

  /** From then on, runners old and new execute nothing. */
  lemma RerunExecutesNothing(init: Recorded, files: seq<MigrationFile>, ticks: seq<Tick>, more: seq<Tick>, r: nat)
    requires Loaded(files) && Finished(Exec(Fresh(init), files, ticks), files, r)
    ensures Exec(Exec(Fresh(init), files, ticks), files, more).db == Exec(Fresh(init), files, ticks).db
  {
    var w := Exec(Fresh(init), files, ticks);
    ExecKeeps(Fresh(init), init, files, ticks);
    assert RecordedUpTo(w.db, files, |files|);
    NothingToDo(w, files, more);
  }

  lemma {:induction false} NothingToDo(w: World, files: seq<MigrationFile>, ticks: seq<Tick>)
    requires RecordedUpTo(w.db, files, |files|)
    ensures Exec(w, files, ticks).db == w.db
    decreases |ticks|
  {
    if ticks != [] { NothingToDo(w, files, ticks[..|ticks| - 1]); }
  }

  // ---- the report --------------------------------------------------------

  const KNOWN_SAFE: set<nat> := {4, 52, 56, 41, 44, 63}

  /** The report; the lists over recorded versions are ascending in the source and sets here. */
  datatype SchemaReport = SchemaReport(
    dbMax: nat, codeMax: nat, appliedCount: nat, pending: seq<nat>,
    dbAhead: set<nat>, missingFile: set<nat>, mismatched: set<nat>)

  ghost function MaxOf(s: set<nat>): (m: nat)
    ensures forall v :: v in s ==> v <= m
    ensures s != {} ==> m in s
    ensures s == {} ==> m == 0
  {
    if s == {} then 0
    else
      var x :| x in s;
      var rest := MaxOf(s - {x});
      assert s == {x} + (s - {x});
      if x >= rest then x else rest
  }

  ghost function Describe(recorded: Recorded, files: seq<MigrationFile>): SchemaReport {
    var codeMax := MaxOf(Versions(files));
    SchemaReport(
      MaxOf(recorded.Keys), codeMax, |recorded.Keys|, Pending(recorded, files),
      set v | v in recorded.Keys && v > codeMax,
      set v | v in recorded.Keys && v <= codeMax && v !in Versions(files),
      set f | f in files && f.version in recorded && recorded[f.version].Some? && recorded[f.version].value != f.checksum
              && f.version !in KNOWN_SAFE :: f.version)
  }

  /** The report splits what is recorded and what is shipped: a recorded version is ahead, without a file, or has a
      file, and never two of these; a shipped one is pending or recorded, never both. */
  lemma ReportPartitions(recorded: Recorded, files: seq<MigrationFile>)
    requires Loaded(files)
    ensures var d := Describe(recorded, files); var known := recorded.Keys * Versions(files);
            && recorded.Keys == d.dbAhead + d.missingFile + known
            && d.dbAhead !! d.missingFile !! known
            && (forall v :: v in Versions(files) <==> v in d.pending || v in known)
            && (forall v :: v in d.pending ==> v !in known)
  {
    hide *;
    PendingMembers(recorded, files);
    DescribeIs(recorded, files);
    var d := Describe(recorded, files);
    var known := recorded.Keys * Versions(files);
    assert recorded.Keys == d.dbAhead + d.missingFile + known;
    assert d.dbAhead * d.missingFile == {} && (d.dbAhead + d.missingFile) * known == {};
  }

  lemma DescribeIs(recorded: Recorded, files: seq<MigrationFile>)
    ensures var d := Describe(recorded, files);
            && d.pending == Pending(recorded, files)
            && (forall v :: v in Versions(files) ==> v <= d.codeMax)
            && (forall v :: v in d.dbAhead <==> v in recorded && v > d.codeMax)
            && (forall v :: v in d.missingFile <==> v in recorded && v <= d.codeMax && v !in Versions(files))
  {
    hide Pending, MaxOf, Versions;
  }

  /** A checksum is only ever compared for a version that is both recorded and shipped. */
  lemma MismatchedAreKnown(recorded: Recorded, files: seq<MigrationFile>)
    ensures Describe(recorded, files).mismatched <= recorded.Keys * Versions(files) - KNOWN_SAFE
  {
    hide Pending;
    hide MaxOf;
  }

  /** The version of an edited file: recorded with another checksum than it has now, its edit not known to be safe. */
  predicate Edited(recorded: Recorded, f: MigrationFile) {
    f.version in recorded && recorded[f.version].Some? && recorded[f.version].value != f.checksum && f.version !in {4, 41, 44, 52, 56, 63}
  }

  /** Entry by entry what the report says: the highest recorded and shipped versions, zero if there are none, how many are
      recorded, which are ahead of the code, have no file, or were edited. */
  lemma ReportIs(recorded: Recorded, files: seq<MigrationFile>, v: nat)
    ensures var d := Describe(recorded, files);
            && (recorded == map[] ==> d.dbMax == 0) && (recorded != map[] ==> d.dbMax in recorded) && (v in recorded ==> v <= d.dbMax)
            && (files == [] ==> d.codeMax == 0) && (files != [] ==> exists f :: f in files && f.version == d.codeMax)
            && (forall f :: f in files ==> f.version <= d.codeMax)
            && d.appliedCount == |recorded|
            && (v in d.dbAhead <==> v in recorded && v > d.codeMax)
            && (v in d.missingFile <==> v in recorded && v <= d.codeMax && forall f :: f in files ==> f.version != v)
            && (v in d.mismatched <==> exists f :: f in files && f.version == v && Edited(recorded, f))
  {
    hide Pending, MaxOf;
    var d := Describe(recorded, files);
    assert forall f :: f in files ==> f.version in Versions(files);
    if files == [] {
      assert Versions(files) == {};
    } else {
      assert files[0].version in Versions(files);
    }
    assert recorded == map[] <==> recorded.Keys == {};
    assert |recorded| == |recorded.Keys|;
  }

  /** The database is newer than the code, for the strict check and for the warning alike, exactly when its highest
      version lies above every file. */
  lemma AheadIffMax(recorded: Recorded, files: seq<MigrationFile>)
    requires files != []
    ensures var d := Describe(recorded, files);
            && (d.dbAhead != {} <==> d.dbMax > d.codeMax)
            && (d.dbAhead != {} <==> NewerThanCode(recorded, files))
  {
    hide Pending;
    hide MaxOf;
    var d := Describe(recorded, files);
    assert files[0] in files;
    assert files[0].version in Versions(files);
    var f :| f in files && f.version == d.codeMax;
    assert forall k :: 0 <= k < |files| ==> files[k] in files && files[k].version in Versions(files);
    if d.dbMax > d.codeMax { assert d.dbMax in d.dbAhead; }
    if v :| v in d.dbAhead { assert v in recorded.Keys; }
    if NewerThanCode(recorded, files) {
      var v :| v in recorded.Keys && forall k :: 0 <= k < |files| ==> files[k].version < v;
      assert v in d.dbAhead;
    }
  }

  // ---- one runner on its own ---------------------------------------------

  /** How one call to the runner ends: done, refused because the database is newer, or stopped by a script that threw. */
  datatype Outcome = Done | Refused | FailedAt(version: nat)

  class SchemaDb {
    var recorded: Recorded
    var executed: seq<nat>
    ghost var lastSchemaReport: Option<SchemaReport>

    constructor (init: Recorded)
      ensures recorded == init && executed == [] && lastSchemaReport == None
    {
      recorded, executed, lastSchemaReport := init, [], None;
    }

    /** applyMigration: one transaction. */
    method ApplyMigration(m: MigrationFile, sqlOk: bool) returns (ok: bool)
      modifies this`recorded, this`executed
      ensures Db(recorded, executed) == ApplyTx(Db(old(recorded), old(executed)), m, sqlOk).0
      ensures ok <==> !ApplyTx(Db(old(recorded), old(executed)), m, sqlOk).1.RolledBack?
    {
      if m.version in recorded {
        return true;
      }
      if !sqlOk {
        return false;
      }
      executed := executed + [m.version];
      recorded := recorded[m.version := Some(m.checksum)];
      return true;
    }

    /** applyMigrations, alone with the database; `broken` are the versions whose SQL throws. On success exactly the
        pending scripts have run, in order, and the report says so; a failing script stops the run with everything before
        it applied and nothing of it left. */
    method ApplyMigrations(files: seq<MigrationFile>, strict: bool, broken: set<nat>) returns (outcome: Outcome)
      requires Loaded(files)
      modifies this
      ensures outcome.Refused? <==> strict && files != [] && NewerThanCode(old(recorded), files)
      ensures outcome.Refused? ==> Db(recorded, executed) == Db(old(recorded), old(executed)) && lastSchemaReport == old(lastSchemaReport)
      ensures outcome.Done? ==> Db(recorded, executed) == Ran(Db(old(recorded), old(executed)), files) && Pending(recorded, files) == []
      ensures outcome.Done? && files != [] ==> lastSchemaReport == Some(Describe(recorded, files))
      ensures outcome.Done? <==>
                !outcome.Refused? && forall v :: v in Pending(old(recorded), files) ==> v !in broken
      ensures outcome.FailedAt? ==>
                && outcome.version in broken && outcome.version in Pending(old(recorded), files)
                && lastSchemaReport == old(lastSchemaReport)
                && exists n :: 0 <= n < |files| && files[n].version == outcome.version
                     && Db(recorded, executed) == Ran(Db(old(recorded), old(executed)), files[..n])
    {
      hide *;
      RanNothing(Db(recorded, executed));
      if files == [] {
        return Done;
      }
      if strict && NewerThanCode(recorded, files) {
        return Refused;
      }
      var applied := recorded;
      assert files[..0] == [];
      ghost var start := Db(recorded, executed);
      assert start.recorded == applied;
      for i := 0 to |files|
        invariant Db(recorded, executed) == Ran(start, files[..i])
        invariant forall v :: v in Pending(applied, files[..i]) ==> v !in broken
        invariant lastSchemaReport == old(lastSchemaReport)
      {
        var m := files[i];
        PendingGrows(applied, files, i);
        RanOne(start, files, i);
        if m.version in applied {
          continue;
        }
        var ok := ApplyMigration(m, m.version !in broken);
        if !ok {
          RunFails(start, files, i);
          return FailedAt(m.version);
        }
      }
      assert files[..|files|] == files;
      RanAll(start, files);
      lastSchemaReport := Some(Describe(recorded, files));
      return Done;
    }
  }

  /** The database after a run over `files` that met no broken script. */
  function Ran(db: Db, files: seq<MigrationFile>): Db {
    Db(RecordAll(db.recorded, files), db.executed + Pending(db.recorded, files))
  }

  function RecordAll(recorded: Recorded, files: seq<MigrationFile>): Recorded {
    if files == [] then recorded
    else
      var before, m := RecordAll(recorded, files[..|files| - 1]), files[|files| - 1];
      if m.version in recorded then before else before[m.version := Some(m.checksum)]
  }

  lemma {:induction false} RecordAllKeys(recorded: Recorded, files: seq<MigrationFile>)
    ensures forall v :: v in RecordAll(recorded, files) <==> v in recorded || v in Versions(files)
  {
    if files != [] {
      var n := |files| - 1;
      RecordAllKeys(recorded, files[..n]);
      assert files == files[..n] + [files[n]];
      VersionsGrow(files[..n], files[n]);
    }
  }

  /** Each script that ran is recorded with its own checksum, and nothing recorded before changes. */
  lemma {:induction false} RecordAllIs(recorded: Recorded, files: seq<MigrationFile>)
    requires Loaded(files)
    ensures var after := RecordAll(recorded, files);
            && (forall v :: v in recorded ==> v in after && after[v] == recorded[v])
            && (forall f :: f in files && f.version !in recorded ==> f.version in after && after[f.version] == Some(f.checksum))
  {
    if files != [] {
      var n := |files| - 1;
      assert Loaded(files[..n]);
      RecordAllIs(recorded, files[..n]);
      NotBefore(files, n);
      assert files == files[..n] + [files[n]];
      assert forall f :: f in files[..n] ==> f.version in Versions(files[..n]);
    }
  }

  lemma RanNothing(db: Db)
    ensures Ran(db, []) == db && Pending(db.recorded, []) == []
  {
    assert db.executed + [] == db.executed;
  }

  /** One file more: skipped when it was recorded at the start, else one transaction that applies it. */
  lemma RanOne(db: Db, files: seq<MigrationFile>, i: nat)
    requires Loaded(files) && i < |files|
    ensures files[i].version in db.recorded ==> Ran(db, files[..i + 1]) == Ran(db, files[..i])
    ensures files[i].version !in db.recorded ==>
              && ApplyTx(Ran(db, files[..i]), files[i], true) == (Ran(db, files[..i + 1]), Applied)
              && ApplyTx(Ran(db, files[..i]), files[i], false) == (Ran(db, files[..i]), RolledBack)
  {
    PendingGrows(db.recorded, files, i);
    RecordAllKeys(db.recorded, files[..i]);
    NotBefore(files, i);
    hide Pending;
    hide Versions;
    var a, b, m := files[..i], files[..i + 1], files[i];
    assert b[..|b| - 1] == a && b[|b| - 1] == m;
    assert RecordAll(db.recorded, b) ==
           if m.version in db.recorded then RecordAll(db.recorded, a) else RecordAll(db.recorded, a)[m.version := Some(m.checksum)];
    Regroup(db.executed, Pending(db.recorded, a), [m.version]);
    assert Pending(db.recorded, a) + [] == Pending(db.recorded, a);
  }

  lemma VersionsGrow(a: seq<MigrationFile>, m: MigrationFile)
    ensures Versions(a + [m]) == Versions(a) + {m.version}
  {
    forall v | v in Versions(a) + {m.version} ensures v in Versions(a + [m]) {
      if v == m.version { assert m in a + [m]; } else { var f :| f in a && f.version == v; assert f in a + [m]; }
    }
  }

  lemma RunFails(db: Db, files: seq<MigrationFile>, i: nat)
    requires Loaded(files) && i < |files| && files[i].version !in db.recorded
    ensures files[i].version in Pending(db.recorded, files)
  {
    PendingMembers(db.recorded, files);
    assert files[i] in files;
  }

  lemma RanAll(db: Db, files: seq<MigrationFile>)
    requires Loaded(files)
    ensures Pending(Ran(db, files).recorded, files) == []
  {
    HasMember(Pending(Ran(db, files).recorded, files));
    PendingMembers(Ran(db, files).recorded, files);
    RecordAllKeys(db.recorded, files);
  }

  lemma HasMember(p: seq<nat>)
    ensures p == [] || exists v :: v in p
  {
    if p != [] { assert p[0] in p; }
  }

  lemma NotBefore(files: seq<MigrationFile>, i: nat)
    requires Loaded(files) && i < |files|
    ensures files[i].version !in Versions(files[..i])
  {
  }

  lemma {:induction false} PendingGrows(recorded: Recorded, files: seq<MigrationFile>, i: nat)
    requires i < |files|
    ensures Pending(recorded, files[..i + 1]) ==
            Pending(recorded, files[..i]) + (if files[i].version in recorded then [] else [files[i].version])
  {
    if i == 0 {
      assert files[..1] == [files[0]] && files[..0] == [];
      assert Pending(recorded, []) == [];
    } else {
      PendingGrows(recorded, files[1..], i - 1);
      assert files[..i + 1][1..] == files[1..][..i] && files[..i][1..] == files[1..][..i - 1];
    }
  }
}
