/** The migration runner: every file's effect and its row land together or not at all, run after run. */
module Migrations {
  import opened Wrappers

  datatype File = File(version: string, name: string, sql: string, checksum: string)

  /** A row of schema_migrations. */
  datatype Row = Row(name: string, checksum: string)

  /** `applied` lists the files whose statements were committed, in the order of their commits. */
  datatype Db = Db(rows: map<string, Row>, applied: seq<File>)

  /** What goes wrong at a file: nothing, or the run stops there. A commit whose answer is lost may have landed. */
  datatype Fault = NoFault | ReadFails | BeginFails | ExecFails | CommitFails(landed: bool)

  /** Why a run stopped before the end. */
  datatype Stop = Failed(version: string) | ChecksumChanged(version: string)

  function Committed(db: Db, f: File): Db {
    Db(db.rows[f.version := Row(f.name, f.checksum)], db.applied + [f])
  }

  /** One file of the loop: None means go on. */
  function ApplyFile(db: Db, f: File, fault: Fault): (Option<Stop>, Db) {
    if fault.ReadFails? then (Some(Failed(f.version)), db)
    else if f.version in db.rows then
      (if db.rows[f.version].checksum != f.checksum then Some(ChecksumChanged(f.version)) else None, db)
    else
      match fault
      case NoFault => (None, Committed(db, f))
      case CommitFails(landed) => (Some(Failed(f.version)), if landed then Committed(db, f) else db)
      case _ => (Some(Failed(f.version)), db)
  }

  /** The run over the first `n` files; a stop ends it. */
  function RunTo(db: Db, files: seq<File>, faults: nat -> Fault, n: nat): (Option<Stop>, Db)
    requires n <= |files|
  {
    if n == 0 then (None, db)
    else
      var before := RunTo(db, files, faults, n - 1);
      if before.0.Some? then before else ApplyFile(before.1, files[n - 1], faults(n - 1))
  }

  function Run(db: Db, files: seq<File>, faults: nat -> Fault): (Option<Stop>, Db) {
    RunTo(db, files, faults, |files|)
  }

  function Undisturbed(i: nat): Fault {
    NoFault
  }

  lemma {:induction false} StoppedStays(db: Db, files: seq<File>, faults: nat -> Fault, n: nat, m: nat)
    requires n <= m <= |files| && RunTo(db, files, faults, n).0.Some?
    ensures RunTo(db, files, faults, m) == RunTo(db, files, faults, n)
    decreases m - n
  {
    if n < m {
      StoppedStays(db, files, faults, n, m - 1);
    }
  }

  class Database {
    var rows: map<string, Row>
    var applied: seq<File>

    ghost function Snapshot(): Db
      reads this
    {
      Db(rows, applied)
    }

    /** One transaction: the statements and the row, or neither. */
    method Apply(f: File, fault: Fault) returns (ok: bool)
      requires f.version !in rows && !fault.ReadFails?
      modifies this
      ensures (if ok then None else Some(Failed(f.version)), Snapshot()) == ApplyFile(old(Snapshot()), f, fault)
    {
      if fault.BeginFails? || fault.ExecFails? {
        return false;
      }
      if fault.CommitFails? && !fault.landed {
        return false;
      }
      applied := applied + [f];
      rows := rows[f.version := Row(f.name, f.checksum)];
      return !fault.CommitFails?;
    }

    method Migrate(files: seq<File>, faults: nat -> Fault) returns (stop: Option<Stop>)
      modifies this
      ensures (stop, Snapshot()) == Run(old(Snapshot()), files, faults)
    {
      for i := 0 to |files|
        invariant RunTo(old(Snapshot()), files, faults, i) == (None, Snapshot())
      {
        var f := files[i];
        var fault := faults(i);
        if fault.ReadFails? {
          StoppedStays(old(Snapshot()), files, faults, i + 1, |files|);
          return Some(Failed(f.version));
        }
        if f.version in rows {
          if rows[f.version].checksum != f.checksum {
            StoppedStays(old(Snapshot()), files, faults, i + 1, |files|);
            return Some(ChecksumChanged(f.version));
          }
          continue;
        }
        var ok := Apply(f, fault);
        if !ok {
          StoppedStays(old(Snapshot()), files, faults, i + 1, |files|);
          return Some(Failed(f.version));
        }
      }
      return None;
    }
  }

  // ---- What holds after any number of runs ----

  ghost predicate DistinctVersions(files: seq<File>) {
    forall i, j :: 0 <= i < j < |files| ==> files[i].version != files[j].version
  }

  /** Every version with a row is a committed file's, and the other way round. */
  ghost predicate RowsAreApplied(db: Db) {
    forall v :: v in db.rows <==> exists i :: 0 <= i < |db.applied| && db.applied[i].version == v
  }

  /** A version has its row exactly when its file's statements were committed, once, and the row describes that file. */
  ghost predicate Consistent(db: Db) {
    && DistinctVersions(db.applied)
    && RowsAreApplied(db)
    && forall i :: 0 <= i < |db.applied| ==>
         var f := db.applied[i];
         f.version in db.rows && db.rows[f.version] == Row(f.name, f.checksum)
  }

  lemma CommitKeepsRows(db: Db, f: File)
    requires RowsAreApplied(db)
    ensures RowsAreApplied(Committed(db, f))
  {
    var db' := Committed(db, f);
    forall v ensures v in db'.rows <==> exists i :: 0 <= i < |db'.applied| && db'.applied[i].version == v {
      if v in db.rows {
        var i :| 0 <= i < |db.applied| && db.applied[i].version == v;
        assert db'.applied[i].version == v;
      }
      assert db'.applied[|db.applied|] == f;
      if i :| 0 <= i < |db.applied| && db'.applied[i].version == v {
        assert db.applied[i].version == v;
      }
    }
  }

  lemma CommitKeepsConsistent(db: Db, f: File)
    requires Consistent(db) && f.version !in db.rows
    ensures Consistent(Committed(db, f))
  {
    CommitKeepsRows(db, f);
    hide RowsAreApplied;
  }

  lemma {:induction false} RunKeepsConsistent(db: Db, files: seq<File>, faults: nat -> Fault, n: nat)
    requires Consistent(db) && n <= |files|
    ensures Consistent(RunTo(db, files, faults, n).1)
    decreases n
  {
    hide Consistent, Committed;
    if n > 0 {
      RunKeepsConsistent(db, files, faults, n - 1);
      var before := RunTo(db, files, faults, n - 1).1;
      if files[n - 1].version !in before.rows {
        CommitKeepsConsistent(before, files[n - 1]);
      }
    }
  }

  /** Any runs, of any releases' files, one after the other. */
  ghost predicate Reached(db: Db, runs: seq<(seq<File>, nat -> Fault)>, end: Db)
    decreases |runs|
  {
    if runs == [] then db == end else Reached(Run(db, runs[0].0, runs[0].1).1, runs[1..], end)
  }

  /** However many runs fail or stop, and whatever files they bring: an effect is there exactly when it is recorded. */
  lemma {:induction false} EffectsMatchRows(db: Db, runs: seq<(seq<File>, nat -> Fault)>, end: Db)
    requires Consistent(db) && Reached(db, runs, end)
    ensures Consistent(end)
    decreases |runs|
  {
    if runs != [] {
      RunKeepsConsistent(db, runs[0].0, runs[0].1, |runs[0].0|);
      EffectsMatchRows(Run(db, runs[0].0, runs[0].1).1, runs[1..], end);
    }
  }

  /** The files not recorded yet, in order. */
  function Missing(rows: map<string, Row>, files: seq<File>): seq<File> {
    if files == [] then []
    else
      var last := files[|files| - 1];
      Missing(rows, files[..|files| - 1]) + (if last.version in rows then [] else [last])
  }

  function RowsOf(rows: map<string, Row>, added: seq<File>): map<string, Row> {
    if added == [] then rows
    else
      var last := added[|added| - 1];
      RowsOf(rows, added[..|added| - 1])[last.version := Row(last.name, last.checksum)]
  }

  lemma {:induction false} RowsOfHas(rows: map<string, Row>, added: seq<File>, v: string)
    requires DistinctVersions(added)
    ensures v in RowsOf(rows, added) <==> v in rows || exists i :: 0 <= i < |added| && added[i].version == v
    ensures forall i :: 0 <= i < |added| && added[i].version == v ==>
              v in RowsOf(rows, added) && RowsOf(rows, added)[v] == Row(added[i].name, added[i].checksum)
    ensures v in rows && (forall i :: 0 <= i < |added| ==> added[i].version != v) ==> RowsOf(rows, added)[v] == rows[v]
  {
    if added != [] {
      var n := |added| - 1;
      RowsOfHas(rows, added[..n], v);
      assert forall i :: 0 <= i < n ==> added[..n][i] == added[i];
    }
  }

  lemma {:induction false} MissingShape(rows: map<string, Row>, files: seq<File>)
    requires DistinctVersions(files)
    ensures DistinctVersions(Missing(rows, files))
    ensures forall i :: 0 <= i < |Missing(rows, files)| ==>
              Missing(rows, files)[i].version !in rows && Missing(rows, files)[i] in files
  {
    if files != [] {
      var n := |files| - 1;
      MissingShape(rows, files[..n]);
      var before := Missing(rows, files[..n]);
      forall i | 0 <= i < |before| ensures before[i].version != files[n].version {
        assert before[i] in files[..n];
      }
    }
  }

  lemma MissingNext(rows: map<string, Row>, files: seq<File>, n: nat)
    requires n < |files|
    ensures Missing(rows, files[..n + 1])
            == Missing(rows, files[..n]) + (if files[n].version in rows then [] else [files[n]])
  {
    assert files[..n + 1][..n] == files[..n];
  }

  lemma {:induction false} MissingGrows(rows: map<string, Row>, files: seq<File>, n: nat)
    requires n <= |files|
    ensures Missing(rows, files[..n]) <= Missing(rows, files)
    decreases |files| - n
  {
    if n == |files| {
      assert files[..n] == files;
    } else {
      MissingNext(rows, files, n);
      MissingGrows(rows, files, n + 1);
    }
  }

  /** The first `k` of the files that were missing at the start have been applied, and nothing else. */
  ghost predicate PartWay(start: Db, files: seq<File>, db: Db, k: nat) {
    var missing := Missing(start.rows, files);
    && k <= |missing| && db.applied == start.applied + missing[..k] && db.rows == RowsOf(start.rows, missing[..k])
  }

  lemma FileIsRecorded(start: Db, files: seq<File>, n: nat, k: nat)
    requires DistinctVersions(files) && n < |files| && k <= |Missing(start.rows, files)|
    ensures files[n].version in RowsOf(start.rows, Missing(start.rows, files)[..k])
            <==> files[n].version in start.rows || |Missing(start.rows, files[..n])| < k
    ensures files[n].version !in start.rows ==>
              var j := |Missing(start.rows, files[..n])|;
              j < |Missing(start.rows, files)| && Missing(start.rows, files)[j] == files[n]
  {
    var missing, j := Missing(start.rows, files), |Missing(start.rows, files[..n])|;
    MissingShape(start.rows, files);
    RowsOfHas(start.rows, missing[..k], files[n].version);
    MissingNext(start.rows, files, n);
    MissingGrows(start.rows, files, n + 1);
    if files[n].version !in start.rows {
      assert missing[j] == files[n];
      assert j < k ==> missing[..k][j] == files[n];
      assert forall i :: 0 <= i < k && i != j ==> missing[..k][i].version != files[n].version;
    }
  }

  lemma CommitIsNext(start: Db, files: seq<File>, db: Db, k: nat, f: File)
    requires PartWay(start, files, db, k) && k < |Missing(start.rows, files)| && Missing(start.rows, files)[k] == f
    ensures PartWay(start, files, Committed(db, f), k + 1)
  {
    var missing := Missing(start.rows, files);
    assert missing[..k + 1][..k] == missing[..k];
    assert missing[..k + 1] == missing[..k] + [f];
    assert start.applied + missing[..k] + [f] == start.applied + missing[..k + 1];
  }

  lemma OneFile(start: Db, files: seq<File>, n: nat, db: Db, k: nat, fault: Fault)
    requires DistinctVersions(files) && n < |files| && PartWay(start, files, db, k)
    requires |Missing(start.rows, files[..n])| <= k
    ensures var end := ApplyFile(db, files[n], fault);
            var j := |Missing(start.rows, files[..n])|;
            var needed := files[n].version !in start.rows;
            && (PartWay(start, files, end.1, k) || (needed && j == k && PartWay(start, files, end.1, k + 1)))
            && (end.0.None? && needed && j == k ==> PartWay(start, files, end.1, k + 1))
  {
    FileIsRecorded(start, files, n, k);
    if files[n].version !in db.rows {
      CommitIsNext(start, files, db, k, files[n]);
    }
  }

  /** A run goes on from where an earlier one stopped; it succeeds only when nothing is missing any more. */
  lemma {:induction false} RunGoesOn(start: Db, files: seq<File>, db: Db, k: nat, faults: nat -> Fault, n: nat)
    returns (k': nat)
    requires DistinctVersions(files) && PartWay(start, files, db, k) && n <= |files|
    ensures k <= k' && PartWay(start, files, RunTo(db, files, faults, n).1, k')
    ensures RunTo(db, files, faults, n).0.None? ==> |Missing(start.rows, files[..n])| <= k'
    decreases n
  {
    hide PartWay, DistinctVersions;
    k' := k;
    if n > 0 {
      k' := RunGoesOn(start, files, db, k, faults, n - 1);
      var before := RunTo(db, files, faults, n - 1);
      if before.0.None? {
        OneFile(start, files, n - 1, before.1, k', faults(n - 1));
        MissingNext(start.rows, files, n - 1);
        if !PartWay(start, files, RunTo(db, files, faults, n).1, k') || (RunTo(db, files, faults, n).0.None?
           && files[n - 1].version !in start.rows && |Missing(start.rows, files[..n - 1])| == k') {
          k' := k' + 1;
        }
      }
    }
  }

  /** Runs of one release's files, one after the other. */
  ghost predicate Reran(db: Db, files: seq<File>, runs: seq<nat -> Fault>, end: Db)
    decreases |runs|
  {
    if runs == [] then db == end else Reran(Run(db, files, runs[0]).1, files, runs[1..], end)
  }

  lemma {:induction false} RunsGoOn(start: Db, files: seq<File>, db: Db, k: nat, runs: seq<nat -> Fault>, end: Db)
    returns (k': nat)
    requires DistinctVersions(files) && PartWay(start, files, db, k) && Reran(db, files, runs, end)
    ensures PartWay(start, files, end, k')
    decreases |runs|
  {
    k' := k;
    if runs != [] {
      k' := RunGoesOn(start, files, db, k, runs[0], |files|);
      k' := RunsGoOn(start, files, Run(db, files, runs[0]).1, k', runs[1..], end);
    }
  }

  /** Any failed or interrupted runs followed by a successful one leave what one undisturbed run leaves, each
      missing file applied exactly once and in order. */
  lemma ResumedLikeUninterrupted(start: Db, files: seq<File>, runs: seq<nat -> Fault>, db: Db, last: nat -> Fault)
    requires DistinctVersions(files) && Reran(start, files, runs, db) && Run(db, files, last).0.None?
    ensures var missing := Missing(start.rows, files);
            Run(db, files, last).1 == Db(RowsOf(start.rows, missing), start.applied + missing)
    ensures Run(start, files, Undisturbed).0.None? ==> Run(db, files, last).1 == Run(start, files, Undisturbed).1
  {
    NothingDoneYet(start, files);
    var k := RunsGoOn(start, files, start, 0, runs, db);
    SuccessLeavesNothing(start, files, db, k, last);
    if Run(start, files, Undisturbed).0.None? {
      SuccessLeavesNothing(start, files, start, 0, Undisturbed);
    }
  }

  lemma NothingDoneYet(start: Db, files: seq<File>)
    ensures PartWay(start, files, start, 0)
  {
    var missing := Missing(start.rows, files);
    assert missing[..0] == [];
    assert start.applied + [] == start.applied;
  }

  lemma SuccessLeavesNothing(start: Db, files: seq<File>, db: Db, k: nat, faults: nat -> Fault)
    requires DistinctVersions(files) && PartWay(start, files, db, k) && Run(db, files, faults).0.None?
    ensures var missing := Missing(start.rows, files);
            Run(db, files, faults).1 == Db(RowsOf(start.rows, missing), start.applied + missing)
  {
    hide RunTo, Missing, RowsOf, DistinctVersions;
    var missing := Missing(start.rows, files);
    var k' := RunGoesOn(start, files, db, k, faults, |files|);
    assert files[..|files|] == files && missing[..|missing|] == missing;
  }

  /** A file a run gets past: applied before and not edited since, or applied now. */
  predicate Passes(rows: map<string, Row>, f: File, fault: Fault) {
    if f.version in rows then !fault.ReadFails? && rows[f.version].checksum == f.checksum else fault.NoFault?
  }

  /** Rows stay as they are, and new ones are those of files reached. */
  lemma {:induction false} RowsOnlyGrow(db: Db, files: seq<File>, faults: nat -> Fault, n: nat, v: string)
    requires n <= |files|
    ensures var rows := RunTo(db, files, faults, n).1.rows;
            && (v in db.rows ==> v in rows && rows[v] == db.rows[v])
            && (v in rows && v !in db.rows ==> exists i :: 0 <= i < n && files[i].version == v)
    decreases n
  {
    if n > 0 {
      RowsOnlyGrow(db, files, faults, n - 1, v);
      assert files[n - 1].version == v || v !in RunTo(db, files, faults, n).1.rows
             || v in RunTo(db, files, faults, n - 1).1.rows;
    }
  }

  /** A run succeeds exactly when no applied file was edited since and nothing goes wrong where it still matters:
      reading the rows of applied files, and the whole transaction of the others. */
  lemma {:induction false} SuccessExactly(db: Db, files: seq<File>, faults: nat -> Fault, n: nat)
    requires DistinctVersions(files) && n <= |files|
    ensures RunTo(db, files, faults, n).0.None? <==> forall i :: 0 <= i < n ==> Passes(db.rows, files[i], faults(i))
    decreases n
  {
    if n > 0 {
      SuccessExactly(db, files, faults, n - 1);
      RowsOnlyGrow(db, files, faults, n - 1, files[n - 1].version);
    }
  }

  /** What one file of the loop leaves: its statements and its row together, where the row was missing and the
      transaction went through or its commit landed without an answer, and otherwise nothing. */
  lemma FileLandsExactly(db: Db, f: File, fault: Fault)
    ensures var after := ApplyFile(db, f, fault).1;
            if f.version !in db.rows && fault in {NoFault, CommitFails(true)}
            then && after.applied == db.applied + [f] && after.rows.Keys == db.rows.Keys + {f.version}
                 && after.rows[f.version].name == f.name && after.rows[f.version].checksum == f.checksum
                 && forall v :: v in db.rows ==> after.rows[v] == db.rows[v]
            else after == db
  {
  }

  /** Where a run stops, and why: at the first file it does not get past, whose checksum changed if it was applied
      before and could be read. */
  lemma {:induction false} StopsExactly(db: Db, files: seq<File>, faults: nat -> Fault, n: nat, k: nat)
    requires DistinctVersions(files) && k < n <= |files|
    requires (forall i :: 0 <= i < k ==> Passes(db.rows, files[i], faults(i))) && !Passes(db.rows, files[k], faults(k))
    ensures RunTo(db, files, faults, n).0
            == Some(if files[k].version in db.rows && !faults(k).ReadFails? then ChecksumChanged(files[k].version)
                    else Failed(files[k].version))
    decreases n
  {
    if n - 1 > k {
      StopsExactly(db, files, faults, n - 1, k);
    } else {
      SuccessExactly(db, files, faults, k);
      RowsOnlyGrow(db, files, faults, k, files[k].version);
    }
  }

  lemma {:induction false} AllMissingAtFirst(files: seq<File>)
    ensures Missing(map[], files) == files
  {
    if files != [] {
      AllMissingAtFirst(files[..|files| - 1]);
    }
  }

  /** On a new database, failures or not, the files end up applied exactly once each, in their order. */
  lemma NewDatabaseGetsEveryFileOnce(files: seq<File>, runs: seq<nat -> Fault>, db: Db, last: nat -> Fault)
    requires DistinctVersions(files) && Reran(Db(map[], []), files, runs, db) && Run(db, files, last).0.None?
    ensures Run(db, files, last).1.applied == files && Consistent(Run(db, files, last).1)
    ensures Run(db, files, last).1 == Run(Db(map[], []), files, Undisturbed).1
  {
    var start := Db(map[], []);
    AllMissingAtFirst(files);
    ResumedLikeUninterrupted(start, files, runs, db, last);
    SuccessExactly(start, files, Undisturbed, |files|);
    RerunsAreConsistent(start, files, runs, db);
    RunKeepsConsistent(db, files, last, |files|);
  }

  lemma {:induction false} RerunsAreConsistent(db: Db, files: seq<File>, runs: seq<nat -> Fault>, end: Db)
    requires Consistent(db) && Reran(db, files, runs, end)
    ensures Consistent(end)
    decreases |runs|
  {
    if runs != [] {
      RunKeepsConsistent(db, files, runs[0], |files|);
      RerunsAreConsistent(Run(db, files, runs[0]).1, files, runs[1..], end);
    }
  }
}
