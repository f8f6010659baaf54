/** The migration runner: any number of runs, interleaved against one table of applied file names. */
module Migrations {
  import opened Records

  datatype File = File(name: string)

  /** Where a run stands: between files, inside a transaction whose script has run, inside one that has also
      inserted the file name, at the end of its list, or stopped by an error. */
  datatype Phase = Between | Opened | Holding | Finished | Failed

  /** `pending` is the list computed when the run started, `committed` how many of these files it committed. */
  datatype Run = Run(pending: seq<File>, committed: nat, phase: Phase)

  datatype Commit = Commit(file: File, run: nat)

  /** `before` holds the file names in the table at first, `log` the commits since then. */
  datatype Db = Db(before: set<File>, log: seq<Commit>, runs: seq<Run>)

  datatype Event =
    | Start
    | Open(run: nat)
    | Insert(run: nat)
    | CommitAcknowledged(run: nat)
    | CommitUnacknowledged(run: nat)
    | Fail(run: nat)

  function Files(log: seq<Commit>): (files: seq<File>)
    ensures |files| == |log| && forall i :: 0 <= i < |log| ==> files[i] == log[i].file
  {
    seq(|log|, i requires 0 <= i < |log| => log[i].file)
  }

  predicate InTable(db: Db, file: File) {
    file in db.before || file in Files(db.log)
  }

  /** The listed files that are not applied yet, in the order of the list. */
  function PendingFiles(files: seq<File>, applied: set<File>): (pending: seq<File>)
    ensures forall file :: file in pending <==> file in files && file !in applied
  {
    if files == [] then []
    else (if files[0] in applied then [] else [files[0]]) + PendingFiles(files[1..], applied)
  }

  function Table(db: Db): set<File> {
    db.before + Elements(Files(db.log))
  }

  /** Some run has inserted the file name in a transaction that is still open. */
  predicate Held(db: Db, file: File) {
    exists r :: 0 <= r < |db.runs| && HoldsFile(db.runs[r], file)
  }

  predicate HoldsFile(run: Run, file: File) {
    run.phase == Holding && run.committed < |run.pending| && run.pending[run.committed] == file
  }

  function SetRun(db: Db, r: nat, run: Run): Db
    requires r < |db.runs|
  {
    db.(runs := db.runs[r := run])
  }

  function CommitFile(db: Db, r: nat, phase: Phase): Db
    requires r < |db.runs| && db.runs[r].committed < |db.runs[r].pending|
  {
    var run := db.runs[r];
    var more := run.committed + 1;
    db.(log := db.log + [Commit(run.pending[run.committed], r)],
        runs := db.runs[r := Run(run.pending, more,
                                 if phase == Failed then Failed else if more == |run.pending| then Finished else Between)])
  }

  /** One step of one run. Transactions are atomic: what a transaction inserted shows only when it commits, and
      the primary key lets no transaction insert a name that is in the table or held by an open transaction.
      A step that is not possible changes nothing. */
  function Step(files: seq<File>, db: Db, e: Event): Db {
    match e
    case Start =>
      var pending := PendingFiles(files, Table(db));
      db.(runs := db.runs + [Run(pending, 0, if pending == [] then Finished else Between)])
    case Open(r) =>
      if r < |db.runs| && db.runs[r].phase == Between then SetRun(db, r, db.runs[r].(phase := Opened)) else db
    case Insert(r) =>
      if r < |db.runs| && db.runs[r].phase == Opened && db.runs[r].committed < |db.runs[r].pending| &&
         !InTable(db, db.runs[r].pending[db.runs[r].committed]) && !Held(db, db.runs[r].pending[db.runs[r].committed])
      then SetRun(db, r, db.runs[r].(phase := Holding)) else db
    case CommitAcknowledged(r) =>
      if r < |db.runs| && db.runs[r].phase == Holding && db.runs[r].committed < |db.runs[r].pending|
      then CommitFile(db, r, Between) else db
    case CommitUnacknowledged(r) =>
      if r < |db.runs| && db.runs[r].phase == Holding && db.runs[r].committed < |db.runs[r].pending|
      then CommitFile(db, r, Failed) else db
    case Fail(r) =>
      if r < |db.runs| && db.runs[r].phase in {Between, Opened, Holding}
      then SetRun(db, r, db.runs[r].(phase := Failed)) else db
  }

  function After(files: seq<File>, before: set<File>, events: seq<Event>): Db {
    if events == [] then Db(before, [], [])
    else Step(files, After(files, before, events[..|events| - 1]), events[|events| - 1])
  }

  // ----- the invariant -----

  /** A run's list is what was left of the initial list when it started, and it has committed no further than
      the log reaches. */
  ghost predicate RunSound(todo: seq<File>, db: Db, r: nat)
    requires r < |db.runs|
  {
    var run := db.runs[r];
    && |run.pending| <= |todo| && run.pending == todo[|todo| - |run.pending|..]
    && run.committed <= |run.pending|
    && |todo| - |run.pending| + run.committed <= |db.log|
    && (run.phase == Holding ==> run.committed < |run.pending| && |todo| - |run.pending| + run.committed == |db.log|)
    && (run.phase in {Between, Opened} ==> run.committed < |run.pending|)
    && (run.phase == Finished ==> run.committed == |run.pending|)
  }

  /** The committed files are the first ones of the initial list, and at most one run holds the next. */
  ghost predicate Sound(todo: seq<File>, db: Db) {
    && |db.log| <= |todo| && Files(db.log) == todo[..|db.log|]
    && (forall r :: 0 <= r < |db.runs| ==> RunSound(todo, db, r))
    && (forall r, q :: 0 <= r < q < |db.runs| ==> !(db.runs[r].phase == Holding && db.runs[q].phase == Holding))
    && (forall file :: file in todo ==> file !in db.before)
  }

  lemma {:induction false} PendingDistinct(files: seq<File>, applied: set<File>)
    requires NoRepeats(files)
    ensures NoRepeats(PendingFiles(files, applied))
  {
    if files != [] {
      PendingDistinct(files[1..], applied);
      assert files[0] !in files[1..];
    }
  }

  /** Applying a first part of the pending list leaves the rest of it pending. */
  lemma {:induction false} PendingAfterPrefix(files: seq<File>, before: set<File>, n: nat)
    requires NoRepeats(files) && n <= |PendingFiles(files, before)|
    ensures PendingFiles(files, before + Elements(PendingFiles(files, before)[..n])) == PendingFiles(files, before)[n..]
  {
    hide Elements, NoRepeats;
    var todo := PendingFiles(files, before);
    if files == [] {
      NoneIn(before, todo);
    } else {
      var rest := PendingFiles(files[1..], before);
      TailDistinct(files);
      if files[0] in before {
        assert todo == rest;
        PendingAfterPrefix(files[1..], before, n);
        StillIn(before, todo[..n], files[0]);
      } else if n == 0 {
        NoneIn(before, todo);
      } else {
        PendingAfterPrefix(files[1..], before, n - 1);
        FirstIn(before, files[0], rest, n);
        PendingIgnores(files[1..], before + Elements(rest[..n - 1]), files[0]);
        StillIn(before, todo[..n], files[0]);
      }
    }
  }

  lemma NoneIn(before: set<File>, files: seq<File>)
    ensures before + Elements(files[..0]) == before && files[0..] == files
  {
  }

  lemma StillIn(before: set<File>, files: seq<File>, file: File)
    ensures file in before || file in files ==> file in before + Elements(files)
  {
  }

  lemma FirstIn(before: set<File>, file: File, rest: seq<File>, n: nat)
    requires 0 < n <= |rest| + 1
    ensures before + Elements(([file] + rest)[..n]) == before + Elements(rest[..n - 1]) + {file}
    ensures ([file] + rest)[n..] == rest[n - 1..]
    ensures file in ([file] + rest)[..n]
  {
    assert ([file] + rest)[..n] == [file] + rest[..n - 1];
  }

  lemma OneMoreIn(before: set<File>, files: seq<File>, n: nat)
    requires n < |files|
    ensures before + Elements(files[..n + 1]) == before + Elements(files[..n]) + {files[n]}
  {
    assert files[..n + 1] == files[..n] + [files[n]];
  }

  lemma TailDistinct(files: seq<File>)
    requires NoRepeats(files) && files != []
    ensures NoRepeats(files[1..]) && files[0] !in files[1..]
  {
  }

  lemma {:induction false} PendingIgnores(files: seq<File>, applied: set<File>, file: File)
    requires file !in files
    ensures PendingFiles(files, applied + {file}) == PendingFiles(files, applied)
  {
    if files != [] {
      PendingIgnores(files[1..], applied, file);
      assert files[0] != file;
    }
  }

  lemma StartSound(files: seq<File>, before: set<File>, db: Db)
    requires NoRepeats(files) && db.before == before && Sound(PendingFiles(files, before), db)
    ensures Sound(PendingFiles(files, before), Step(files, db, Start))
  {
    hide PendingFiles, Table, NoRepeats;
    var todo := PendingFiles(files, before);
    StartsWithRest(files, before, db);
    var next := Step(files, db, Start);
    forall r | 0 <= r < |next.runs| ensures RunSound(todo, next, r) {
      if r < |db.runs| { assert RunSound(todo, db, r); }
    }
  }

  lemma StartsWithRest(files: seq<File>, before: set<File>, db: Db)
    requires NoRepeats(files) && db.before == before && Sound(PendingFiles(files, before), db)
    ensures PendingFiles(files, Table(db)) == PendingFiles(files, before)[|db.log|..]
  {
    hide RunSound;
    PendingAfterPrefix(files, before, |db.log|);
  }

  lemma SetRunSound(todo: seq<File>, db: Db, r: nat, phase: Phase)
    requires Sound(todo, db) && r < |db.runs|
    requires phase == Failed || (phase == Opened && db.runs[r].phase == Between)
    ensures Sound(todo, SetRun(db, r, db.runs[r].(phase := phase)))
  {
    var next := SetRun(db, r, db.runs[r].(phase := phase));
    forall q | 0 <= q < |next.runs| ensures RunSound(todo, next, q) {
      assert RunSound(todo, db, q);
    }
  }

  lemma InsertSound(todo: seq<File>, db: Db, r: nat)
    requires Sound(todo, db) && NoRepeats(todo)
    requires r < |db.runs| && db.runs[r].phase == Opened && db.runs[r].committed < |db.runs[r].pending|
    requires !InTable(db, db.runs[r].pending[db.runs[r].committed]) && !Held(db, db.runs[r].pending[db.runs[r].committed])
    ensures Sound(todo, SetRun(db, r, db.runs[r].(phase := Holding)))
  {
    var next := SetRun(db, r, db.runs[r].(phase := Holding));
    var file := db.runs[r].pending[db.runs[r].committed];
    assert RunSound(todo, db, r);
    var at := |todo| - |db.runs[r].pending| + db.runs[r].committed;
    assert todo[at] == file;
    assert forall k :: 0 <= k < |db.log| ==> Files(db.log)[k] == todo[k];
    forall q | 0 <= q < |db.runs| ensures db.runs[q].phase != Holding {
      assert RunSound(todo, db, q);
      assert !HoldsFile(db.runs[q], file);
    }
    forall q | 0 <= q < |next.runs| ensures RunSound(todo, next, q) {
      assert RunSound(todo, db, q);
    }
  }

  lemma CommitSound(todo: seq<File>, db: Db, r: nat, phase: Phase)
    requires Sound(todo, db) && r < |db.runs| && phase in {Between, Failed}
    requires db.runs[r].phase == Holding && db.runs[r].committed < |db.runs[r].pending|
    ensures Sound(todo, CommitFile(db, r, phase))
  {
    var next := CommitFile(db, r, phase);
    assert RunSound(todo, db, r);
    assert db.runs[r].pending[db.runs[r].committed] == todo[|db.log|];
    assert Files(next.log) == Files(db.log) + [todo[|db.log|]];
    assert todo[..|db.log| + 1] == todo[..|db.log|] + [todo[|db.log|]];
    forall q | 0 <= q < |next.runs| ensures RunSound(todo, next, q) {
      assert RunSound(todo, db, q);
    }
  }

  lemma StepSound(files: seq<File>, before: set<File>, db: Db, e: Event)
    requires NoRepeats(files) && db.before == before && Sound(PendingFiles(files, before), db)
    ensures Step(files, db, e).before == before && Sound(PendingFiles(files, before), Step(files, db, e))
  {
    hide Sound, InTable, Held, NoRepeats;
    var todo := PendingFiles(files, before);
    PendingDistinct(files, before);
    var next := Step(files, db, e);
    match e {
      case Start => StartSound(files, before, db);
      case Open(r) => if next != db { SetRunSound(todo, db, r, Opened); }
      case Insert(r) => if next != db { InsertSound(todo, db, r); }
      case CommitAcknowledged(r) => if next != db { CommitSound(todo, db, r, Between); }
      case CommitUnacknowledged(r) => if next != db { CommitSound(todo, db, r, Failed); }
      case Fail(r) => if next != db { SetRunSound(todo, db, r, Failed); }
    }
  }

  lemma {:induction false} AlwaysSound(files: seq<File>, before: set<File>, events: seq<Event>)
    requires NoRepeats(files)
    ensures After(files, before, events).before == before
    ensures Sound(PendingFiles(files, before), After(files, before, events))
  {
    if events != [] {
      AlwaysSound(files, before, events[..|events| - 1]);
      StepSound(files, before, After(files, before, events[..|events| - 1]), events[|events| - 1]);
    }
  }

  // ----- what it means -----

  /** Over every interleaving of runs, failures and restarts, the commits are a first part of the initially
      pending list, in order. So no file commits twice, and when one commits, every listed file before it is
      in the table. */
  lemma CommitsArePrefixOfPending(files: seq<File>, before: set<File>, events: seq<Event>)
    requires NoRepeats(files)
    ensures var log := Files(After(files, before, events).log);
            log <= PendingFiles(files, before) && NoRepeats(log)
    ensures forall m, i, j :: 0 <= m < |After(files, before, events).log| && 0 <= i < j < |files|
                              && Files(After(files, before, events).log)[m] == files[j]
                              ==> files[i] in before || files[i] in Files(After(files, before, events).log)[..m]
  {
    var todo := PendingFiles(files, before);
    AlwaysSound(files, before, events);
    PendingDistinct(files, before);
    var log := Files(After(files, before, events).log);
    forall m, i, j | 0 <= m < |log| && 0 <= i < j < |files| && log[m] == files[j]
      ensures files[i] in before || files[i] in log[..m]
    {
      assert todo[m] == files[j];
      EarlierPending(files, before, i, j, m);
      assert log[..m] == todo[..m];
    }
  }

  lemma PendingFirst(files: seq<File>, applied: set<File>)
    requires files != []
    ensures PendingFiles(files, applied) ==
            (if files[0] in applied then [] else [files[0]]) + PendingFiles(files[1..], applied)
    ensures files[0] in applied ==> PendingFiles(files, applied) == PendingFiles(files[1..], applied)
  {
  }

  lemma {:induction false} EarlierPending(files: seq<File>, before: set<File>, i: nat, j: nat, m: nat)
    requires NoRepeats(files) && i < j < |files|
    requires m < |PendingFiles(files, before)| && PendingFiles(files, before)[m] == files[j]
    ensures files[i] in before || files[i] in PendingFiles(files, before)[..m]
  {
    var todo, rest := PendingFiles(files, before), PendingFiles(files[1..], before);
    hide PendingFiles, NoRepeats;
    assert files[0] != files[j] by { TailDistinct(files); assert files[j] == files[1..][j - 1]; }
    PendingFirst(files, before);
    TailDistinct(files);
    if files[0] in before {
      if i > 0 { EarlierPending(files[1..], before, i - 1, j - 1, m); }
    } else {
      assert todo[..m] == [files[0]] + rest[..m - 1];
      if i > 0 { EarlierPending(files[1..], before, i - 1, j - 1, m - 1); }
    }
  }

  /** The files that a run committed, in order. */
  function CommittedBy(log: seq<Commit>, r: nat): seq<File> {
    if log == [] then []
    else CommittedBy(log[..|log| - 1], r) + (if log[|log| - 1].run == r then [log[|log| - 1].file] else [])
  }

  ghost predicate Accounted(db: Db) {
    && (forall r: nat :: r < |db.runs| ==>
          db.runs[r].committed <= |db.runs[r].pending| &&
          CommittedBy(db.log, r) == db.runs[r].pending[..db.runs[r].committed])
    && (forall r: nat :: r >= |db.runs| ==> CommittedBy(db.log, r) == [])
  }

  lemma CommittedNext(log: seq<Commit>, commit: Commit, r: nat)
    ensures CommittedBy(log + [commit], r) == CommittedBy(log, r) + (if commit.run == r then [commit.file] else [])
  {
    assert (log + [commit])[..|log|] == log;
  }

  lemma PrefixNext(pending: seq<File>, n: nat)
    requires n < |pending|
    ensures pending[..n + 1] == pending[..n] + [pending[n]]
  {
  }

  lemma AccountedCommit(db: Db, r: nat, phase: Phase)
    requires Accounted(db)
    requires r < |db.runs| && db.runs[r].committed < |db.runs[r].pending|
    ensures Accounted(CommitFile(db, r, phase))
  {
    hide CommittedBy;
    var run := db.runs[r];
    PrefixNext(run.pending, run.committed);
    forall q: nat ensures CommittedBy(CommitFile(db, r, phase).log, q) ==
                          CommittedBy(db.log, q) + (if r == q then [run.pending[run.committed]] else [])
    {
      CommittedNext(db.log, Commit(run.pending[run.committed], r), q);
    }
  }

  lemma AccountedStep(files: seq<File>, db: Db, e: Event)
    requires Accounted(db)
    ensures Accounted(Step(files, db, e))
  {
    hide CommittedBy, CommitFile, InTable, Held, PendingFiles, Table;
    if e.CommitAcknowledged? || e.CommitUnacknowledged? {
      if e.run < |db.runs| && db.runs[e.run].committed < |db.runs[e.run].pending| {
        AccountedCommit(db, e.run, Between);
        AccountedCommit(db, e.run, Failed);
      }
    } else if e.Start? {
      assert CommittedBy(db.log, |db.runs|) == [];
    }
  }

  /** At every moment, and so also when it has failed, a run has committed exactly the first files of its
      pending list, one by one in order; when it has finished, all of them. */
  lemma {:induction false} RunCommitsItsPrefix(files: seq<File>, before: set<File>, events: seq<Event>)
    ensures Accounted(After(files, before, events))
  {
    if events != [] {
      RunCommitsItsPrefix(files, before, events[..|events| - 1]);
      AccountedStep(files, After(files, before, events[..|events| - 1]), events[|events| - 1]);
    }
  }

  lemma FinishedMeansAllApplied(files: seq<File>, before: set<File>, events: seq<Event>, r: nat)
    requires NoRepeats(files)
    requires r < |After(files, before, events).runs| && After(files, before, events).runs[r].phase == Finished
    ensures forall file :: file in files ==> InTable(After(files, before, events), file)
  {
    var db := After(files, before, events);
    var todo := PendingFiles(files, before);
    AlwaysSound(files, before, events);
    assert RunSound(todo, db, r);
    assert todo[..|db.log|] == todo;
  }

  /** A run between two files whose next file is neither applied nor held by another run can go on to commit it. */
  lemma NextFileCanCommit(files: seq<File>, db: Db, r: nat)
    requires r < |db.runs| && db.runs[r].phase == Between && db.runs[r].committed < |db.runs[r].pending|
    requires var next := db.runs[r].pending[db.runs[r].committed];
             && next !in db.before && (forall commit :: commit in db.log ==> commit.file != next)
             && forall q :: 0 <= q < |db.runs| && db.runs[q].phase == Holding && db.runs[q].committed < |db.runs[q].pending|
                            ==> db.runs[q].pending[db.runs[q].committed] != next
    ensures var begun := Step(files, db, Open(r));
            var holding := Step(files, begun, Insert(r));
            var done := Step(files, holding, CommitAcknowledged(r));
            var lost := Step(files, holding, CommitUnacknowledged(r));
            var run := db.runs[r];
            var next := run.pending[run.committed];
            && begun.runs[r] == run.(phase := Opened) && begun.log == db.log
            && holding.runs[r] == run.(phase := Holding) && holding.log == db.log
            && done.log == lost.log == db.log + [Commit(next, r)]
            && done.runs[r] == Run(run.pending, run.committed + 1,
                                   if run.committed + 1 == |run.pending| then Finished else Between)
            && lost.runs[r] == Run(run.pending, run.committed + 1, Failed)
  {
    var file := db.runs[r].pending[db.runs[r].committed];
    var begun := Step(files, db, Open(r));
    forall q | 0 <= q < |begun.runs| ensures !HoldsFile(begun.runs[q], file) {
      assert !HoldsFile(db.runs[q], file);
    }
  }

  /** A file that is applied, or held by another run, cannot be inserted. */
  lemma SecondInsertIsRefused(files: seq<File>, db: Db, r: nat)
    requires r < |db.runs| && db.runs[r].phase == Opened && db.runs[r].committed < |db.runs[r].pending|
    requires var next := db.runs[r].pending[db.runs[r].committed];
             || next in db.before || (exists commit :: commit in db.log && commit.file == next)
             || exists q :: 0 <= q < |db.runs| && db.runs[q].phase == Holding && db.runs[q].committed < |db.runs[q].pending|
                            && db.runs[q].pending[db.runs[q].committed] == next
    ensures Step(files, db, Insert(r)) == db
  {
  }

  /** A run can fail at any moment before it has finished, which leaves the table as it is. */
  lemma RunCanFail(files: seq<File>, db: Db, r: nat)
    requires r < |db.runs|
    ensures var next := Step(files, db, Fail(r));
            && next.log == db.log && next.before == db.before && |next.runs| == |db.runs|
            && next.runs[r] == (if db.runs[r].phase == Finished then db.runs[r] else db.runs[r].(phase := Failed))
  {
    match db.runs[r].phase
    case Between =>
    case Opened =>
    case Holding =>
    case Finished =>
    case Failed =>
  }

  /** A new run lists the files that are not in the table, and has finished when there are none. */
  lemma StartLists(files: seq<File>, db: Db)
    ensures var next := Step(files, db, Start);
            var run := next.runs[|db.runs|];
            && |next.runs| == |db.runs| + 1 && next.log == db.log && next.before == db.before
            && (forall file :: file in run.pending <==> file in files && !InTable(db, file))
            && run.committed == 0 && run.phase == (if run.pending == [] then Finished else Between)
  {
  }

  // ----- one run by itself -----

  class MigrationTable {
    var applied: set<File>

    constructor (applied: set<File>)
      ensures this.applied == applied
    {
      this.applied := applied;
    }

    /** One run that nothing interleaves with: `scriptRuns` tells for each file whether its transaction succeeds. */
    method ApplyPending(files: seq<File>, scriptRuns: File -> bool) returns (ok: bool, count: nat)
      modifies this
      ensures count <= |PendingFiles(files, old(applied))|
      ensures applied == old(applied) + Elements(PendingFiles(files, old(applied))[..count])
      ensures ok <==> count == |PendingFiles(files, old(applied))|
      ensures !ok ==> !scriptRuns(PendingFiles(files, old(applied))[count])
      ensures forall i :: 0 <= i < count ==> scriptRuns(PendingFiles(files, old(applied))[i])
    {
      hide Elements, PendingFiles;
      var pending := PendingFiles(files, applied);
      count := 0;
      NoneIn(applied, pending);
      while count < |pending|
        invariant count <= |pending|
        invariant applied == old(applied) + Elements(pending[..count])
        invariant forall i :: 0 <= i < count ==> scriptRuns(pending[i])
      {
        if !scriptRuns(pending[count]) {
          return false, count;
        }
        OneMoreIn(old(applied), pending, count);
        applied := applied + {pending[count]};
        count := count + 1;
      }
      ok := true;
    }
  }
}
