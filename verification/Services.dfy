// submit, restage, approve, cancel, rm and clear on one factor, as the sequences of repository calls they are, each
// proved to be a run of the step machine.
module Services {
  import opened Prelude
  import opened Factor
  import opened Commands
  import opened Solo
  import opened Repository

  function GoOn(i: nat): (chs: seq<Choice>)
    ensures |chs| == i && forall ch <- chs :: ch == Go
  {
    if i == 0 then [] else GoOn(i - 1) + [Go]
  }

  /** The next step of a command in which nothing raises. */
  lemma GoesOn(t: Trail, n: Name, f: Option<Event>, now: Time, i: nat)
    ensures Drive(t, n, f, now, GoOn(i + 1)) == Stepped(Drive(t, n, f, now, GoOn(i)), n, f, now, Go)
  {
    DriveExtends(t, n, f, now, GoOn(i), Go);
  }

  // ------------------------------------------------------------------ submit

  datatype Submission = Accepted | Skipped | Failed

  function OverwrittenCell(c: Cell, code: Code, now: Time): Cell
    requires c.rec.Some?
  {
    Cell(Some(Record(Submitted, c.rec.value.version + 1, now, c.rec.value.enteredAt)), None, Purged(c.disk.(staging := Whole(code))))
  }

  /** Wipe and copy: where a submit is before it parses. */
  lemma {:induction false} StagedDrive(c: Cell, n: Name, code: Code, overwrite: bool, now: Time)
    ensures Drive(Trail(Local(c, Sub(Wipe(code, overwrite)), false), []), n, None, now, GoOn(2))
            == Trail(Local(Staged(c, code), Sub(Parse(overwrite)), false), [])
  {
    var t := Trail(Local(c, Sub(Wipe(code, overwrite)), false), []);
    GoesOn(t, n, None, now, 0);
    GoesOn(t, n, None, now, 1);
  }

  function Staged(c: Cell, code: Code): Cell {
    c.(disk := c.disk.(staging := Whole(code)))
  }

  function Unstaged(c: Cell): Cell {
    c.(disk := c.disk.(staging := NoDir))
  }

  lemma UnparsedDrive(c: Cell, n: Name, code: Code, overwrite: bool, now: Time)
    ensures Finishes(c, Entry(SubmitCmd(code, overwrite)), n, None, now, GoOn(2) + [Says(false)] + [Go], Unstaged(c), [])
  {
    var t := Trail(Local(c, Sub(Wipe(code, overwrite)), false), []);
    StagedDrive(c, n, code, overwrite, now);
    DriveExtends(t, n, None, now, GoOn(2), Says(false));
    DriveExtends(t, n, None, now, GoOn(2) + [Says(false)], Go);
  }

  lemma {:induction false} DecideDrive(c: Cell, n: Name, code: Code, overwrite: bool, now: Time)
    ensures var next := if c.rec.None? then Register else if overwrite then Overwrite(now, c.rec.value.version + 1) else Rollback;
            Drive(Trail(Local(c, Sub(Wipe(code, overwrite)), false), []), n, None, now, GoOn(4))
            == Trail(Local(Staged(c, code), Sub(next), false), [])
  {
    var t := Trail(Local(c, Sub(Wipe(code, overwrite)), false), []);
    StagedDrive(c, n, code, overwrite, now);
    GoesOn(t, n, None, now, 2);
    GoesOn(t, n, None, now, 3);
  }

  lemma FirstSubmitDrive(c: Cell, n: Name, code: Code, overwrite: bool, now: Time)
    requires c.rec.None?
    ensures var w := Registered(Staged(c, code), n, now);
            Finishes(c, Entry(SubmitCmd(code, overwrite)), n, None, now, GoOn(5), w.cell, w.events)
  {
    DecideDrive(c, n, code, overwrite, now);
    GoesOn(Trail(Local(c, Sub(Wipe(code, overwrite)), false), []), n, None, now, 4);
  }

  lemma SkipDrive(c: Cell, n: Name, code: Code, now: Time)
    requires c.rec.Some?
    ensures Finishes(c, Entry(SubmitCmd(code, false)), n, None, now, GoOn(5), Unstaged(c), [])
  {
    DecideDrive(c, n, code, false, now);
    GoesOn(Trail(Local(c, Sub(Wipe(code, false)), false), []), n, None, now, 4);
  }

  lemma {:induction false} OverwrittenRowDrive(c: Cell, n: Name, code: Code, now: Time)
    requires c.rec.Some?
    ensures Drive(Trail(Local(c, Sub(Wipe(code, true)), false), []), n, None, now, GoOn(5))
            == Trail(Local(Staged(c, code).(rec := OverwrittenCell(c, code, now).rec), Sub(Discard), false), [Plain(n, OverwriteOp, now)])
  {
    DecideDrive(c, n, code, true, now);
    GoesOn(Trail(Local(c, Sub(Wipe(code, true)), false), []), n, None, now, 4);
  }

  lemma OverwriteDrive(c: Cell, n: Name, code: Code, now: Time)
    requires c.rec.Some?
    ensures Finishes(c, Entry(SubmitCmd(code, true)), n, None, now, GoOn(7), OverwrittenCell(c, code, now), [Plain(n, OverwriteOp, now)])
  {
    var t := Trail(Local(c, Sub(Wipe(code, true)), false), []);
    OverwrittenRowDrive(c, n, code, now);
    GoesOn(t, n, None, now, 5);
    GoesOn(t, n, None, now, 6);
  }

  /** The overwrite branch: version, row, snapshot, artifacts of the earlier version. */
  method OverwriteRow(repo: FactorRepository, n: Name, now: Time)
    requires n in repo.records
    modifies repo
    ensures forall k :: k != n ==> repo.CellAt(k) == old(repo.CellAt(k))
    ensures repo.history == old(repo.history) + [Plain(n, OverwriteOp, now)]
    ensures var c := old(repo.CellAt(n));
            repo.CellAt(n) == Cell(Some(Record(Submitted, c.rec.value.version + 1, now, c.rec.value.enteredAt)), None, Purged(c.disk))
  {
    var version := repo.records[n].version + 1;
    var _ := repo.Transition(n, Submitted, None, Some(OverwriteOp), Updates(Some(version), Some(now), None), now);
    repo.DiscardSnapshot(n);
    repo.PurgeArtifacts(n, false, true);
  }

  function SubmittedCell(c: Cell, n: Name, code: Code, overwrite: bool, now: Time): Cell {
    if c.rec.None? then Registered(Staged(c, code), n, now).cell
    else if overwrite then OverwrittenCell(c, code, now) else Unstaged(c)
  }

  function SubmitChoices(c: Cell, overwrite: bool): (chs: seq<Choice>)
    ensures Raise !in chs
  {
    if c.rec.Some? && overwrite then GoOn(7) else GoOn(5)
  }

  function SubmitLog(c: Cell, n: Name, overwrite: bool, now: Time): seq<Event> {
    if c.rec.None? then [Plain(n, SubmitOp, now)] else if overwrite then [Plain(n, OverwriteOp, now)] else []
  }

  lemma SubmitDrive(c: Cell, n: Name, code: Code, overwrite: bool, now: Time)
    ensures Finishes(c, Entry(SubmitCmd(code, overwrite)), n, None, now, SubmitChoices(c, overwrite),
                     SubmittedCell(c, n, code, overwrite, now), SubmitLog(c, n, overwrite, now))
  {
    if c.rec.None? {
      FirstSubmitDrive(c, n, code, overwrite, now);
    } else if overwrite {
      OverwriteDrive(c, n, code, now);
    } else {
      SkipDrive(c, n, code, now);
    }
  }

  /** submit_one after parsing: the directory is in staging, c is the factor before it was. */
  method WriteSubmission(repo: FactorRepository, n: Name, overwrite: bool, ghost c: Cell, ghost code: Code, now: Time) returns (result: Submission)
    requires repo.CellAt(n) == Staged(c, code)
    modifies repo
    ensures forall k :: k != n ==> repo.CellAt(k) == old(repo.CellAt(k))
    ensures repo.history == old(repo.history) + SubmitLog(c, n, overwrite, now)
    ensures result == (if c.rec.None? || overwrite then Accepted else Skipped)
    ensures repo.CellAt(n) == SubmittedCell(c, n, code, overwrite, now)
  {
    if n in repo.records && !overwrite {
      var _ := repo.Unstage(n);
      return Skipped;
    }
    if n !in repo.records {
      repo.Register(n, now);
    } else {
      OverwriteRow(repo, n, now);
    }
    return Accepted;
  }

  /** What a submit does, field by field: a factor that does not parse, or exists and is not to be overwritten, only loses what was
      in staging; a new one starts at version 1; an overwritten one goes one version up, back to SUBMITTED with the same entered_at,
      without snapshot, pnl and pool copies, while dump, feature and archived source stay. */
  ghost predicate Submits(c: Cell, n: Name, code: Code, overwrite: bool, parses: bool, now: Time, result: Submission, c': Cell, log: seq<Event>) {
    var d := c.disk;
    if !parses || (c.rec.Some? && !overwrite) then
      && result == (if parses then Skipped else Failed) && log == []
      && c' == Cell(c.rec, c.snap, Disk(NoDir, d.src, d.pnl, d.dump, d.feature, d.poolAutomated, d.poolManual))
    else if c.rec.None? then
      && result == Accepted && log == [Event(n, SubmitOp, now, None, None)]
      && c' == Cell(Some(Record(Submitted, 1, now, None)), c.snap,
                    Disk(Whole(code), d.src, d.pnl, d.dump, d.feature, d.poolAutomated, d.poolManual))
    else
      && result == Accepted && log == [Event(n, OverwriteOp, now, None, None)]
      && c' == Cell(Some(Record(Submitted, c.rec.value.version + 1, now, c.rec.value.enteredAt)), None,
                    Disk(Whole(code), d.src, false, d.dump, d.feature, false, false))
  }

  lemma SubmitMeans(c: Cell, n: Name, code: Code, overwrite: bool, now: Time)
    ensures Submits(c, n, code, overwrite, true, now, if c.rec.None? || overwrite then Accepted else Skipped,
                    SubmittedCell(c, n, code, overwrite, now), SubmitLog(c, n, overwrite, now))
    ensures Submits(c, n, code, overwrite, false, now, Failed, Unstaged(c), [])
  {
  }

  /** What was in staging goes, and the directory is copied there. */
  method CopyToStaging(repo: FactorRepository, n: Name, code: Code)
    modifies repo`staging
    ensures forall k :: k != n ==> repo.CellAt(k) == old(repo.CellAt(k))
    ensures repo.CellAt(n) == Staged(old(repo.CellAt(n)), code)
  {
    var _ := repo.Unstage(n);
    repo.staging := repo.staging[n := Whole(code)];
  }

  /** One factor of run_submit's loop. */
  method SubmitOne(repo: FactorRepository, n: Name, code: Code, overwrite: bool, parses: bool, now: Time)
    returns (result: Submission, ghost chs: seq<Choice>, ghost log: seq<Event>)
    modifies repo
    ensures forall k :: k != n ==> repo.CellAt(k) == old(repo.CellAt(k))
    ensures repo.history == old(repo.history) + log
    ensures Finishes(old(repo.CellAt(n)), Entry(SubmitCmd(code, overwrite)), n, None, now, chs, repo.CellAt(n), log) && Raise !in chs
    ensures Submits(old(repo.CellAt(n)), n, code, overwrite, parses, now, result, repo.CellAt(n), log)
  {
    SubmitMeans(repo.CellAt(n), n, code, overwrite, now);
    hide Finishes, SubmitLog, SubmitChoices, SubmittedCell, Submits;
    ghost var c := repo.CellAt(n);
    CopyToStaging(repo, n, code);
    if !parses {
      UnparsedDrive(c, n, code, overwrite, now);
      var _ := repo.Unstage(n);
      return Failed, GoOn(2) + [Says(false)] + [Go], [];
    }
    SubmitDrive(c, n, code, overwrite, now);
    result := WriteSubmission(repo, n, overwrite, c, code, now);
    chs, log := SubmitChoices(c, overwrite), SubmitLog(c, n, overwrite, now);
  }

  // ------------------------------------------------------------------ restage

  predicate Recallable(c: Cell, sourceOk: bool) {
    c.rec.Some? && (c.rec.value.status == Active || c.rec.value.status == Rejected) && c.disk.src != NoDir && sourceOk
  }

  function RestagedCell(c: Cell, purge: bool): Cell
    requires c.rec.Some?
  {
    Cell(Some(c.rec.value.(status := Submitted)), None,
         PurgedScopes(c.disk.(staging := c.disk.src, src := NoDir), purge || c.rec.value.status == Rejected, true))
  }

  lemma {:induction false} RecallDrive(c: Cell, n: Name, purge: bool, now: Time)
    requires Recallable(c, true) && c.disk.staging == NoDir
    ensures Drive(Trail(Local(c, Rst(Recheck(purge)), false), []), n, None, now, GoOn(5))
            == Trail(Local(c.(disk := RestagedCell(c, purge).disk), Rst(Recalling(c.rec.value.status, purge, MarkSubmitted)), false), [])
  {
    var t := Trail(Local(c, Rst(Recheck(purge)), false), []);
    GoesOn(t, n, None, now, 0);
    GoesOn(t, n, None, now, 1);
    GoesOn(t, n, None, now, 2);
    GoesOn(t, n, None, now, 3);
    GoesOn(t, n, None, now, 4);
  }

  lemma RestageDrive(c: Cell, n: Name, purge: bool, now: Time)
    requires Recallable(c, true) && c.disk.staging == NoDir
    ensures Finishes(c, Entry(RestageCmd(purge)), n, None, now, GoOn(7), RestagedCell(c, purge), [Plain(n, RestageOp, now)])
  {
    var t := Trail(Local(c, Rst(Recheck(purge)), false), []);
    RecallDrive(c, n, purge, now);
    GoesOn(t, n, None, now, 5);
    GoesOn(t, n, None, now, 6);
  }

  lemma RestageRefusedDrive(c: Cell, n: Name, purge: bool, sourceOk: bool, now: Time)
    requires !(Recallable(c, sourceOk) && c.disk.staging == NoDir)
    ensures Finishes(c, Entry(RestageCmd(purge)), n, None, now,
                     if Recallable(c, sourceOk) then GoOn(2) else [] + [if sourceOk then Go else Says(false)], c, [])
  {
    var t := Trail(Local(c, Rst(Recheck(purge)), false), []);
    DriveExtends(t, n, None, now, [], if sourceOk then Go else Says(false));
    GoesOn(t, n, None, now, 0);
    GoesOn(t, n, None, now, 1);
  }

  /** What follows the recall: the artifacts, the row by compare-and-set, the snapshot. */
  method LeaveLibrary(repo: FactorRepository, n: Name, from: Status, purge: bool, now: Time)
    requires n in repo.records && repo.records[n].status == from
    modifies repo
    ensures forall k :: k != n ==> repo.CellAt(k) == old(repo.CellAt(k))
    ensures repo.history == old(repo.history) + [Plain(n, RestageOp, now)]
    ensures var c := old(repo.CellAt(n));
            repo.CellAt(n) == Cell(Some(c.rec.value.(status := Submitted)), None, PurgedScopes(c.disk, purge || from == Rejected, true))
  {
    if from == Rejected || purge {
      repo.PurgeArtifacts(n, true, false);
    }
    repo.PurgeArtifacts(n, false, true);
    var _ := repo.Transition(n, Submitted, Some(from), Some(RestageOp), NO_UPDATES, now);
    repo.DiscardSnapshot(n);
  }

  /** What a restage does, field by field: an ACTIVE or REJECTED factor with a sound archived source and nothing in staging goes back
      there as SUBMITTED, without snapshot, pnl and pool copies; dump and feature go when it was rejected or on request. */
  ghost predicate Restages(c: Cell, n: Name, purge: bool, sourceOk: bool, now: Time, done: bool, c': Cell, log: seq<Event>) {
    var d := c.disk;
    && (done <==> c.rec.Some? && c.rec.value.status in {Active, Rejected} && sourceOk && d.src != NoDir && d.staging == NoDir)
    && (!done ==> c' == c && log == [])
    && (done ==>
          var serving := !purge && c.rec.value.status == Active;
          && log == [Event(n, RestageOp, now, None, None)]
          && c' == Cell(Some(Record(Submitted, c.rec.value.version, c.rec.value.submittedAt, c.rec.value.enteredAt)), None,
                        Disk(d.src, NoDir, false, d.dump && serving, d.feature && serving, false, false)))
  }

  lemma RestageMeans(c: Cell, purge: bool)
    ensures c.rec.Some? && c.rec.value.status in {Active, Rejected} ==>
              var d, serving := c.disk, !purge && c.rec.value.status == Active;
              RestagedCell(c, purge) == Cell(Some(Record(Submitted, c.rec.value.version, c.rec.value.submittedAt, c.rec.value.enteredAt)), None,
                                             Disk(d.src, NoDir, false, d.dump && serving, d.feature && serving, false, false))
    ensures forall ok :: Recallable(c, ok) <==> c.rec.Some? && c.rec.value.status in {Active, Rejected} && ok && c.disk.src != NoDir
  {
  }

  /** The locked action of restage; sourceOk: the archived directory has exactly one .py and one .xml. */
  method RestageOne(repo: FactorRepository, n: Name, purge: bool, sourceOk: bool, now: Time) returns (done: bool, ghost chs: seq<Choice>)
    modifies repo
    ensures forall k :: k != n ==> repo.CellAt(k) == old(repo.CellAt(k))
    ensures old(repo.history) <= repo.history
    ensures Finishes(old(repo.CellAt(n)), Entry(RestageCmd(purge)), n, None, now, chs, repo.CellAt(n), repo.history[|old(repo.history)|..])
    ensures var c := old(repo.CellAt(n));
            && done == (Recallable(c, sourceOk) && c.disk.staging == NoDir)
            && repo.CellAt(n) == (if done then RestagedCell(c, purge) else c)
    ensures Restages(old(repo.CellAt(n)), n, purge, sourceOk, now, done, repo.CellAt(n), repo.history[|old(repo.history)|..])
  {
    RestageMeans(repo.CellAt(n), purge);
    ghost var c := repo.CellAt(n);
    if n !in repo.records || (repo.records[n].status != Active && repo.records[n].status != Rejected)
       || FactorRepository.DirAt(repo.src, n) == NoDir || !sourceOk
    {
      RestageRefusedDrive(c, n, purge, sourceOk, now);
      return false, [] + [if sourceOk then Go else Says(false)];
    }
    var from := repo.records[n].status;
    var err := repo.Recall(n);
    if err.Some? {
      RestageRefusedDrive(c, n, purge, sourceOk, now);
      return false, GoOn(2);
    }
    LeaveLibrary(repo, n, from, purge, now);
    RestageDrive(c, n, purge, now);
    return true, GoOn(7);
  }

  // ------------------------------------------------------------------ approve

  function ApprovedCell(c: Cell, now: Time): Cell
    requires c.rec.Some?
  {
    c.(rec := Some(c.rec.value.(status := Active, enteredAt := Some(c.rec.value.enteredAt.GetOr(now)))))
  }

  /** Row i of the log is the last one that says a check of n failed. */
  ghost predicate LastFailure(h: seq<Event>, n: Name, i: int) {
    && 0 <= i < |h| && h[i].name == n && h[i].op == CheckOp && h[i].passed == Some(false)
    && forall j :: i < j < |h| && h[j].name == n && h[j].op == CheckOp ==> h[j].passed != Some(false)
  }

  lemma {:induction false} LastFailureOf(h: seq<Event>, n: Name)
    ensures LastFail(Own(h, n)).None? <==> forall i :: !LastFailure(h, n, i)
    ensures forall i :: LastFailure(h, n, i) ==> LastFail(Own(h, n)) == Some(h[i])
  {
    if h != [] {
      var k := |h| - 1;
      var own := Own(h[..k], n);
      LastFailureOf(h[..k], n);
      if h[k].name == n {
        assert (own + [h[k]])[..|own|] == own;
      }
      if h[k].name == n && IsFailure(h[k]) {
        assert LastFailure(h, n, k);
      } else {
        forall i
          ensures LastFailure(h, n, i) <==> LastFailure(h[..k], n, i)
        {
          SameBefore(h, n, i);
        }
      }
    }
  }

  lemma SameBefore(h: seq<Event>, n: Name, i: int)
    requires h != [] && !(h[|h| - 1].name == n && IsFailure(h[|h| - 1]))
    ensures LastFailure(h, n, i) <==> LastFailure(h[..|h| - 1], n, i)
  {
    assert forall j :: 0 <= j < |h| - 1 ==> h[..|h| - 1][j] == h[j];
  }

  /** What an approve does, field by field: a REJECTED factor whose last failed check failed at correlation becomes ACTIVE and keeps
      an earlier entered_at; no file and no snapshot changes. */
  ghost predicate Approves(c: Cell, n: Name, h: seq<Event>, now: Time, done: bool, c': Cell, log: seq<Event>) {
    && (done <==> c.rec.Some? && c.rec.value.status == Rejected && exists i :: LastFailure(h, n, i) && h[i].failedStage == Some(Correlation))
    && (!done ==> c' == c && log == [])
    && (done ==>
          && log == [Event(n, ApproveOp, now, None, None), Event(n, EnteredOp, now, None, None)]
          && c' == Cell(Some(Record(Active, c.rec.value.version, c.rec.value.submittedAt,
                                    if c.rec.value.enteredAt.Some? then c.rec.value.enteredAt else Some(now))), c.snap, c.disk))
  }

  /** The locked action of approve: ACTIVE, keeping an earlier entered_at, and no file touched. */
  method ApproveOne(repo: FactorRepository, n: Name, now: Time) returns (done: bool, ghost chs: seq<Choice>)
    modifies repo`records, repo`history
    ensures forall k :: k != n ==> repo.CellAt(k) == old(repo.CellAt(k))
    ensures old(repo.history) <= repo.history
    ensures Finishes(old(repo.CellAt(n)), Entry(ApproveCmd), n, LastFail(Own(old(repo.history), n)), now, chs, repo.CellAt(n),
                     repo.history[|old(repo.history)|..])
    ensures done == Approvable(old(repo.CellAt(n)), LastFail(Own(old(repo.history), n)))
    ensures repo.CellAt(n) == (if done then ApprovedCell(old(repo.CellAt(n)), now) else old(repo.CellAt(n)))
    ensures Approves(old(repo.CellAt(n)), n, old(repo.history), now, done, repo.CellAt(n), repo.history[|old(repo.history)|..])
  {
    LastFailureOf(repo.history, n);
    var f := repo.ReadLastFail(n);
    if n !in repo.records || repo.records[n].status != Rejected || f.None? || f.value.failedStage != Some(Correlation) {
      return false, GoOn(1);
    }
    var at := repo.records[n].enteredAt.GetOr(now);
    var _ := repo.Transition(n, Active, Some(Rejected), Some(ApproveOp), Updates(None, None, Some(at)), now);
    return true, GoOn(2);
  }

  // ------------------------------------------------------------------ cancel, rm, clear

  method CancelOne(repo: FactorRepository, n: Name, force: bool, now: Time) returns (done: bool, ghost chs: seq<Choice>)
    modifies repo
    ensures forall k :: k != n ==> repo.CellAt(k) == old(repo.CellAt(k))
    ensures old(repo.history) <= repo.history
    ensures Finishes(old(repo.CellAt(n)), Entry(CancelCmd(force)), n, None, now, chs, repo.CellAt(n), repo.history[|old(repo.history)|..])
    ensures done == Cancellable(old(repo.CellAt(n)), force)
    ensures repo.CellAt(n) == (if done then Cell(None, None, old(repo.CellAt(n)).disk.(staging := NoDir)) else old(repo.CellAt(n)))
    ensures done <==> var c := old(repo.CellAt(n));
                      && c.rec.Some? && (c.rec.value.status == Submitted || (force && c.rec.value.status == Checking))
                      && c.rec.value.enteredAt == None && c.disk.src == NoDir
    ensures repo.history == old(repo.history) + if done then [Event(n, CancelOp, now, None, None)] else []
  {
    if !Cancellable(repo.CellAt(n), force) {
      return false, GoOn(1);
    }
    var _ := repo.Unstage(n);
    var _ := repo.Delete(n, CancelOp, now);
    return true, GoOn(3);
  }

  lemma {:induction false} RmFilesDrive(c: Cell, n: Name, now: Time)
    ensures Drive(Trail(Local(c, Del(RmServing), false), []), n, None, now, GoOn(3))
            == Trail(Local(c.(disk := c.disk.(dump := false, feature := false, src := NoDir, staging := NoDir)), Del(RmPurge), false), [])
  {
    var t := Trail(Local(c, Del(RmServing), false), []);
    GoesOn(t, n, None, now, 0);
    GoesOn(t, n, None, now, 1);
    GoesOn(t, n, None, now, 2);
  }

  lemma RmDrive(c: Cell, n: Name, now: Time)
    ensures Finishes(c, Entry(RmCmd), n, None, now, GoOn(5), EMPTY_CELL, if c.rec.Some? then [Plain(n, RmOp, now)] else [])
  {
    var t := Trail(Local(c, Del(RmServing), false), []);
    RmFilesDrive(c, n, now);
    GoesOn(t, n, None, now, 3);
    GoesOn(t, n, None, now, 4);
  }

  /** rm leaves nothing behind but its row in the log. */
  method RmOne(repo: FactorRepository, n: Name, now: Time) returns (ghost chs: seq<Choice>)
    modifies repo
    ensures forall k :: k != n ==> repo.CellAt(k) == old(repo.CellAt(k))
    ensures old(repo.history) <= repo.history
    ensures Finishes(old(repo.CellAt(n)), Entry(RmCmd), n, None, now, chs, repo.CellAt(n), repo.history[|old(repo.history)|..])
    ensures repo.CellAt(n) == Cell(None, None, Disk(NoDir, NoDir, false, false, false, false, false))
    ensures repo.history == old(repo.history) + if old(repo.CellAt(n)).rec.Some? then [Event(n, RmOp, now, None, None)] else []
  {
    RmDrive(repo.CellAt(n), n, now);
    repo.PurgeArtifacts(n, true, false);
    repo.src := repo.src - {n};
    var _ := repo.Unstage(n);
    repo.PurgeArtifacts(n, false, true);
    var _ := repo.Delete(n, RmOp, now);
    chs := GoOn(5);
  }

  /** clear removes staging directories of factors without a record, and only those. */
  method ClearOne(repo: FactorRepository, n: Name, now: Time) returns (done: bool, ghost chs: seq<Choice>)
    modifies repo`staging
    ensures forall k :: k != n ==> repo.CellAt(k) == old(repo.CellAt(k))
    ensures Finishes(old(repo.CellAt(n)), Entry(ClearCmd), n, None, now, chs, repo.CellAt(n), [])
    ensures done == (old(repo.CellAt(n)).rec.None? && old(repo.CellAt(n)).disk.staging != NoDir)
    ensures repo.CellAt(n) == (if done then old(repo.CellAt(n)).(disk := old(repo.CellAt(n)).disk.(staging := NoDir)) else old(repo.CellAt(n)))
  {
    if n in repo.records || FactorRepository.DirAt(repo.staging, n) == NoDir {
      return false, GoOn(1);
    }
    var _ := repo.Unstage(n);
    return true, GoOn(2);
  }
}
