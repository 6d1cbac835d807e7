// ops/services/check/check.py: _run_one_locked as the sequence of calls it is, proved to be a run of the step machine.
module CheckService {
  import opened Prelude
  import opened Factor
  import opened Commands
  import opened Solo
  import opened Repository

  // ------------------------------------------------------------------ the arms of a check

  datatype Verdict = Pass | Fail | Error

  /** Where the pipeline stops: the first stage that does not pass, or its end. */
  function StopsAt(outcomes: seq<StageOutcome>): (i: nat)
    ensures i <= |outcomes| && (forall j :: 0 <= j < i ==> outcomes[j] == Passes)
    ensures i < |outcomes| ==> outcomes[i] != Passes
  {
    if outcomes == [] || outcomes[0] != Passes then 0 else 1 + StopsAt(outcomes[1..])
  }

  /** The row a check works on: the stored one, or the one it creates. */
  function Claimed(c: Cell, now: Time): Record {
    c.rec.GetOr(Record(Submitted, 1, now, None)).(status := Checking)
  }

  function PassedCell(c: Cell, now: Time, kind: Option<PoolKind>): Cell
    requires c.rec.Some?
  {
    ArchivedCell(Cell(Some(c.rec.value.(status := Active, enteredAt := Some(now))), Some(now), c.disk), kind)
  }

  function RejectedCell(c: Cell, now: Time, stage: StageName, measured: bool, kept: bool): Cell
    requires c.rec.Some?
  {
    Cell(Some(c.rec.value.(status := Rejected)),
         if measured && KeepsArtifacts(stage) then Some(now) else c.snap,
         RejectedDisk(c.disk, stage, kept))
  }

  function RevertedCell(c: Cell): Cell
    requires c.rec.Some?
  {
    c.(rec := Some(c.rec.value.(status := Submitted)))
  }

  const PASS_LOGS: seq<Choice> := [] + [Go] + [Go] + [Go] + [Go]

  function Archives(kind: Option<PoolKind>): seq<Choice> { [] + [Go] + [Go] + [Go] + [Go] + [Go] + [Source(kind)] }

  lemma {:induction false} PassDrive(t: Trail, n: Name, f: Option<Event>, now: Time)
    requires t.l.pc == Chk(Summary) && t.l.cell.rec.Some?
    ensures Drive(t, n, f, now, PASS_LOGS)
            == Trail(Local(Cell(Some(t.l.cell.rec.value.(status := Active, enteredAt := Some(now))), Some(now), t.l.cell.disk),
                           Arc(ClearSrc), t.l.abandoned),
                     t.log + [Event(n, CheckOp, now, Some(true), None)] + [Plain(n, EnteredOp, now)])
  {
    var c1: seq<Choice> := [] + [Go];
    var c2 := c1 + [Go];
    var c3 := c2 + [Go];
    DriveExtends(t, n, f, now, [], Go);
    DriveExtends(t, n, f, now, c1, Go);
    DriveExtends(t, n, f, now, c2, Go);
    DriveExtends(t, n, f, now, c3, Go);
    assert Drive(t, n, f, now, c1).log == t.log;
  }

  lemma {:induction false} ArchiveDrive(t: Trail, n: Name, f: Option<Event>, now: Time, kind: Option<PoolKind>)
    requires t.l.pc == Arc(ClearSrc) && t.l.cell.disk.staging != NoDir
    ensures Drive(t, n, f, now, Archives(kind)) == Trail(t.l.(cell := ArchivedCell(t.l.cell, kind), pc := Free), t.log)
  {
    var c1: seq<Choice> := [] + [Go];
    var c2 := c1 + [Go];
    var c3 := c2 + [Go];
    var c4 := c3 + [Go];
    var c5 := c4 + [Go];
    DriveExtends(t, n, f, now, [], Go);
    DriveExtends(t, n, f, now, c1, Go);
    DriveExtends(t, n, f, now, c2, Go);
    DriveExtends(t, n, f, now, c3, Go);
    DriveExtends(t, n, f, now, c4, Go);
    DriveExtends(t, n, f, now, c5, Source(kind));
  }

  const REVERTS: seq<Choice> := [] + [Go] + [Go]

  lemma {:induction false} RevertDrive(t: Trail, n: Name, f: Option<Event>, now: Time)
    requires t.l.pc.Chk? && t.l.pc.k.RevertLog? && t.l.cell.rec.Some?
    ensures Drive(t, n, f, now, REVERTS)
            == Trail(t.l.(cell := RevertedCell(t.l.cell), pc := Free),
                     t.log + [Event(n, CheckOp, now, t.l.pc.k.passed, t.l.pc.k.failed)])
  {
    DriveExtends(t, n, f, now, [], Go);
    DriveExtends(t, n, f, now, [] + [Go], Go);
  }

  function RejectCopies(measured: bool): seq<Choice> { [] + [if measured then Go else Says(false)] + [Go] + [Go] + [Go] }

  function RejectClears(kept: bool): seq<Choice> { [] + [if kept then Go else Says(false)] + [Go] }

  lemma {:induction false} RejectCopyDrive(t: Trail, n: Name, f: Option<Event>, now: Time, measured: bool)
    requires t.l.pc.Rej? && t.l.pc.j == Measure && t.l.pc.at == now && t.l.cell.rec.Some? && t.l.cell.disk.staging != NoDir
    ensures var snap := if measured && KeepsArtifacts(t.l.pc.stage) then Some(now) else t.l.cell.snap;
            Drive(t, n, f, now, RejectCopies(measured))
            == Trail(t.l.(cell := Cell(t.l.cell.rec, snap, t.l.cell.disk.(src := t.l.cell.disk.staging)),
                          pc := Rej(t.l.pc.stage, now, KeepArtifacts)), t.log)
  {
    var c1: seq<Choice> := [] + [if measured then Go else Says(false)];
    var c2 := c1 + [Go];
    var c3 := c2 + [Go];
    DriveExtends(t, n, f, now, [], if measured then Go else Says(false));
    DriveExtends(t, n, f, now, c1, Go);
    DriveExtends(t, n, f, now, c2, Go);
    DriveExtends(t, n, f, now, c3, Go);
  }

  lemma {:induction false} RejectClearDrive(t: Trail, n: Name, f: Option<Event>, now: Time, kept: bool)
    requires t.l.pc.Rej? && t.l.pc.j == KeepArtifacts && t.l.cell.disk.src == t.l.cell.disk.staging
    ensures Drive(t, n, f, now, RejectClears(kept))
            == Trail(t.l.(cell := t.l.cell.(disk := RejectedDisk(t.l.cell.disk, t.l.pc.stage, kept)),
                          pc := Rej(t.l.pc.stage, t.l.pc.at, LogFailure)), t.log)
  {
    DriveExtends(t, n, f, now, [], if kept then Go else Says(false));
    DriveExtends(t, n, f, now, [] + [if kept then Go else Says(false)], Go);
    RejectKeepStep(t, n, f, now, kept);
    hide RejectedDisk;
    var disk := RejectedDisk(t.l.cell.disk, t.l.pc.stage, kept);
    assert disk.(staging := NoDir) == disk by {
      RejectedIsUnstaged(t.l.cell.disk, t.l.pc.stage, kept);
    }
  }

  lemma RejectedIsUnstaged(d: Disk, stage: StageName, kept: bool)
    ensures RejectedDisk(d, stage, kept).staging == NoDir
  {
  }

  lemma RejectKeepStep(t: Trail, n: Name, f: Option<Event>, now: Time, kept: bool)
    requires t.l.pc.Rej? && t.l.pc.j == KeepArtifacts && t.l.cell.disk.src == t.l.cell.disk.staging
    ensures Stepped(t, n, f, now, if kept then Go else Says(false))
            == Trail(t.l.(cell := t.l.cell.(disk := RejectedDisk(t.l.cell.disk, t.l.pc.stage, kept).(staging := t.l.cell.disk.staging)),
                          pc := Rej(t.l.pc.stage, t.l.pc.at, ClearStaging)), t.log)
  {
  }

  lemma {:induction false} RejectLogDrive(t: Trail, n: Name, f: Option<Event>, now: Time)
    requires t.l.pc.Rej? && t.l.pc.j == LogFailure && t.l.cell.rec.Some?
    ensures Drive(t, n, f, now, REVERTS)
            == Trail(t.l.(cell := t.l.cell.(rec := Some(t.l.cell.rec.value.(status := Rejected))), pc := Free),
                     t.log + [Event(n, CheckOp, t.l.pc.at, Some(false), Some(t.l.pc.stage))])
  {
    DriveExtends(t, n, f, now, [], Go);
    DriveExtends(t, n, f, now, [] + [Go], Go);
  }

  lemma {:induction false} RejectDrive(t: Trail, n: Name, f: Option<Event>, now: Time, measured: bool, kept: bool)
    requires t.l.pc.Rej? && t.l.pc.j == Measure && t.l.pc.at == now && t.l.cell.rec.Some? && t.l.cell.disk.staging != NoDir
    ensures Drive(t, n, f, now, RejectCopies(measured) + RejectClears(kept) + REVERTS)
            == Trail(t.l.(cell := RejectedCell(t.l.cell, now, t.l.pc.stage, measured, kept), pc := Free),
                     t.log + [Event(n, CheckOp, now, Some(false), Some(t.l.pc.stage))])
  {
    RejectCopyDrive(t, n, f, now, measured);
    var u := Drive(t, n, f, now, RejectCopies(measured));
    DriveAppends(t, n, f, now, RejectCopies(measured), RejectClears(kept));
    RejectClearDrive(u, n, f, now, kept);
    DriveAppends(t, n, f, now, RejectCopies(measured) + RejectClears(kept), REVERTS);
    RejectLogDrive(Drive(u, n, f, now, RejectClears(kept)), n, f, now);
  }

  /** The record, created when it is missing, at CHECKING; refuses an unregistered name without a discovery method. */
  method Claim(repo: FactorRepository, n: Name, identified: bool, now: Time) returns (ok: bool, ghost chs: seq<Choice>)
    modifies repo`records, repo`history
    ensures ok == (n in old(repo.records) || identified)
    ensures forall k :: k != n ==> repo.CellAt(k) == old(repo.CellAt(k))
    ensures !ok ==> repo.CellAt(n) == old(repo.CellAt(n)) && repo.history == old(repo.history)
    ensures !ok ==> Finishes(old(repo.CellAt(n)), Chk(Ensure), n, None, now, chs, repo.CellAt(n), [])
    ensures ok ==> repo.CellAt(n) == old(repo.CellAt(n)).(rec := Some(Claimed(old(repo.CellAt(n)), now)))
    ensures ok ==> repo.history == old(repo.history) + (if n in old(repo.records) then [] else [Plain(n, SubmitOp, now)])
    ensures ok ==> Drive(Trail(Local(old(repo.CellAt(n)), Chk(Ensure), false), []), n, None, now, chs)
                   == Trail(Local(repo.CellAt(n), Chk(RunStage(0)), false), repo.history[|old(repo.history)|..])
  {
    ghost var start := Trail(Local(repo.CellAt(n), Chk(Ensure), false), []);
    DriveExtends(start, n, None, now, [], if n in repo.records || identified then Go else Says(false));
    DriveExtends(start, n, None, now, [] + [Go], Go);
    if n !in repo.records {
      if !identified {
        return false, [] + [Says(false)];
      }
      repo.Register(n, now);
    }
    var _ := repo.Transition(n, Checking, None, None, NO_UPDATES, now);
    ok, chs := true, [] + [Go] + [Go];
  }

  /** Stages in table order until one does not pass. */
  method RunStages(repo: FactorRepository, n: Name, outcomes: seq<StageOutcome>, ghost start: Trail, now: Time) returns (i: nat, ghost chs: seq<Choice>)
    requires |outcomes| == |PIPELINE|
    requires start.l.pc == Chk(RunStage(0)) && start.l.cell == repo.CellAt(n) && n in repo.staging && repo.staging[n] != NoDir
    ensures i == StopsAt(outcomes)
    ensures Drive(start, n, None, now, chs)
            == Trail(start.l.(pc := if i == |PIPELINE| then Chk(Summary) else AfterStage(i, outcomes[i], now)), start.log)
  {
    i, chs := 0, [];
    while i < |PIPELINE|
      invariant i <= |PIPELINE| && StopsAt(outcomes) == i + StopsAt(outcomes[i..])
      invariant Drive(start, n, None, now, chs)
                == Trail(start.l.(pc := if i == |PIPELINE| then Chk(Summary) else Chk(RunStage(i))), start.log)
    {
      DriveExtends(start, n, None, now, chs, StageSays(outcomes[i]));
      assert outcomes[i..][1..] == outcomes[i + 1..];
      chs := chs + [StageSays(outcomes[i])];
      if outcomes[i] != Passes {
        return;
      }
      i := i + 1;
    }
  }

  /** The pass arm: log row, ACTIVE, snapshot, archive. */
  method PassArm(repo: FactorRepository, n: Name, kind: Option<PoolKind>, ghost t: Trail, now: Time) returns (ghost chs: seq<Choice>)
    requires t.l.pc == Chk(Summary) && t.l.cell == repo.CellAt(n) && n in repo.records && n in repo.staging && repo.staging[n] != NoDir
    modifies repo
    ensures repo.CellAt(n) == PassedCell(old(repo.CellAt(n)), now, kind)
    ensures repo.history == old(repo.history) + [Event(n, CheckOp, now, Some(true), None)] + [Plain(n, EnteredOp, now)]
    ensures forall k :: k != n ==> repo.CellAt(k) == old(repo.CellAt(k))
    ensures Drive(t, n, None, now, chs) == Trail(t.l.(cell := repo.CellAt(n), pc := Free),
                                                 t.log + [Event(n, CheckOp, now, Some(true), None)] + [Plain(n, EnteredOp, now)])
  {
    PassDrive(t, n, None, now);
    ArchiveDrive(Drive(t, n, None, now, PASS_LOGS), n, None, now, kind);
    DriveAppends(t, n, None, now, PASS_LOGS, Archives(kind));
    var _ := repo.AppendCheck(n, Some(true), None, now);
    var _ := repo.Transition(n, Active, None, None, Updates(None, None, Some(now)), now);
    repo.AttachSnapshot(n, now);
    repo.Archive(n, kind);
    chs := PASS_LOGS + Archives(kind);
  }

  /** The skip, retryable and unexpected arms: log row, back to SUBMITTED. */
  method RevertArm(repo: FactorRepository, n: Name, passed: Option<bool>, failed: Option<StageName>, ghost t: Trail, now: Time)
    requires t.l.pc == Chk(RevertLog(passed, failed)) && t.l.cell == repo.CellAt(n) && n in repo.records
    modifies repo`records, repo`history
    ensures repo.CellAt(n) == RevertedCell(old(repo.CellAt(n)))
    ensures repo.history == old(repo.history) + [Event(n, CheckOp, now, passed, failed)]
    ensures forall k :: k != n ==> repo.CellAt(k) == old(repo.CellAt(k))
    ensures Drive(t, n, None, now, REVERTS) == Trail(t.l.(cell := repo.CellAt(n), pc := Free), t.log + [Event(n, CheckOp, now, passed, failed)])
  {
    RevertDrive(t, n, None, now);
    var _ := repo.AppendCheck(n, passed, failed, now);
    var _ := repo.Transition(n, Submitted, None, None, NO_UPDATES, now);
  }

  /** The reject arm: snapshot when something was measured, on_reject, log row, REJECTED. */
  method RejectArm(repo: FactorRepository, n: Name, stage: StageName, measured: bool, kept: bool, ghost t: Trail, now: Time) returns (ghost chs: seq<Choice>)
    requires t.l.pc == Rej(stage, now, Measure) && t.l.cell == repo.CellAt(n) && n in repo.records && n in repo.staging && repo.staging[n] != NoDir
    modifies repo
    ensures repo.CellAt(n) == RejectedCell(old(repo.CellAt(n)), now, stage, measured, kept)
    ensures repo.history == old(repo.history) + [Event(n, CheckOp, now, Some(false), Some(stage))]
    ensures forall k :: k != n ==> repo.CellAt(k) == old(repo.CellAt(k))
    ensures Drive(t, n, None, now, chs) == Trail(t.l.(cell := repo.CellAt(n), pc := Free), t.log + [Event(n, CheckOp, now, Some(false), Some(stage))])
  {
    RejectDrive(t, n, None, now, measured, kept);
    if measured && KeepsArtifacts(stage) {
      repo.AttachSnapshot(n, now);
    }
    repo.OnReject(n, stage, kept);
    var _ := repo.AppendCheck(n, Some(false), Some(stage), now);
    var _ := repo.Transition(n, Rejected, None, None, NO_UPDATES, now);
    chs := RejectCopies(measured) + RejectClears(kept) + REVERTS;
  }

  /** The arm for the stage the pipeline stopped at. */
  method Conclude(repo: FactorRepository, n: Name, i: nat, outcome: StageOutcome, measured: bool, kept: bool, kind: Option<PoolKind>,
                  ghost t: Trail, now: Time)
    returns (verdict: Verdict, ghost chs: seq<Choice>, ghost log: seq<Event>)
    requires i <= |PIPELINE| && n in repo.records && n in repo.staging && repo.staging[n] != NoDir && outcome != Passes
    requires t.l.cell == repo.CellAt(n) && t.l.pc == (if i == |PIPELINE| then Chk(Summary) else AfterStage(i, outcome, now))
    modifies repo
    ensures forall k :: k != n ==> repo.CellAt(k) == old(repo.CellAt(k))
    ensures repo.history == old(repo.history) + log && Drive(t, n, None, now, chs) == Trail(t.l.(cell := repo.CellAt(n), pc := Free), t.log + log)
    ensures if i == |PIPELINE| then verdict == Pass && repo.CellAt(n) == PassedCell(old(repo.CellAt(n)), now, kind)
            else if outcome == Fails && !Retryable(PIPELINE[i].name) then
              verdict == Fail && repo.CellAt(n) == RejectedCell(old(repo.CellAt(n)), now, PIPELINE[i].name, measured, kept)
            else verdict == Error && repo.CellAt(n) == RevertedCell(old(repo.CellAt(n)))
    ensures log == RowsOf(n, i, outcome, now)
  {
    if i == |PIPELINE| {
      chs := PassArm(repo, n, kind, t, now);
      return Pass, chs, [Event(n, CheckOp, now, Some(true), None)] + [Plain(n, EnteredOp, now)];
    }
    var stage := PIPELINE[i].name;
    if outcome == Fails && !Retryable(stage) {
      chs := RejectArm(repo, n, stage, measured, kept, t, now);
      return Fail, chs, [Event(n, CheckOp, now, Some(false), Some(stage))];
    }
    var passed := if outcome == Fails then Some(false) else None;
    var failed := if outcome == Errs then None else Some(stage);
    RevertArm(repo, n, passed, failed, t, now);
    return Error, REVERTS, [Event(n, CheckOp, now, passed, failed)];
  }

  /** The rows a check writes when it stops at stage i with this outcome, or after the last stage. */
  function RowsOf(n: Name, i: nat, outcome: StageOutcome, now: Time): seq<Event>
    requires i <= |PIPELINE|
  {
    if i == |PIPELINE| then [Event(n, CheckOp, now, Some(true), None), Plain(n, EnteredOp, now)]
    else [Event(n, CheckOp, now, if outcome == Fails then Some(false) else None, if outcome == Errs then None else Some(PIPELINE[i].name))]
  }

  function CheckRows(n: Name, claimed: Cell, outcomes: seq<StageOutcome>, now: Time): seq<Event>
    requires |outcomes| == |PIPELINE|
  {
    var i := StopsAt(outcomes);
    if claimed.disk.staging == NoDir then [Event(n, CheckOp, now, None, None)]
    else RowsOf(n, i, if i < |outcomes| then outcomes[i] else Errs, now)
  }

  /** What a check concludes from a claimed cell. */
  ghost predicate Concludes(claimed: Cell, outcomes: seq<StageOutcome>, measured: bool, kept: bool, kind: Option<PoolKind>, now: Time,
                                   verdict: Verdict, c': Cell)
    requires |outcomes| == |PIPELINE| && claimed.rec.Some?
  {
    var i := StopsAt(outcomes);
    if claimed.disk.staging == NoDir then verdict == Error && c' == RevertedCell(claimed)
    else if i == |PIPELINE| then verdict == Pass && c' == PassedCell(claimed, now, kind)
    else if outcomes[i] == Fails && !Retryable(PIPELINE[i].name) then
      verdict == Fail && c' == RejectedCell(claimed, now, PIPELINE[i].name, measured, kept)
    else verdict == Error && c' == RevertedCell(claimed)
  }

  /** The stages, then the arm. Without its staging directory the first prepare raises. */
  method RunPipeline(repo: FactorRepository, n: Name, outcomes: seq<StageOutcome>, measured: bool, kept: bool, kind: Option<PoolKind>,
                     ghost t: Trail, now: Time)
    returns (verdict: Verdict, ghost chs: seq<Choice>, ghost log: seq<Event>)
    requires |outcomes| == |PIPELINE| && n in repo.records
    requires t.l.cell == repo.CellAt(n) && t.l.pc == Chk(RunStage(0))
    modifies repo
    ensures forall k :: k != n ==> repo.CellAt(k) == old(repo.CellAt(k))
    ensures repo.history == old(repo.history) + log && Drive(t, n, None, now, chs) == Trail(t.l.(cell := repo.CellAt(n), pc := Free), t.log + log)
    ensures Concludes(old(repo.CellAt(n)), outcomes, measured, kept, kind, now, verdict, repo.CellAt(n))
    ensures log == CheckRows(n, old(repo.CellAt(n)), outcomes, now)
  {
    if FactorRepository.DirAt(repo.staging, n) == NoDir {
      DriveExtends(t, n, None, now, [], Go);
      RevertArm(repo, n, None, None, Stepped(t, n, None, now, Go), now);
      DriveAppends(t, n, None, now, [] + [Go], REVERTS);
      return Error, [] + [Go] + REVERTS, [Event(n, CheckOp, now, None, None)];
    }
    var i;
    i, chs := RunStages(repo, n, outcomes, t, now);
    ghost var more: seq<Choice>;
    verdict, more, log :=
      Conclude(repo, n, i, if i < |outcomes| then outcomes[i] else Errs, measured, kept, kind, Drive(t, n, None, now, chs), now);
    DriveAppends(t, n, None, now, chs, more);
    chs := chs + more;
  }

  /** The first stage that does not pass, if there is one. */
  predicate StopsFirst(outcomes: seq<StageOutcome>, i: nat) {
    i < |outcomes| && outcomes[i] != Passes && forall j :: 0 <= j < i ==> outcomes[j] == Passes
  }

  /** A check field by field. Stages 0 to 5 are validate, checkbias, checkpoint, long_backtest, compliance and correlation. An unregistered
      factor without identity is refused. Otherwise there is a record, and without a staging directory, or when the first stage
      that does not pass is skipped, raises, or is validate or long_backtest failing, it goes back to SUBMITTED with all files as they were.
      Any other failure rejects it, and when all stages pass it is ACTIVE, with source, dump and pnl in place and a pool copy by its kind. */
  ghost predicate Verdicts(c: Cell, n: Name, outcomes: seq<StageOutcome>, identified: bool, measured: bool, kept: bool, kind: Option<PoolKind>,
                           now: Time, verdict: Verdict, c': Cell, log: seq<Event>)
    requires |outcomes| == 6
  {
    var d := c.disk;
    var r := if c.rec.Some? then c.rec.value else Record(Submitted, 1, now, None);
    var first := if c.rec.Some? then [] else [Event(n, SubmitOp, now, None, None)];
    if c.rec.None? && !identified then verdict == Error && c' == c && log == []
    else if d.staging == NoDir then
      verdict == Error && c' == Cell(Some(r.(status := Submitted)), c.snap, d) && log == first + [Event(n, CheckOp, now, None, None)]
    else if forall i :: 0 <= i < 6 ==> outcomes[i] == Passes then
      && verdict == Pass && log == first + [Event(n, CheckOp, now, Some(true), None), Event(n, EnteredOp, now, None, None)]
      && c' == Cell(Some(r.(status := Active, enteredAt := Some(now))), Some(now),
                    Disk(NoDir, d.staging, true, true, d.feature, d.poolAutomated || kind == Some(Automated), d.poolManual || kind == Some(Manual)))
    else
      forall i: nat :: StopsFirst(outcomes, i) ==> Stopped(Cell(Some(r), c.snap, d), n, i, outcomes[i], measured, kept, now, verdict, c', first, log)
  }

  /** The same for the first stage that does not pass, with its outcome. */
  ghost predicate Stopped(c: Cell, n: Name, i: nat, outcome: StageOutcome, measured: bool, kept: bool, now: Time,
                          verdict: Verdict, c': Cell, first: seq<Event>, log: seq<Event>)
    requires i < 6 && c.rec.Some?
  {
    var r := c.rec.value;
    var d := c.disk;
    var stage := [Validate, Checkbias, Checkpoint, LongBacktest, StageName.Compliance, StageName.Correlation][i];
    if outcome == Fails && i in {1, 2, 4, 5} then
      && verdict == Fail && log == first + [Event(n, CheckOp, now, Some(false), Some(stage))]
      && c' == Cell(Some(r.(status := Rejected)), if measured && i >= 4 then Some(now) else c.snap,
                    Disk(NoDir, d.staging, d.pnl || (i >= 4 && kept), if i >= 4 then d.dump || kept else false, d.feature && i >= 4,
                         d.poolAutomated, d.poolManual))
    else
      && verdict == Error && c' == Cell(Some(r.(status := Submitted)), c.snap, d)
      && log == first + [match outcome
                         case Fails => Event(n, CheckOp, now, Some(false), Some(stage))
                         case Skips => Event(n, CheckOp, now, None, Some(stage))
                         case _ => Event(n, CheckOp, now, None, None)]
  }

  lemma {:induction false} StopsFirstIs(outcomes: seq<StageOutcome>, i: nat)
    requires StopsFirst(outcomes, i)
    ensures StopsAt(outcomes) == i
  {
    var k := StopsAt(outcomes);
  }

  /** The stage table by position. */
  lemma StageAt(i: nat)
    requires i < |PIPELINE|
    ensures PIPELINE[i].name == [Validate, Checkbias, Checkpoint, LongBacktest, StageName.Compliance, StageName.Correlation][i]
    ensures Retryable(PIPELINE[i].name) <==> i in {0, 3}
    ensures KeepsArtifacts(PIPELINE[i].name) <==> i >= 4
    ensures PIPELINE[i].prepares <==> i < 4
  {
  }

  lemma StoppedMeans(c: Cell, n: Name, i: nat, outcome: StageOutcome, measured: bool, kept: bool, now: Time, verdict: Verdict, c': Cell, first: seq<Event>)
    requires i < |PIPELINE| && c.rec.Some? && outcome != Passes
    requires var claimed := c.(rec := Some(c.rec.value.(status := Checking)));
             if outcome == Fails && !Retryable(PIPELINE[i].name) then
               verdict == Fail && c' == RejectedCell(claimed, now, PIPELINE[i].name, measured, kept)
             else verdict == Error && c' == RevertedCell(claimed)
    ensures Stopped(c, n, i, outcome, measured, kept, now, verdict, c', first, first + RowsOf(n, i, outcome, now))
    ensures verdict != Pass && c'.disk.poolAutomated == c.disk.poolAutomated && c'.disk.poolManual == c.disk.poolManual
  {
    StageAt(i);
    hide Retryable, KeepsArtifacts;
  }

  lemma VerdictMeans(c: Cell, n: Name, outcomes: seq<StageOutcome>, identified: bool, measured: bool, kept: bool, kind: Option<PoolKind>,
                     now: Time, verdict: Verdict, c': Cell)
    requires |outcomes| == |PIPELINE|
    requires !(c.rec.None? && !identified) && Concludes(c.(rec := Some(Claimed(c, now))), outcomes, measured, kept, kind, now, verdict, c')
    ensures var first := if c.rec.Some? then [] else [Plain(n, SubmitOp, now)];
            Verdicts(c, n, outcomes, identified, measured, kept, kind, now, verdict, c',
                     first + CheckRows(n, c.(rec := Some(Claimed(c, now))), outcomes, now))
    ensures c'.disk.poolAutomated == (c.disk.poolAutomated || (verdict == Pass && kind == Some(Automated)))
    ensures c'.disk.poolManual == (c.disk.poolManual || (verdict == Pass && kind == Some(Manual)))
  {
    var i := StopsAt(outcomes);
    var first := if c.rec.Some? then [] else [Plain(n, SubmitOp, now)];
    if c.disk.staging != NoDir && i < |outcomes| {
      var r := if c.rec.Some? then c.rec.value else Record(Submitted, 1, now, None);
      StoppedMeans(Cell(Some(r), c.snap, c.disk), n, i, outcomes[i], measured, kept, now, verdict, c', first);
      hide Stopped, RejectedCell, RevertedCell, PassedCell, RowsOf, Retryable;
      forall j: nat | StopsFirst(outcomes, j)
        ensures j == i
      {
        StopsFirstIs(outcomes, j);
      }
    }
  }

  /** _run_one_locked. The stages' outcomes and what they leave behind are the caller's; the first stage that does
      not pass decides. */
  method RunOneLocked(repo: FactorRepository, n: Name, outcomes: seq<StageOutcome>, identified: bool, measured: bool, kept: bool,
                      kind: Option<PoolKind>, now: Time)
    returns (verdict: Verdict, ghost chs: seq<Choice>)
    requires |outcomes| == |PIPELINE|
    modifies repo
    ensures forall k :: k != n ==> repo.CellAt(k) == old(repo.CellAt(k))
    ensures old(repo.history) <= repo.history
    ensures Finishes(old(repo.CellAt(n)), Chk(Ensure), n, None, now, chs, repo.CellAt(n), repo.history[|old(repo.history)|..])
    ensures var c := old(repo.CellAt(n));
            if c.rec.None? && !identified then verdict == Error && repo.CellAt(n) == c
            else Concludes(c.(rec := Some(Claimed(c, now))), outcomes, measured, kept, kind, now, verdict, repo.CellAt(n))
    ensures Verdicts(old(repo.CellAt(n)), n, outcomes, identified, measured, kept, kind, now, verdict, repo.CellAt(n),
                     repo.history[|old(repo.history)|..])
    ensures n in repo.poolAutomated <==> n in old(repo.poolAutomated) || (verdict == Pass && kind == Some(Automated))
    ensures n in repo.poolManual <==> n in old(repo.poolManual) || (verdict == Pass && kind == Some(Manual))
  {
    ghost var c := repo.CellAt(n);
    ghost var start := Trail(Local(repo.CellAt(n), Chk(Ensure), false), []);
    ghost var base := repo.history;
    var ok;
    ok, chs := Claim(repo, n, identified, now);
    if !ok {
      return Error, chs;
    }
    ghost var more: seq<Choice>;
    ghost var log := repo.history[|base|..];
    ghost var logged: seq<Event>;
    verdict, more, logged := RunPipeline(repo, n, outcomes, measured, kept, kind, Drive(start, n, None, now, chs), now);
    assert repo.history == base + (log + logged);
    VerdictMeans(c, n, outcomes, identified, measured, kept, kind, now, verdict, repo.CellAt(n));
    hide Verdicts, Concludes, CheckRows;
    DriveAppends(start, n, None, now, chs, more);
    chs := chs + more;
  }
}
