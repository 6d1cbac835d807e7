// The commands that act on one factor, cut into the steps between which another
// process can run: one store transaction or one file operation each.
// Sources: ops/services/{submit,check,restage,approve,cancel,rm,clear}, ops/infra/repository.py,
// ops/infra/store/pg_store.py.
module Commands {
  import opened Prelude
  import opened Factor

  // ------------------------------------------------------------------ store transactions

  datatype StoreError = FactorNotFound | StateConflict

  /** The keyword arguments of transition: only the fields given are set. */
  datatype Updates = Updates(version: Option<nat>, submittedAt: Option<Time>, enteredAt: Option<Time>)

  const NO_UPDATES := Updates(None, None, None)

  /** A cell after a transaction, with the rows the transaction appended. */
  datatype Written = Written(cell: Cell, events: seq<Event>)

  /** At most a command's row and its `entered` row, both naming the factor. */
  predicate About(es: seq<Event>, n: Name) {
    |es| <= 2 && forall e <- es :: e.name == n
  }

  function Registered(c: Cell, n: Name, now: Time): Written {
    Written(c.(rec := Some(Record(Submitted, 1, now, None))), [Plain(n, SubmitOp, now)])
  }

  /** The compare-and-set of the status row; the command's row and the automatic `entered` row go with it. */
  function Transitioned(c: Cell, n: Name, to: Status, expected: Option<Status>, op: Option<Op>, up: Updates, now: Time)
    : (r: Result<Written, StoreError>)
  {
    match c.rec
    case None => Err(FactorNotFound)
    case Some(rec) =>
      if expected.Some? && rec.status != expected.value then Err(StateConflict)
      else
        var rec' := Record(to,
                           up.version.GetOr(rec.version),
                           up.submittedAt.GetOr(rec.submittedAt),
                           if up.enteredAt.Some? then up.enteredAt else rec.enteredAt);
        var entered := Plain(n, EnteredOp, now);
        Ok(Written(c.(rec := Some(rec')),
                   if op.Some? && to == Active then [Plain(n, op.value, now), entered]
                   else if op.Some? then [Plain(n, op.value, now)]
                   else if to == Active then [entered]
                   else []))
  }

  function CheckAppended(c: Cell, n: Name, passed: Option<bool>, stage: Option<StageName>, at: Time)
    : Result<Written, StoreError>
  {
    if c.rec.None? then Err(FactorNotFound)
    else Ok(Written(c, [Event(n, CheckOp, at, passed, stage)]))
  }

  /** factor_info and, by cascade, the status and snapshot rows; the log row only when a row existed. */
  function Deleted(c: Cell, n: Name, op: Op, now: Time): Written {
    Written(c.(rec := None, snap := None), if c.rec.Some? then [Plain(n, op, now)] else [])
  }

  // ------------------------------------------------------------------ file operations

  /** One unlink of purge_artifacts(CHECK): pnl first, then the two pools. */
  function PurgeOne(d: Disk): Disk {
    if d.pnl then d.(pnl := false)
    else if d.poolAutomated then d.(poolAutomated := false)
    else d.(poolManual := false)
  }

  function Purged(d: Disk): Disk {
    d.(pnl := false, poolAutomated := false, poolManual := false)
  }

  function Pool(d: Disk, kind: Option<PoolKind>): Disk {
    match kind
    case Some(Automated) => d.(poolAutomated := true)
    case Some(Manual) => d.(poolManual := true)
    case None => d
  }

  // ------------------------------------------------------------------ control points

  datatype SubmitPc =
    | Wipe(code: Code, overwrite: bool)
    | Copy(code: Code, overwrite: bool)
    | Parse(overwrite: bool)
    | Decide(overwrite: bool, at: Time)
    | Register
    | Overwrite(at: Time, version: nat)
    | Discard
    | Purge
    | Rollback

  datatype CheckPc =
    | Ensure
    | Mark
    | RunStage(i: nat)
    | Summary
    | PassLog(at: Time)
    | PassMark(at: Time)
    | PassSnap(at: Time)
    | RevertLog(passed: Option<bool>, failed: Option<StageName>)
    | RevertMark

  datatype ArchivePc = ClearSrc | MoveSrc | EditXml | MoveDump | MovePnl | CopyToPool

  datatype RejectPc = Measure | ClearOld | CopySrc | EditCopy | KeepArtifacts | ClearStaging | LogFailure | MarkRejected

  datatype RestagePc = Recheck(purge: bool) | Recalling(from: Status, purge: bool, r: RecallPc) | DropSnapshot

  datatype RecallPc = MoveBack | EditBack | PurgeServing | PurgeCheck | MarkSubmitted

  datatype ApprovePc = Eligible | Flip(at: Time)

  datatype RemovalPc =
    | CancelCheck(force: bool) | CancelUnstage | CancelDelete
    | RmServing | RmSrc | RmUnstage | RmPurge | RmDelete
    | ClearCheck | ClearUnstage

  /** Where the lock holder is; Free means nobody holds the factor's lock. */
  datatype Pc =
    | Free
    | Sub(s: SubmitPc)
    | Chk(k: CheckPc)
    | Arc(a: ArchivePc)
    | Rej(stage: StageName, at: Time, j: RejectPc)
    | Rst(t: RestagePc)
    | App(p: ApprovePc)
    | Del(x: RemovalPc)

  datatype Command = SubmitCmd(code: Code, overwrite: bool) | CheckCmd | RestageCmd(purge: bool) | ApproveCmd
                   | CancelCmd(force: bool) | RmCmd | ClearCmd

  function Entry(cmd: Command): Pc {
    match cmd
    case SubmitCmd(code, overwrite) => Sub(Wipe(code, overwrite))
    case CheckCmd => Chk(Ensure)
    case RestageCmd(purge) => Rst(Recheck(purge))
    case ApproveCmd => App(Eligible)
    case CancelCmd(force) => Del(CancelCheck(force))
    case RmCmd => Del(RmServing)
    case ClearCmd => Del(ClearCheck)
  }

  datatype StageOutcome = Passes | Skips | Fails | Errs

  /** What the world decides at a step: Go completes the operation, Partway does part of a
      multi-file operation, Raise makes it raise, Says settles a question the model does not look into. */
  datatype Choice = Go | Partway | Raise | Says(yes: bool) | StageSays(outcome: StageOutcome) | Source(kind: Option<PoolKind>)

  /** A factor under a command. `abandoned`: the last check left through an exception of its reject arm,
      which no handler inside the locked section catches (check.py:385-451). */
  datatype Local = Local(cell: Cell, pc: Pc, abandoned: bool) {
    function To(pc': Pc): Move { Move(this.(pc := pc'), []) }
    function OnDisk(d: Disk, pc': Pc): Move { Move(this.(cell := cell.(disk := d), pc := pc'), []) }
    function OnSnap(s: Option<Time>, pc': Pc): Move { Move(this.(cell := cell.(snap := s), pc := pc'), []) }
    function Wrote(r: Result<Written, StoreError>, pc': Pc): Move {
      match r
      case Ok(w) => Move(this.(cell := w.cell, pc := pc'), w.events)
      case Err(_) => To(Free)
    }
    /** A step whose transaction settles the status row for good. */
    function Settles(w: Written, pc': Pc): Move { Move(Local(w.cell, pc', false), w.events) }
  }

  datatype Move = Move(next: Local, events: seq<Event>)

  // ------------------------------------------------------------------ submit

  function SubmitStep(l: Local, s: SubmitPc, n: Name, ch: Choice, now: Time): (m: Move)
    ensures About(m.events, n)
  {
    var c, d := l.cell, l.cell.disk;
    match s
    case Wipe(code, ow) =>
      if d.staging == NoDir then l.To(Sub(Copy(code, ow)))
      else if ch == Partway then l.OnDisk(d.(staging := Torn), l.pc)
      else if ch == Raise then l.To(Free)
      else l.OnDisk(d.(staging := NoDir), Sub(Copy(code, ow)))
    case Copy(code, ow) =>
      if ch == Partway then l.OnDisk(d.(staging := Torn), l.pc)
      else if ch == Raise then l.To(Free)
      else l.OnDisk(d.(staging := Whole(code)), Sub(Parse(ow)))
    case Parse(ow) =>
      if ch == Raise then l.To(Free)
      else if ch == Says(false) then l.To(Sub(Rollback))
      else l.To(Sub(Decide(ow, now)))
    case Decide(ow, at) =>
      if c.rec.Some? && !ow then l.To(Sub(Rollback))
      else if ch == Raise then l.To(Free)
      else if c.rec.None? then l.To(Sub(Register))
      else l.To(Sub(Overwrite(at, c.rec.value.version + 1)))
    case Register =>
      l.Settles(Registered(c, n, now), Free)
    case Overwrite(at, version) =>
      l.(abandoned := false).Wrote(
        Transitioned(c, n, Submitted, None, Some(OverwriteOp), Updates(Some(version), Some(at), None), now), Sub(Discard))
    case Discard =>
      l.OnSnap(if ch == Raise then c.snap else None, Sub(Purge))
    case Purge =>
      if ch == Partway then l.OnDisk(PurgeOne(d), l.pc)
      else if ch == Raise then l.To(Free)
      else l.OnDisk(Purged(d), Free)
    case Rollback =>
      if ch == Partway && d.staging != NoDir then l.OnDisk(d.(staging := Torn), l.pc)
      else if ch == Raise then l.To(Free)
      else l.OnDisk(d.(staging := NoDir), Free)
  }

  /** Exceptions of submit_one reach a handler outside the locked section, which removes the staging directory
      after the lock has been released (submit.py:213-230). */
  predicate LeavesRollback(l: Local, ch: Choice) {
    ch == Raise && l.pc.Sub? &&
    match l.pc.s
    case Parse(_) => true
    case Decide(ow, _) => l.cell.rec.None? || ow
    case Purge => true
    case _ => false
  }

  // ------------------------------------------------------------------ check

  const REVERT := Chk(RevertLog(None, None))

  /** Where a stage's outcome sends the check (check.py:333-451). */
  function AfterStage(i: nat, o: StageOutcome, now: Time): Pc
    requires i < |PIPELINE|
  {
    var stage := PIPELINE[i].name;
    match o
    case Passes => if i + 1 < |PIPELINE| then Chk(RunStage(i + 1)) else Chk(Summary)
    case Skips => Chk(RevertLog(None, Some(stage)))
    case Fails =>
      if Retryable(stage) then Chk(RevertLog(Some(false), Some(stage))) else Rej(stage, now, Measure)
    case Errs => REVERT
  }

  /** attach_snapshot, whose failures the caller swallows: done, stopped after deleting the old row, or not done. */
  function Attached(before: Option<Time>, at: Time, ch: Choice): Option<Time> {
    if ch == Raise then before else if ch == Partway then None else Some(at)
  }

  function CheckStep(l: Local, k: CheckPc, n: Name, ch: Choice, now: Time): (m: Move)
    ensures About(m.events, n)
  {
    var c, d := l.cell, l.cell.disk;
    match k
    case Ensure =>
      if c.rec.Some? then l.To(Chk(Mark))
      else if ch == Raise || ch == Says(false) then l.To(Free)
      else l.Settles(Registered(c, n, now), Chk(Mark))
    case Mark =>
      l.(abandoned := false).Wrote(Transitioned(c, n, Checking, None, None, NO_UPDATES, now), Chk(RunStage(0)))
    case RunStage(i) =>
      if i >= |PIPELINE| then l.To(Chk(Summary))
      else if PIPELINE[i].prepares && d.staging == NoDir then l.To(REVERT)
      else l.To(AfterStage(i, if ch.StageSays? then ch.outcome else if ch == Raise then Errs else Passes, now))
    case Summary =>
      if ch == Raise then l.To(REVERT) else l.To(Chk(PassLog(now)))
    case PassLog(at) =>
      l.Wrote(CheckAppended(c, n, Some(true), None, at), Chk(PassMark(at)))
    case PassMark(at) =>
      l.Wrote(Transitioned(c, n, Active, None, None, Updates(None, None, Some(at)), now), Chk(PassSnap(at)))
    case PassSnap(at) =>
      l.OnSnap(Attached(c.snap, at, ch), Arc(ClearSrc))
    case RevertLog(passed, failed) =>
      l.Wrote(CheckAppended(c, n, passed, failed, now), Chk(RevertMark))
    case RevertMark =>
      l.Wrote(Transitioned(c, n, Submitted, None, None, NO_UPDATES, now), Free)
  }

  /** repository.archive: an exception lands in the check's unexpected arm. */
  function ArchiveStep(l: Local, a: ArchivePc, ch: Choice): (m: Move)
    ensures m.events == []
  {
    var c, d := l.cell, l.cell.disk;
    if ch == Raise then l.To(REVERT)
    else match a
         case ClearSrc =>
           if ch == Partway && d.src != NoDir then l.OnDisk(d.(src := Torn), l.pc)
           else l.OnDisk(d.(src := NoDir), Arc(MoveSrc))
         case MoveSrc =>
           if d.staging == NoDir then l.To(REVERT)
           else l.OnDisk(d.(src := d.staging, staging := NoDir), Arc(EditXml))
         case EditXml => l.To(Arc(MoveDump))
         case MoveDump =>
           if ch == Partway then l.OnDisk(d.(dump := false), l.pc) else l.OnDisk(d.(dump := true), Arc(MovePnl))
         case MovePnl =>
           if ch == Partway then l.OnDisk(d.(pnl := false), l.pc) else l.OnDisk(d.(pnl := true), Arc(CopyToPool))
         case CopyToPool => l.OnDisk(Pool(d, if ch.Source? then ch.kind else None), Free)
  }

  /** The reject arm: the measured snapshot, on_reject, the log row, the status. Exceptions of on_reject leave the locked section. */
  function RejectStep(l: Local, stage: StageName, at: Time, j: RejectPc, n: Name, ch: Choice, now: Time): (m: Move)
    ensures About(m.events, n)
  {
    var c, d := l.cell, l.cell.disk;
    var escape := Move(Local(c, Free, true), []);
    var keep := KeepsArtifacts(stage);
    match j
    case Measure =>
      l.OnSnap(if keep && ch != Says(false) then Attached(c.snap, at, ch) else c.snap, Rej(stage, at, ClearOld))
    case ClearOld =>
      if ch == Raise then escape
      else if ch == Partway && d.src != NoDir then l.OnDisk(d.(src := Torn), l.pc)
      else l.OnDisk(d.(src := NoDir), Rej(stage, at, CopySrc))
    case CopySrc =>
      if ch == Raise || d.staging == NoDir then escape
      else if ch == Partway then l.OnDisk(d.(src := Torn), l.pc)
      else l.OnDisk(d.(src := d.staging), Rej(stage, at, EditCopy))
    case EditCopy =>
      if ch == Raise then escape else l.To(Rej(stage, at, KeepArtifacts))
    case KeepArtifacts =>
      if ch == Raise then escape
      else if keep then l.OnDisk(if ch == Says(false) then d else d.(pnl := true, dump := true), Rej(stage, at, ClearStaging))
      else if ch == Partway then l.OnDisk(d.(dump := false), l.pc)
      else l.OnDisk(d.(dump := false, feature := false), Rej(stage, at, ClearStaging))
    case ClearStaging =>
      if ch == Partway && d.staging != NoDir then l.OnDisk(d.(staging := Torn), l.pc)
      else if ch == Raise then l.To(Rej(stage, at, LogFailure))
      else l.OnDisk(d.(staging := NoDir), Rej(stage, at, LogFailure))
    case LogFailure =>
      l.Wrote(CheckAppended(c, n, Some(false), Some(stage), at), Rej(stage, at, MarkRejected))
    case MarkRejected =>
      l.Wrote(Transitioned(c, n, Rejected, None, None, NO_UPDATES, now), Free)
  }

  // ------------------------------------------------------------------ restage, approve, cancel, rm, clear

  function RestageStep(l: Local, t: RestagePc, n: Name, ch: Choice, now: Time): (m: Move)
    ensures About(m.events, n)
  {
    var c, d := l.cell, l.cell.disk;
    match t
    case Recheck(purge) =>
      if c.rec.Some? && (c.rec.value.status == Active || c.rec.value.status == Rejected) && d.src != NoDir && ch != Says(false) then
        l.To(Rst(Recalling(c.rec.value.status, purge, MoveBack)))
      else l.To(Free)
    case Recalling(from, purge, r) => RecallStep(l, from, purge, r, n, ch, now)
    case DropSnapshot => l.OnSnap(if ch == Raise then c.snap else None, Free)
  }

  function RecallStep(l: Local, from: Status, purge: bool, r: RecallPc, n: Name, ch: Choice, now: Time): (m: Move)
    ensures About(m.events, n)
  {
    var c, d := l.cell, l.cell.disk;
    match r
    case MoveBack =>
      if ch == Raise || d.src == NoDir || d.staging != NoDir then l.To(Free)
      else l.OnDisk(d.(staging := d.src, src := NoDir), Rst(Recalling(from, purge, EditBack)))
    case EditBack =>
      l.To(if ch == Raise then Free else Rst(Recalling(from, purge, PurgeServing)))
    case PurgeServing =>
      if from != Rejected && !purge then l.To(Rst(Recalling(from, purge, PurgeCheck)))
      else if ch == Raise then l.To(Free)
      else if ch == Partway then l.OnDisk(d.(dump := false), l.pc)
      else l.OnDisk(d.(dump := false, feature := false), Rst(Recalling(from, purge, PurgeCheck)))
    case PurgeCheck =>
      if ch == Raise then l.To(Free)
      else if ch == Partway then l.OnDisk(PurgeOne(d), l.pc)
      else l.OnDisk(Purged(d), Rst(Recalling(from, purge, MarkSubmitted)))
    case MarkSubmitted =>
      l.Wrote(Transitioned(c, n, Submitted, Some(from), Some(RestageOp), NO_UPDATES, now), Rst(DropSnapshot))
  }

  /** approve's eligibility predicate (Factor.correlation_rejected). */
  predicate Approvable(c: Cell, lastFail: Option<Event>) {
    c.rec.Some? && c.rec.value.status == Rejected &&
    lastFail.Some? && lastFail.value.failedStage == Some(Correlation)
  }

  function ApproveStep(l: Local, p: ApprovePc, n: Name, lastFail: Option<Event>, now: Time): (m: Move)
    ensures About(m.events, n)
  {
    match p
    case Eligible =>
      if Approvable(l.cell, lastFail) then l.To(App(Flip(l.cell.rec.value.enteredAt.GetOr(now)))) else l.To(Free)
    case Flip(at) =>
      l.Wrote(Transitioned(l.cell, n, Active, Some(Rejected), Some(ApproveOp), Updates(None, None, Some(at)), now), Free)
  }

  /** cancel's eligibility predicate (cancel.py:_ineligible_reason). */
  predicate Cancellable(c: Cell, force: bool) {
    c.rec.Some? &&
    (c.rec.value.status == Submitted || (force && c.rec.value.status == Checking)) &&
    c.rec.value.enteredAt.None? &&
    c.disk.src == NoDir
  }

  /** repository.unstage as one step of a command; it raises to the command's caller. */
  function Unstage(l: Local, ch: Choice, next: Pc): (m: Move)
    ensures m.events == []
  {
    var c, d := l.cell, l.cell.disk;
    if ch == Raise then l.To(Free)
    else if ch == Partway && d.staging != NoDir then l.OnDisk(d.(staging := Torn), l.pc)
    else l.OnDisk(d.(staging := NoDir), next)
  }

  function RemovalStep(l: Local, x: RemovalPc, n: Name, ch: Choice, now: Time): (m: Move)
    ensures About(m.events, n)
  {
    var c, d := l.cell, l.cell.disk;
    match x
    case CancelCheck(force) => l.To(if Cancellable(c, force) then Del(CancelUnstage) else Free)
    case CancelUnstage => Unstage(l, ch, Del(CancelDelete))
    case CancelDelete => l.Settles(Deleted(c, n, CancelOp, now), Free)
    case RmServing =>
      if ch == Raise then l.To(Free)
      else if ch == Partway then l.OnDisk(d.(dump := false), l.pc)
      else l.OnDisk(d.(dump := false, feature := false), Del(RmSrc))
    case RmSrc =>
      if ch == Raise then l.To(Free)
      else if ch == Partway && d.src != NoDir then l.OnDisk(d.(src := Torn), l.pc)
      else l.OnDisk(d.(src := NoDir), Del(RmUnstage))
    case RmUnstage => Unstage(l, ch, Del(RmPurge))
    case RmPurge =>
      if ch == Raise then l.To(Free)
      else if ch == Partway then l.OnDisk(PurgeOne(d), l.pc)
      else l.OnDisk(Purged(d), Del(RmDelete))
    case RmDelete => l.Settles(Deleted(c, n, RmOp, now), Free)
    case ClearCheck => l.To(if c.rec.None? && d.staging != NoDir then Del(ClearUnstage) else Free)
    case ClearUnstage => Unstage(l, ch, Free)
  }

  // ------------------------------------------------------------------ one step of the lock holder

  function LocalStep(l: Local, n: Name, lastFail: Option<Event>, ch: Choice, now: Time): (m: Move)
    ensures About(m.events, n)
  {
    match l.pc
    case Free => l.To(Free)
    case Sub(s) => SubmitStep(l, s, n, ch, now)
    case Chk(k) => CheckStep(l, k, n, ch, now)
    case Arc(a) => ArchiveStep(l, a, ch)
    case Rej(stage, at, j) => RejectStep(l, stage, at, j, n, ch, now)
    case Rst(t) => RestageStep(l, t, n, ch, now)
    case App(p) => ApproveStep(l, p, n, lastFail, now)
    case Del(x) => RemovalStep(l, x, n, ch, now)
  }
}
