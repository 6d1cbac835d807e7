// One factor under its lock, on runs where no file operation raises and no check starts
// without its staging directory: where the source, the pnl, the pool copies and the snapshot are.
module DiskProof {
  import opened Prelude
  import opened Factor
  import opened Commands

  /** The steps whose exceptions the commands handle without leaving files behind. */
  predicate Handled(pc: Pc) {
    match pc
    case Chk(_) => true
    case Rej(_, _, j) => j.Measure?
    case _ => false
  }

  predicate FileOperationRaises(pc: Pc, ch: Choice) {
    ch == Raise && !Handled(pc)
  }

  /** The snapshot, if any, was measured by the latest check. */
  predicate Measured(c: Cell, lastCheck: Option<Time>) {
    c.snap.Some? ==> c.snap == lastCheck
  }

  /** Nothing of an earlier version is left for the correlation check to compare with. */
  predicate NoGhost(d: Disk) {
    !d.pnl && !Pooled(d)
  }

  /** Source archived in alpha_src and gone from staging. */
  predicate Archived(d: Disk) {
    d.src.Whole? && d.staging == NoDir
  }

  /** A factor at rest, whatever its staging directory holds. */
  predicate ShelvedApart(c: Cell, lastCheck: Option<Time>) {
    match c.rec
    case None => c.snap.None? && NoGhost(c.disk) && c.disk.src == NoDir
    case Some(r) =>
      match r.status
      case Submitted => c.snap.None? && NoGhost(c.disk) && !c.disk.src.Torn?
      case Checking => false
      case Active =>
        r.enteredAt.Some? && c.disk.src.Whole? && Measured(c, lastCheck) && !(c.disk.poolAutomated && c.disk.poolManual)
      case Rejected => c.disk.src.Whole? && Measured(c, lastCheck) && !Pooled(c.disk)
  }

  /** A factor at rest: what every command finds and leaves. */
  predicate Shelved(c: Cell, lastCheck: Option<Time>) {
    && ShelvedApart(c, lastCheck)
    && (c.disk.staging == NoDir || (c.disk.staging.Whole? && c.rec.Some? && c.rec.value.status == Submitted))
  }

  predicate Has(c: Cell, s: Status) {
    c.rec.Some? && c.rec.value.status == s
  }

  /** A check has claimed the factor: nothing measured yet, source whole in staging. */
  predicate UnderCheck(c: Cell, s: Status) {
    Has(c, s) && c.snap.None? && NoGhost(c.disk) && c.disk.staging.Whole? && !c.disk.src.Torn?
  }

  predicate OrderlySubmit(s: SubmitPc, c: Cell, lastCheck: Option<Time>) {
    match s
    case Wipe(_, _) => ShelvedApart(c, lastCheck)
    case Copy(_, _) => ShelvedApart(c, lastCheck)
    case Discard => Has(c, Submitted) && c.disk.staging.Whole? && !c.disk.src.Torn?
    case Purge => Has(c, Submitted) && c.disk.staging.Whole? && !c.disk.src.Torn? && c.snap.None?
    case Rollback => ShelvedApart(c, lastCheck)
    case Register => ShelvedApart(c, lastCheck) && c.disk.staging.Whole? && c.rec.None?
    case Overwrite(_, _) => ShelvedApart(c, lastCheck) && c.disk.staging.Whole? && c.rec.Some?
    case _ => ShelvedApart(c, lastCheck) && c.disk.staging.Whole?
  }

  predicate OrderlyCheck(k: CheckPc, c: Cell, lastCheck: Option<Time>) {
    match k
    case Ensure => Shelved(c, lastCheck) && c.disk.staging.Whole?
    case Mark => UnderCheck(c, Submitted)
    case PassMark(at) => UnderCheck(c, Checking) && lastCheck == Some(at)
    case PassSnap(at) => UnderCheck(c, Active) && c.rec.value.enteredAt.Some? && lastCheck == Some(at)
    case _ => UnderCheck(c, Checking)
  }

  predicate OrderlyArchive(a: ArchivePc, c: Cell, lastCheck: Option<Time>) {
    Has(c, Active) && c.rec.value.enteredAt.Some? && Measured(c, lastCheck) && !Pooled(c.disk) &&
    if a.ClearSrc? || a.MoveSrc? then c.disk.staging.Whole? else Archived(c.disk)
  }

  predicate OrderlyReject(at: Time, j: RejectPc, c: Cell, lastCheck: Option<Time>) {
    Has(c, Checking) && !Pooled(c.disk) &&
    match j
    case Measure => c.snap.None? && c.disk.staging.Whole?
    case ClearOld => Measured(c, Some(at)) && c.disk.staging.Whole?
    case CopySrc => Measured(c, Some(at)) && c.disk.staging.Whole?
    case LogFailure => Measured(c, Some(at)) && Archived(c.disk)
    case MarkRejected => Measured(c, lastCheck) && Archived(c.disk)
    case _ => Measured(c, Some(at)) && c.disk.src.Whole?
  }

  predicate OrderlyRestage(t: RestagePc, c: Cell, lastCheck: Option<Time>) {
    match t
    case Recheck(_) => Shelved(c, lastCheck)
    case Recalling(from, _, r) =>
      if r.MoveBack? then Shelved(c, lastCheck) && Has(c, from) && from != Submitted
      else Has(c, from) && c.disk.src == NoDir && c.disk.staging.Whole? && (r.MarkSubmitted? ==> NoGhost(c.disk))
    case DropSnapshot => Has(c, Submitted) && c.disk.src == NoDir && c.disk.staging.Whole? && NoGhost(c.disk)
  }

  predicate OrderlyRemoval(x: RemovalPc, c: Cell, lastCheck: Option<Time>) {
    match x
    case CancelUnstage => ShelvedApart(c, lastCheck) && Has(c, Submitted) && c.disk.src == NoDir
    case CancelDelete => Shelved(c, lastCheck) && Has(c, Submitted) && c.disk.src == NoDir && c.disk.staging == NoDir
    case ClearUnstage => false
    case RmSrc => true
    case RmUnstage => c.disk.src == NoDir
    case RmPurge => c.disk.src == NoDir && c.disk.staging == NoDir
    case RmDelete => c.disk.src == NoDir && c.disk.staging == NoDir && NoGhost(c.disk)
    case _ => Shelved(c, lastCheck)
  }

  /** The files and the snapshot at each control point. */
  predicate Orderly(l: Local, lastCheck: Option<Time>) {
    match l.pc
    case Free => Shelved(l.cell, lastCheck)
    case Sub(s) => OrderlySubmit(s, l.cell, lastCheck)
    case Chk(k) => OrderlyCheck(k, l.cell, lastCheck)
    case Arc(a) => OrderlyArchive(a, l.cell, lastCheck)
    case Rej(_, at, j) => OrderlyReject(at, j, l.cell, lastCheck)
    case Rst(t) => OrderlyRestage(t, l.cell, lastCheck)
    case App(p) => Shelved(l.cell, lastCheck) && (p.Flip? ==> Has(l.cell, Rejected))
    case Del(x) => OrderlyRemoval(x, l.cell, lastCheck)
  }

  predicate KeepsOrder(d: Digest, m: Move) {
    |m.events| <= 2 && Orderly(m.next, NoteAll(d, m.events).lastCheck)
  }

  // One or two lemmas per phase, which know the other phases' predicates by name only.

  lemma SubmitOrderly(l: Local, n: Name, d: Digest, ch: Choice, now: Time, m: Move)
    requires l.pc.Sub? && Orderly(l, d.lastCheck) && !FileOperationRaises(l.pc, ch)
    requires m == SubmitStep(l, l.pc.s, n, ch, now)
    ensures KeepsOrder(d, m)
  {
    hide OrderlyCheck, OrderlyArchive, OrderlyReject, OrderlyRestage, OrderlyRemoval;
  }

  lemma CheckStagesOrderly(l: Local, n: Name, d: Digest, ch: Choice, now: Time, m: Move)
    requires l.pc.Chk? && (l.pc.k.RunStage? || l.pc.k.Summary?) && Orderly(l, d.lastCheck)
    requires m == CheckStep(l, l.pc.k, n, ch, now)
    ensures KeepsOrder(d, m)
  {
    hide OrderlySubmit, OrderlyRestage, OrderlyRemoval, Shelved;
  }

  lemma CheckClaimOrderly(l: Local, n: Name, d: Digest, ch: Choice, now: Time, m: Move)
    requires l.pc.Chk? && (l.pc.k.Ensure? || l.pc.k.Mark?) && Orderly(l, d.lastCheck)
    requires m == CheckStep(l, l.pc.k, n, ch, now)
    ensures KeepsOrder(d, m)
  {
    hide OrderlySubmit, OrderlyArchive, OrderlyReject, OrderlyRestage, OrderlyRemoval;
  }

  lemma CheckVerdictOrderly(l: Local, n: Name, d: Digest, ch: Choice, now: Time, m: Move)
    requires l.pc.Chk? && Orderly(l, d.lastCheck)
    requires !(l.pc.k.RunStage? || l.pc.k.Summary?) && !(l.pc.k.Ensure? || l.pc.k.Mark?)
    requires m == CheckStep(l, l.pc.k, n, ch, now)
    ensures KeepsOrder(d, m)
  {
    hide OrderlySubmit, OrderlyReject, OrderlyRestage, OrderlyRemoval;
  }

  lemma ArchiveOrderly(l: Local, d: Digest, ch: Choice, m: Move)
    requires l.pc.Arc? && Orderly(l, d.lastCheck) && !FileOperationRaises(l.pc, ch)
    requires m == ArchiveStep(l, l.pc.a, ch)
    ensures KeepsOrder(d, m)
  {
    hide OrderlySubmit, OrderlyCheck, OrderlyReject, OrderlyRestage, OrderlyRemoval;
  }

  lemma RejectRowsOrderly(l: Local, n: Name, d: Digest, ch: Choice, now: Time, m: Move)
    requires l.pc.Rej? && Orderly(l, d.lastCheck) && !FileOperationRaises(l.pc, ch)
    requires l.pc.j.LogFailure? || l.pc.j.MarkRejected?
    requires m == RejectStep(l, l.pc.stage, l.pc.at, l.pc.j, n, ch, now)
    ensures KeepsOrder(d, m)
  {
    hide OrderlySubmit, OrderlyCheck, OrderlyArchive, OrderlyRestage, OrderlyRemoval;
  }

  lemma RejectFilesOrderly(l: Local, n: Name, d: Digest, ch: Choice, now: Time, m: Move)
    requires l.pc.Rej? && Orderly(l, d.lastCheck) && !FileOperationRaises(l.pc, ch)
    requires !(l.pc.j.LogFailure? || l.pc.j.MarkRejected?)
    requires m == RejectStep(l, l.pc.stage, l.pc.at, l.pc.j, n, ch, now)
    ensures KeepsOrder(d, m)
  {
    hide OrderlySubmit, OrderlyArchive, OrderlyRestage, OrderlyRemoval, Shelved;
  }

  lemma RecallOrderly(l: Local, n: Name, d: Digest, ch: Choice, now: Time, m: Move)
    requires l.pc.Rst? && Orderly(l, d.lastCheck) && !FileOperationRaises(l.pc, ch)
    requires l.pc.t.Recalling?
    requires m == RestageStep(l, l.pc.t, n, ch, now)
    ensures KeepsOrder(d, m)
  {
    hide OrderlySubmit, OrderlyCheck, OrderlyArchive, OrderlyReject, OrderlyRemoval;
  }

  lemma RestageEndsOrderly(l: Local, n: Name, d: Digest, ch: Choice, now: Time, m: Move)
    requires l.pc.Rst? && Orderly(l, d.lastCheck) && !FileOperationRaises(l.pc, ch)
    requires !(l.pc.t.Recalling?)
    requires m == RestageStep(l, l.pc.t, n, ch, now)
    ensures KeepsOrder(d, m)
  {
    hide OrderlySubmit, OrderlyCheck, OrderlyArchive, OrderlyReject, OrderlyRemoval;
  }

  lemma ApproveOrderly(l: Local, n: Name, d: Digest, now: Time, m: Move)
    requires l.pc.App? && Orderly(l, d.lastCheck)
    requires m == ApproveStep(l, l.pc.p, n, d.lastFail, now)
    ensures KeepsOrder(d, m)
  {
    hide OrderlySubmit, OrderlyCheck, OrderlyArchive, OrderlyReject, OrderlyRestage, OrderlyRemoval;
  }

  lemma RmOrderly(l: Local, n: Name, d: Digest, ch: Choice, now: Time, m: Move)
    requires l.pc.Del? && Orderly(l, d.lastCheck) && !FileOperationRaises(l.pc, ch)
    requires l.pc.x.RmServing? || l.pc.x.RmSrc? || l.pc.x.RmUnstage? || l.pc.x.RmPurge? || l.pc.x.RmDelete?
    requires m == RemovalStep(l, l.pc.x, n, ch, now)
    ensures KeepsOrder(d, m)
  {
    hide OrderlySubmit, OrderlyCheck, OrderlyArchive, OrderlyReject, OrderlyRestage;
  }

  lemma CancelOrClearOrderly(l: Local, n: Name, d: Digest, ch: Choice, now: Time, m: Move)
    requires l.pc.Del? && Orderly(l, d.lastCheck) && !FileOperationRaises(l.pc, ch)
    requires !(l.pc.x.RmServing? || l.pc.x.RmSrc? || l.pc.x.RmUnstage? || l.pc.x.RmPurge? || l.pc.x.RmDelete?)
    requires m == RemovalStep(l, l.pc.x, n, ch, now)
    ensures KeepsOrder(d, m)
  {
    hide OrderlySubmit, OrderlyCheck, OrderlyArchive, OrderlyReject, OrderlyRestage;
  }

  lemma IdleOrderly(l: Local, d: Digest)
    requires Orderly(l, d.lastCheck)
    ensures KeepsOrder(d, Move(l, []))
  {
  }

  /** A step in which no file operation raises keeps the order. */
  lemma StepOrderly(l: Local, n: Name, d: Digest, ch: Choice, now: Time)
    requires Orderly(l, d.lastCheck) && !FileOperationRaises(l.pc, ch)
    ensures KeepsOrder(d, LocalStep(l, n, d.lastFail, ch, now))
  {
    hide Orderly, KeepsOrder, FileOperationRaises;
    var m := LocalStep(l, n, d.lastFail, ch, now);
    match l.pc
    case Free => IdleOrderly(l, d);
    case Sub(_) => SubmitOrderly(l, n, d, ch, now, m);
    case Chk(k) =>
      if k.RunStage? || k.Summary? {
        CheckStagesOrderly(l, n, d, ch, now, m);
      } else if k.Ensure? || k.Mark? {
        CheckClaimOrderly(l, n, d, ch, now, m);
      } else {
        CheckVerdictOrderly(l, n, d, ch, now, m);
      }
    case Arc(_) => ArchiveOrderly(l, d, ch, m);
    case Rej(_, _, j) =>
      if j.LogFailure? || j.MarkRejected? {
        RejectRowsOrderly(l, n, d, ch, now, m);
      } else {
        RejectFilesOrderly(l, n, d, ch, now, m);
      }
    case Rst(t) =>
      if t.Recalling? {
        RecallOrderly(l, n, d, ch, now, m);
      } else {
        RestageEndsOrderly(l, n, d, ch, now, m);
      }
    case App(_) => ApproveOrderly(l, n, d, now, m);
    case Del(x) =>
      if x.RmServing? || x.RmSrc? || x.RmUnstage? || x.RmPurge? || x.RmDelete? {
        RmOrderly(l, n, d, ch, now, m);
      } else {
        CancelOrClearOrderly(l, n, d, ch, now, m);
      }
  }
}
