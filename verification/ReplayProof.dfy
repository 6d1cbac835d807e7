// One factor under its lock: the status row is a fold of the event log.
// Nothing is assumed here about file operations or about where a check starts.
module ReplayProof {
  import opened Prelude
  import opened Factor
  import opened Commands

  /** Presence, version and entered_at are what the log says. */
  predicate Tracks(c: Cell, life: Life) {
    && c.rec.Some? == life.Present?
    && (c.rec.Some? ==> c.rec.value.version == life.version && c.rec.value.enteredAt.Some? == life.entered)
  }

  /** What a control point promises about the status row. */
  datatype Expectation =
    | Settled      // the row says what the log says, or CHECKING after an abandoned check
    | Claimed      // CHECKING
    | Entered      // ACTIVE, and the log agrees
    | Verdict(status: Status) // the log already says `status`
    | Anything

  function Expects(pc: Pc): Expectation {
    match pc
    case Chk(k) => (
      match k
      case Ensure => Settled
      case Mark => Settled
      case PassSnap(_) => Entered
      case RevertLog(_, _) => Anything
      case RevertMark => Verdict(Submitted)
      case _ => Claimed
    )
    case Arc(_) => Entered
    case Rej(_, _, j) => if j == MarkRejected then Verdict(Rejected) else Claimed
    case _ => Settled
  }

  predicate StatusAt(l: Local, d: Digest) {
    d.grammatical &&
    (l.cell.rec.Some? && d.life.Present? ==>
      var status, life := l.cell.rec.value.status, d.life;
      match Expects(l.pc)
      case Settled => if l.abandoned then status == Checking else status == life.status
      case Claimed => status == Checking && !l.abandoned
      case Entered => status == life.status == Active && !l.abandoned
      case Verdict(s) => life.status == s && !l.abandoned
      case Anything => !l.abandoned)
  }

  /** Values read earlier in a command and still carried by it. */
  predicate Carried(l: Local, d: Digest) {
    match l.pc
    case Sub(s) =>
      && (s.Register? ==> l.cell.rec.None?)
      && (s.Overwrite? ==> l.cell.rec.Some? && s.version == l.cell.rec.value.version + 1)
    case Chk(k) =>
      && (k.RevertLog? ==> k.passed == None || (k.passed == Some(false) && k.failed.Some? && Retryable(k.failed.value)))
      && (k.PassMark? ==> d.lastRow.Some? && d.lastRow.value.op == CheckOp && d.lastRow.value.passed == Some(true))
    case Rej(stage, _, _) => !Retryable(stage)
    case Rst(t) => t.Recalling? ==> t.from == Active || t.from == Rejected
    case App(p) => p.Flip? ==> d.lastFail.Some? && d.lastFail.value.failedStage == Some(Correlation)
    case Del(x) => x.CancelUnstage? || x.CancelDelete? ==> l.cell.rec.Some? && l.cell.rec.value.enteredAt.None?
    case _ => true
  }

  /** The check row's time, once a command has read it and until it has written it. */
  function PendingAt(pc: Pc): Option<Time> {
    match pc
    case Chk(k) => if k.PassLog? then Some(k.at) else None
    case Rej(_, at, j) => if j == MarkRejected then None else Some(at)
    case _ => None
  }

  predicate Timely(pc: Pc, d: Digest, now: Time) {
    d.inOrder && d.lastAt <= PendingAt(pc).GetOr(now) <= now
  }

  predicate Sound(l: Local, d: Digest, now: Time) {
    Tracks(l.cell, d.life) && Carried(l, d) && Timely(l.pc, d, now)
  }

  /** A move keeps Sound, and keeps StatusAt if it held. */
  predicate Keeps(l: Local, d: Digest, m: Move, now: Time) {
    && |m.events| <= 2
    && Sound(m.next, NoteAll(d, m.events), now)
    && (StatusAt(l, d) ==> StatusAt(m.next, NoteAll(d, m.events)))
  }

  // One lemma per phase; where a phase also writes rows, those steps are a lemma of their own (...Rows).

  lemma SubmitRows(l: Local, n: Name, d: Digest, ch: Choice, now: Time, m: Move)
    requires l.pc.Sub? && (l.pc.s.Register? || l.pc.s.Overwrite?) && Sound(l, d, now)
    requires m == SubmitStep(l, l.pc.s, n, ch, now)
    ensures Keeps(l, d, m, now)
  {
  }

  lemma SubmitFiles(l: Local, n: Name, d: Digest, ch: Choice, now: Time, m: Move)
    requires l.pc.Sub? && !(l.pc.s.Register? || l.pc.s.Overwrite?) && Sound(l, d, now)
    requires m == SubmitStep(l, l.pc.s, n, ch, now)
    ensures Keeps(l, d, m, now)
  {
    hide Replay1, Follows, Note, Transitioned, Registered;
  }

  lemma CheckPass(l: Local, n: Name, d: Digest, ch: Choice, now: Time, m: Move)
    requires l.pc.Chk? && (l.pc.k.PassLog? || l.pc.k.PassMark?) && Sound(l, d, now)
    requires m == CheckStep(l, l.pc.k, n, ch, now)
    ensures Keeps(l, d, m, now)
  {
  }

  lemma CheckClaim(l: Local, n: Name, d: Digest, ch: Choice, now: Time, m: Move)
    requires l.pc.Chk? && (l.pc.k.Ensure? || l.pc.k.Mark?) && Sound(l, d, now)
    requires m == CheckStep(l, l.pc.k, n, ch, now)
    ensures Keeps(l, d, m, now)
  {
  }

  lemma CheckRevert(l: Local, n: Name, d: Digest, ch: Choice, now: Time, m: Move)
    requires l.pc.Chk? && (l.pc.k.RevertLog? || l.pc.k.RevertMark?) && Sound(l, d, now)
    requires m == CheckStep(l, l.pc.k, n, ch, now)
    ensures Keeps(l, d, m, now)
  {
  }

  lemma CheckStages(l: Local, n: Name, d: Digest, ch: Choice, now: Time, m: Move)
    requires l.pc.Chk? && (l.pc.k.RunStage? || l.pc.k.Summary? || l.pc.k.PassSnap?) && Sound(l, d, now)
    requires m == CheckStep(l, l.pc.k, n, ch, now)
    ensures Keeps(l, d, m, now)
  {
    hide Replay1, Follows, Note, Transitioned, Registered;
  }

  lemma ArchiveSound(l: Local, d: Digest, ch: Choice, now: Time, m: Move)
    requires l.pc.Arc? && Sound(l, d, now)
    requires m == ArchiveStep(l, l.pc.a, ch)
    ensures Keeps(l, d, m, now)
  {
    hide Replay1, Follows, Note, Transitioned, Registered;
  }

  lemma RejectRows(l: Local, n: Name, d: Digest, ch: Choice, now: Time, m: Move)
    requires l.pc.Rej? && (l.pc.j.LogFailure? || l.pc.j.MarkRejected?) && Sound(l, d, now)
    requires m == RejectStep(l, l.pc.stage, l.pc.at, l.pc.j, n, ch, now)
    ensures Keeps(l, d, m, now)
  {
  }

  lemma RejectFiles(l: Local, n: Name, d: Digest, ch: Choice, now: Time, m: Move)
    requires l.pc.Rej? && !(l.pc.j.LogFailure? || l.pc.j.MarkRejected?) && Sound(l, d, now)
    requires m == RejectStep(l, l.pc.stage, l.pc.at, l.pc.j, n, ch, now)
    ensures Keeps(l, d, m, now)
  {
    hide Replay1, Follows, Note, Transitioned, Registered;
  }

  lemma RestageRows(l: Local, n: Name, d: Digest, ch: Choice, now: Time, m: Move)
    requires l.pc.Rst? && (l.pc.t.Recalling? && l.pc.t.r.MarkSubmitted?) && Sound(l, d, now)
    requires m == RestageStep(l, l.pc.t, n, ch, now)
    ensures Keeps(l, d, m, now)
  {
  }

  lemma RestageFiles(l: Local, n: Name, d: Digest, ch: Choice, now: Time, m: Move)
    requires l.pc.Rst? && !(l.pc.t.Recalling? && l.pc.t.r.MarkSubmitted?) && Sound(l, d, now)
    requires m == RestageStep(l, l.pc.t, n, ch, now)
    ensures Keeps(l, d, m, now)
  {
    hide Replay1, Follows, Note, Transitioned, Registered;
  }

  lemma ApproveSound(l: Local, n: Name, d: Digest, now: Time, m: Move)
    requires l.pc.App? && Sound(l, d, now)
    requires m == ApproveStep(l, l.pc.p, n, d.lastFail, now)
    ensures Keeps(l, d, m, now)
  {
  }

  lemma RemovalRows(l: Local, n: Name, d: Digest, ch: Choice, now: Time, m: Move)
    requires l.pc.Del? && (l.pc.x.CancelDelete? || l.pc.x.RmDelete?) && Sound(l, d, now)
    requires m == RemovalStep(l, l.pc.x, n, ch, now)
    ensures Keeps(l, d, m, now)
  {
  }

  lemma RemovalFiles(l: Local, n: Name, d: Digest, ch: Choice, now: Time, m: Move)
    requires l.pc.Del? && !(l.pc.x.CancelDelete? || l.pc.x.RmDelete?) && Sound(l, d, now)
    requires m == RemovalStep(l, l.pc.x, n, ch, now)
    ensures Keeps(l, d, m, now)
  {
    hide Replay1, Follows, Note, Transitioned, Registered;
  }

  lemma IdleSound(l: Local, d: Digest, now: Time)
    requires l.pc == Free && Sound(l, d, now)
    ensures Keeps(l, d, Move(l, []), now)
  {
  }

  /** Every step of every command, whatever the world decides, keeps the status row in step with the log. */
  lemma StepSound(l: Local, n: Name, d: Digest, ch: Choice, now: Time)
    requires Sound(l, d, now)
    ensures Keeps(l, d, LocalStep(l, n, d.lastFail, ch, now), now)
  {
    hide Sound, Keeps;
    var m := LocalStep(l, n, d.lastFail, ch, now);
    match l.pc
    case Free => IdleSound(l, d, now);
    case Sub(s) =>
      if s.Register? || s.Overwrite? {
        SubmitRows(l, n, d, ch, now, m);
      } else {
        SubmitFiles(l, n, d, ch, now, m);
      }
    case Chk(k) =>
      if k.PassLog? || k.PassMark? {
        CheckPass(l, n, d, ch, now, m);
      } else if k.Ensure? || k.Mark? {
        CheckClaim(l, n, d, ch, now, m);
      } else if k.RevertLog? || k.RevertMark? {
        CheckRevert(l, n, d, ch, now, m);
      } else {
        CheckStages(l, n, d, ch, now, m);
      }
    case Arc(_) => ArchiveSound(l, d, ch, now, m);
    case Rej(_, _, j) =>
      if j.LogFailure? || j.MarkRejected? {
        RejectRows(l, n, d, ch, now, m);
      } else {
        RejectFiles(l, n, d, ch, now, m);
      }
    case Rst(t) =>
      if t.Recalling? && t.r.MarkSubmitted? {
        RestageRows(l, n, d, ch, now, m);
      } else {
        RestageFiles(l, n, d, ch, now, m);
      }
    case App(_) => ApproveSound(l, n, d, now, m);
    case Del(x) =>
      if x.CancelDelete? || x.RmDelete? {
        RemovalRows(l, n, d, ch, now, m);
      } else {
        RemovalFiles(l, n, d, ch, now, m);
      }
  }
}
