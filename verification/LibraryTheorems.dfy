// What holds of every interleaving, stated for the reader of the tables and directories.
module LibraryTheorems {
  import opened Prelude
  import opened Factor
  import opened Commands
  import opened ReplayProof
  import opened DiskProof
  import opened Library
  import opened SourceProof

  function After(steps: seq<Step>): World { Run(INIT, steps) }

  function LogOf(w: World, n: Name): seq<Event> { Own(w.history, n) }

  /** The status the log alone gives, if the log says the factor exists. */
  function StatusInLog(w: World, n: Name): Option<Status> {
    match Replay(LogOf(w, n))
    case Absent => None
    case Present(status, _, _) => Some(status)
  }

  /** Two different processes are never inside commands on the same factor. */
  lemma MutualExclusion(steps: seq<Step>, p: Pid, q: Pid)
    requires var w := After(steps); p in w.procs && q in w.procs && w.procs[p].name == w.procs[q].name
    ensures p == q
  {
    RunInv(steps);
  }

  /** In every reachable state, even in the middle of a command: a factor has a row exactly when its log says so,
      its version is one more than the overwrites since the last submit, and entered_at is set exactly when
      an `entered` row follows that submit. */
  lemma RowIsFoldOfLog(steps: seq<Step>, n: Name)
    ensures var w := After(steps);
            var rec := CellOf(w, n).rec;
            && rec.Some? == Replay(LogOf(w, n)).Present?
            && (rec.Some? ==> && rec.value.version == 1 + OverwritesSinceSubmit(LogOf(w, n))
                              && rec.value.enteredAt.Some? == EnteredSinceSubmit(LogOf(w, n)))
  {
    RunInv(steps);
    assert Tended(After(steps), n);
    DigestMeaning(LogOf(After(steps), n));
    ReplayMeaning(LogOf(After(steps), n));
  }

  /** When nobody holds the lock and no process died holding it, the status is the fold of the log exactly when the
      last check was not abandoned by an exception in its reject arm; otherwise the row is stuck at CHECKING. */
  lemma StatusIsFoldOfLog(steps: seq<Step>, n: Name)
    requires var w := After(steps); n !in w.owner && n !in w.dead && CellOf(w, n).rec.Some?
    ensures var w := After(steps);
            var status := CellOf(w, n).rec.value.status;
            && (Some(status) == StatusInLog(w, n) <==> n !in w.abandoned)
            && (n in w.abandoned <==> status == Checking)
  {
    RunInv(steps);
    assert Tended(After(steps), n);
    DigestMeaning(LogOf(After(steps), n));
    ReplayMeaning(LogOf(After(steps), n));
  }

  /** Rows of one factor are written in time order, and each row may follow those before it: approve only after a
      correlation rejection, entered only after a passed check or an approve, restage only from ACTIVE or REJECTED,
      submit only when absent, cancel never after the factor entered the library. */
  lemma LogIsGrammatical(steps: seq<Step>, n: Name)
    ensures var w := After(steps);
            Chronological(LogOf(w, n), w.clock) && (n !in w.dead ==> Grammatical(LogOf(w, n)))
  {
    RunInv(steps);
    assert Tended(After(steps), n);
    DigestMeaning(LogOf(After(steps), n));
  }

  /** cancel never deletes a factor that has entered the library since its last submit, not even on runs where
      file operations raise, checks start stale and processes die. */
  lemma CancelSparesEntered(steps: seq<Step>, p: Pid)
    requires var w := After(steps); p in w.procs && w.procs[p].pc in {Del(CancelUnstage), Del(CancelDelete)}
    ensures var w := After(steps); !EnteredSinceSubmit(LogOf(w, w.procs[p].name))
  {
    var w := After(steps);
    RunInv(steps);
    assert Tended(w, w.procs[p].name);
    DigestMeaning(LogOf(w, w.procs[p].name));
    ReplayMeaning(LogOf(w, w.procs[p].name));
  }

  /** Within the two boundaries, whenever the lock is free: a pool copy means ACTIVE, at most one pool has the name,
      ACTIVE and REJECTED have their source whole in alpha_src and nothing in staging, ACTIVE has entered_at,
      SUBMITTED has no snapshot and no pnl of its own to be compared with, and nothing is stuck at CHECKING. */
  lemma FilesMatchStatus(steps: seq<Step>, n: Name)
    requires var w := After(steps); n !in w.owner && n !in w.strayed
    ensures var w := After(steps);
            var c := CellOf(w, n);
            && (Pooled(c.disk) ==> Has(c, Active))
            && !(c.disk.poolAutomated && c.disk.poolManual)
            && (Has(c, Active) || Has(c, Rejected) ==> c.disk.src.Whole? && c.disk.staging == NoDir)
            && (Has(c, Active) ==> c.rec.value.enteredAt.Some?)
            && (Has(c, Submitted) ==> c.snap.None? && !c.disk.pnl && !Pooled(c.disk))
            && !Has(c, Checking)
  {
    RunInv(steps);
    assert Tended(After(steps), n);
  }

  /** Within the two boundaries, whenever the lock is free: a snapshot carries the time of the latest check row. */
  lemma SnapshotIsOfLatestCheck(steps: seq<Step>, n: Name)
    requires var w := After(steps); n !in w.owner && n !in w.strayed && CellOf(w, n).snap.Some?
    ensures var w := After(steps); CellOf(w, n).snap == LastCheckAt(LogOf(w, n))
  {
    RunInv(steps);
    assert Tended(After(steps), n);
    DigestMeaning(LogOf(After(steps), n));
  }

  /** Within the two boundaries no check is abandoned, so the status is always the fold of the log. */
  lemma NoCheckAbandonedWithinBounds(steps: seq<Step>, n: Name)
    requires var w := After(steps); n !in w.owner && n !in w.strayed && CellOf(w, n).rec.Some?
    ensures var w := After(steps); Some(CellOf(w, n).rec.value.status) == StatusInLog(w, n)
  {
    FilesMatchStatus(steps, n);
    RunInv(steps);
    StatusIsFoldOfLog(steps, n);
  }

  /** The pool copy that ends a process's archive: the automated pool gains the name exactly for an automated source,
      the manual pool exactly for a manual one, every other file and every other factor stay, and the lock is free. */
  lemma PoolCopyExactly(steps: seq<Step>, p: Pid, kind: Option<PoolKind>)
    requires var w := After(steps); p in w.procs && w.procs[p].pc == Arc(CopyToPool)
    ensures var w, w' := After(steps), After(steps + [Advance(p, Source(kind))]);
            var n := w.procs[p].name;
            var d, d' := CellOf(w, n).disk, CellOf(w', n).disk;
            && (d'.poolAutomated <==> d.poolAutomated || kind == Some(Automated))
            && (d'.poolManual <==> d.poolManual || kind == Some(Manual))
            && d' == Disk(d.staging, d.src, d.pnl, d.dump, d.feature, d'.poolAutomated, d'.poolManual)
            && CellOf(w', n).rec == CellOf(w, n).rec && CellOf(w', n).snap == CellOf(w, n).snap
            && w'.history == w.history && n !in w'.owner && p !in w'.procs
            && forall k :: k != n ==> CellOf(w', k) == CellOf(w, k)
  {
    var w := After(steps);
    var all := steps + [Advance(p, Source(kind))];
    assert all[..|all| - 1] == steps;
    assert After(all) == Advanced(w, p, Source(kind));
  }

  predicate InPool(c: Cell, kind: PoolKind) {
    match kind
    case Automated => c.disk.poolAutomated
    case Manual => c.disk.poolManual
  }

  /** Step j of the run copied n's pnl to the pool of this kind: a process was at that point of n's archive, and the source said so. */
  ghost predicate CopiedAt(steps: seq<Step>, j: nat, n: Name, kind: PoolKind) {
    j < |steps| && steps[j].Advance? && steps[j].ch == Source(Some(kind)) &&
    var w := After(steps[..j]);
    steps[j].p in w.procs && w.procs[steps[j].p] == Proc(n, Arc(CopyToPool))
  }

  predicate NoGain(c: Cell, c': Cell) {
    (c'.disk.poolAutomated ==> c.disk.poolAutomated) && (c'.disk.poolManual ==> c.disk.poolManual)
  }

  lemma SubmitGain(l: Local, s: SubmitPc, n: Name, ch: Choice, now: Time)
    ensures NoGain(l.cell, SubmitStep(l, s, n, ch, now).next.cell)
  {
  }

  lemma CheckGain(l: Local, k: CheckPc, n: Name, ch: Choice, now: Time)
    ensures NoGain(l.cell, CheckStep(l, k, n, ch, now).next.cell)
  {
    hide AfterStage, Attached;
  }

  lemma RejectGain(l: Local, stage: StageName, at: Time, j: RejectPc, n: Name, ch: Choice, now: Time)
    ensures NoGain(l.cell, RejectStep(l, stage, at, j, n, ch, now).next.cell)
  {
    hide KeepsArtifacts, Attached;
  }

  lemma RecallGain(l: Local, from: Status, purge: bool, r: RecallPc, n: Name, ch: Choice, now: Time)
    ensures NoGain(l.cell, RecallStep(l, from, purge, r, n, ch, now).next.cell)
  {
  }

  lemma RestageGain(l: Local, t: RestagePc, n: Name, ch: Choice, now: Time)
    ensures NoGain(l.cell, RestageStep(l, t, n, ch, now).next.cell)
  {
    if t.Recalling? {
      RecallGain(l, t.from, t.purge, t.r, n, ch, now);
    }
    hide RecallStep;
  }

  lemma RemovalGain(l: Local, x: RemovalPc, n: Name, ch: Choice, now: Time)
    ensures NoGain(l.cell, RemovalStep(l, x, n, ch, now).next.cell)
  {
  }

  lemma ArchiveGain(l: Local, a: ArchivePc, ch: Choice, kind: PoolKind)
    requires InPool(ArchiveStep(l, a, ch).next.cell, kind)
    ensures InPool(l.cell, kind) || (a == CopyToPool && ch == Source(Some(kind)))
  {
  }

  lemma ApproveGain(l: Local, p: ApprovePc, n: Name, f: Option<Event>, now: Time)
    ensures NoGain(l.cell, ApproveStep(l, p, n, f, now).next.cell)
  {
  }

  lemma PoolGain(l: Local, n: Name, f: Option<Event>, ch: Choice, now: Time, kind: PoolKind)
    requires !InPool(l.cell, kind) && InPool(LocalStep(l, n, f, ch, now).next.cell, kind)
    ensures l.pc == Arc(CopyToPool) && ch == Source(Some(kind))
  {
    hide SubmitStep, CheckStep, ArchiveStep, RejectStep, RestageStep, ApproveStep, RemovalStep;
    match l.pc
    case Free =>
    case Sub(s) => SubmitGain(l, s, n, ch, now);
    case Chk(k) => CheckGain(l, k, n, ch, now);
    case Arc(a) => ArchiveGain(l, a, ch, kind);
    case Rej(stage, at, j) => RejectGain(l, stage, at, j, n, ch, now);
    case Rst(t) => RestageGain(l, t, n, ch, now);
    case App(p) => ApproveGain(l, p, n, f, now);
    case Del(x) => RemovalGain(l, x, n, ch, now);
  }

  lemma StepPoolGain(w: World, s: Step, n: Name, kind: PoolKind)
    requires !InPool(CellOf(w, n), kind) && InPool(CellOf(Next(w, s), n), kind)
    ensures s.Advance? && s.p in w.procs && w.procs[s.p] == Proc(n, Arc(CopyToPool)) && s.ch == Source(Some(kind))
  {
    if s.Advance? && s.p in w.procs && w.procs[s.p].name == n {
      PoolGain(Local(CellOf(w, n), w.procs[s.p].pc, n in w.abandoned), n, DigestIn(w, n).lastFail, s.ch, w.clock, kind);
    }
    hide LocalStep, DigestIn;
  }

  /** In every reachable state a name in a pool was copied there by an archive whose source has that kind, and has stayed
      there since. */
  lemma {:induction false} PoolComesFromKind(steps: seq<Step>, n: Name, kind: PoolKind) returns (j: nat)
    ensures InPool(CellOf(After(steps), n), kind) ==>
              CopiedAt(steps, j, n, kind) && forall i :: j < i <= |steps| ==> InPool(CellOf(After(steps[..i]), n), kind)
  {
    j := 0;
    if steps != [] && InPool(CellOf(After(steps), n), kind) {
      var k := |steps| - 1;
      var before := steps[..k];
      assert steps[..|steps|] == steps;
      if InPool(CellOf(After(before), n), kind) {
        j := PoolComesFromKind(before, n, kind);
        assert forall i :: 0 <= i <= k ==> before[..i] == steps[..i];
        assert CopiedAt(steps, j, n, kind);
      } else {
        StepPoolGain(After(before), steps[k], n, kind);
        j := k;
        assert CopiedAt(steps, j, n, kind);
      }
    }
  }

  /** A process takes a factor's lock exactly when it is not busy and nobody holds it; a check, only of a factor it has listed since
      its last check of it. Taking the lock changes no row, log or file. */
  lemma AcquireExactly(w: World, p: Pid, n: Name, cmd: Command)
    ensures var w' := Next(w, Acquire(p, n, cmd));
            && (w' != w <==> p !in w.procs && p !in w.late && n !in w.owner && (cmd == CheckCmd ==> (p, n) in w.scanned))
            && (w' != w ==> && n in w'.owner && w'.owner[n] == p && p in w'.procs && w'.procs[p].name == n
                            && w'.history == w.history && w'.cells == w.cells && w'.late == w.late
                            && ((p, n) in w'.scanned <==> (p, n) in w.scanned && cmd != CheckCmd))
    ensures var w' := Next(w, Scan(p, n)); (p, n) in w'.scanned <==> (p, n) in w.scanned || CellOf(w, n).disk.staging != NoDir
  {
  }

  /** A process owes a rollback when its submit raises at parsing, in the transaction of a factor that is new or to be
      overwritten, or in the purge; at no other point, and without a raise never. */
  lemma LateExactly(w: World, p: Pid, ch: Choice)
    requires p in w.procs && p !in w.late
    ensures var n, w' := w.procs[p].name, Next(w, Advance(p, ch));
            && (p in w'.late <==> ch == Raise && match w.procs[p].pc
                                                 case Sub(Parse(_)) => true
                                                 case Sub(Purge) => true
                                                 case Sub(Decide(overwrite, _)) => overwrite || CellOf(w, n).rec.None?
                                                 case _ => false)
            && (p in w'.late ==> w'.late[p] == n && p !in w'.procs && CellOf(w', n) == CellOf(w, n))
  {
    hide DigestIn, CheckStep, ArchiveStep, RejectStep, RestageStep, ApproveStep, RemovalStep;
  }

  /** What is left when an operation on several files gets only part of the way: a removed or replaced directory is incomplete,
      dump and pnl are gone before their successors come, and the purge takes pnl, automated and manual copy in this order. The
      command stays where it is. */
  lemma PartwayExactly(l: Local, n: Name, f: Option<Event>, now: Time)
    ensures var m, d := LocalStep(l, n, f, Partway, now).next, l.cell.disk;
            && (l.pc in {Arc(MoveDump), Del(RmServing)} ==> m == l.(cell := l.cell.(disk := d.(dump := false))))
            && (l.pc == Arc(MovePnl) ==> m == l.(cell := l.cell.(disk := d.(pnl := false))))
            && (l.pc in {Arc(ClearSrc), Del(RmSrc)} && d.src != NoDir ==> m == l.(cell := l.cell.(disk := d.(src := Torn))))
            && (l.pc in {Sub(Rollback), Del(CancelUnstage), Del(RmUnstage), Del(ClearUnstage)} && d.staging != NoDir ==>
                  m == l.(cell := l.cell.(disk := d.(staging := Torn))))
            && (l.pc in {Sub(Purge), Del(RmPurge)} ==>
                  m == l.(cell := l.cell.(disk := if d.pnl then d.(pnl := false)
                                                  else if d.poolAutomated then d.(poolAutomated := false) else d.(poolManual := false))))
  {
    hide CheckStep, RejectStep, RestageStep, ApproveStep;
  }

  /** What a command of the three puts at stake when it takes the lock: restage the archived source, check the staged
      one, or the archived one when there is no staging directory. */
  predicate PutsAtStake(cmd: Command, d: Disk, k: Code) {
    match cmd
    case RestageCmd(_) => d.src == Whole(k)
    case CheckCmd => AtStake(d) == Some(k) && !d.staging.Torn?
    case ApproveCmd => HasSource(d, k)
    case _ => false
  }

  /** Process p takes n's lock for cmd in the state after `before`, giving w. */
  ghost predicate Takes(before: seq<Step>, p: Pid, n: Name, cmd: Command, w: World) {
    !Holds(After(before), p, n) && w == Next(After(before), Acquire(p, n, cmd)) && Holds(w, p, n)
  }

  lemma EntryGuards(before: seq<Step>, p: Pid, n: Name, cmd: Command, k: Code, w: World)
    requires PutsAtStake(cmd, CellOf(After(before), n).disk, k)
    requires Takes(before, p, n, cmd, w)
    ensures Locked(w) && Guards(LocalOf(w, n), k) && w.late == After(before).late
  {
    var u := After(before);
    RunInv(before);
    NextLocked(u, Acquire(p, n, cmd));
    assert LocalOf(w, n) == Local(CellOf(u, n), Entry(cmd), n in u.abandoned);
  }

  /** From the moment a process takes the lock for check, restage or approve, and in every state until it lets go of
      it, a complete copy of the source it put at stake is in staging or alpha_src - provided that no submit of this
      factor has failed and not yet rolled back, which it does without the lock. */
  lemma {:induction false} TenureKeepsSource(before: seq<Step>, p: Pid, n: Name, cmd: Command, k: Code, w: World, tenure: seq<Step>)
    requires PutsAtStake(cmd, CellOf(After(before), n).disk, k) && NoLateRollback(After(before), n)
    requires Takes(before, p, n, cmd, w)
    requires forall j :: 0 <= j < |tenure| ==> Holds(Run(w, tenure[..j]), p, n)
    ensures HasSource(CellOf(Run(w, tenure), n).disk, k)
  {
    EntryGuards(before, p, n, cmd, k, w);
    TenureSource(w, p, n, k, tenure);
  }

  // ------------------------------------------------------------------ the boundaries are needed

  /** A check that lists staging, then gets the lock only after the directory has been archived or removed. */
  predicate StaleCheck(l: Local) {
    (l.pc in {Chk(Ensure), Chk(Mark), Chk(RunStage(0)), REVERT, Chk(RevertMark), Free}) && l.cell.disk.staging == NoDir
  }

  /** What such a check does to the row, step by step; files and snapshot stay. */
  lemma {:induction false} StaleCheckRun(l: Local, n: Name, f: Option<Event>, now: Time, chs: seq<Choice>)
    requires l.pc == Chk(Ensure) && l.cell.rec.Some? && l.cell.disk.staging == NoDir
    ensures var e := LocalRun(l, n, f, now, chs);
            && StaleCheck(e) && e.cell.disk == l.cell.disk && e.cell.snap == l.cell.snap && e.cell.rec.Some?
            && e.cell.rec.value.enteredAt == l.cell.rec.value.enteredAt
            && (e.pc == Free ==> e.cell.rec.value.status == Submitted)
  {
    if chs != [] {
      StaleCheckRun(l, n, f, now, chs[..|chs| - 1]);
    }
  }

  /** A stale check that runs to its end leaves a well-kept factor well kept exactly when, beforehand, it had neither a
      snapshot nor a pnl or pool copy: it turns ACTIVE and REJECTED factors into SUBMITTED without recalling anything. */
  lemma {:induction false} StaleCheckExactly(c: Cell, n: Name, f: Option<Event>, now: Time, chs: seq<Choice>, lastCheck: Option<Time>, after: Option<Time>)
    requires Shelved(c, lastCheck) && c.rec.Some? && c.disk.staging == NoDir
    requires LocalRun(Local(c, Chk(Ensure), false), n, f, now, chs).pc == Free
    ensures Shelved(LocalRun(Local(c, Chk(Ensure), false), n, f, now, chs).cell, after)
            <==> c.snap.None? && NoGhost(c.disk)
  {
    StaleCheckRun(Local(c, Chk(Ensure), false), n, f, now, chs);
  }
}
