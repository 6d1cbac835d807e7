// When a factor's source survives a tenure of its lock: the exact conditions, given that a submit that failed with an exception
// removes the staging directory after it has let go of the lock.
module Tenures {
  import opened Prelude
  import opened Factor
  import opened Commands
  import opened Library
  import opened LibraryTheorems
  import opened SourceProof
  import opened Solo
  import opened Alone

  /** p holds n's lock until the last of these steps begins. */
  ghost predicate Tenure(w: World, p: Pid, n: Name, steps: seq<Step>) {
    forall j :: 0 <= j < |steps| ==> Holds(Run(w, steps[..j]), p, n)
  }

  /** Whatever all processes do until p lets go of n's lock, a complete copy of k is in staging or alpha_src. */
  ghost predicate EveryTenureKeeps(w: World, p: Pid, n: Name, k: Code) {
    forall steps :: Tenure(w, p, n, steps) ==> HasSource(CellOf(Run(w, steps), n).disk, k)
  }

  /** The failed submits of n that have still to remove its staging directory. */
  function Pending(w: World, n: Name): set<Pid> {
    set q | q in w.late && w.late[q] == n
  }

  lemma NonePending(w: World, n: Name)
    ensures NoLateRollback(w, n) <==> Pending(w, n) == {}
  {
    if Pending(w, n) == {} {
      forall q <- w.late
        ensures w.late[q] != n
      {
        assert q !in Pending(w, n);
      }
    }
  }

  lemma {:induction false} TenureExtends(w: World, p: Pid, n: Name, steps: seq<Step>, s: Step)
    requires Tenure(w, p, n, steps) && Holds(Run(w, steps), p, n)
    ensures Tenure(w, p, n, steps + [s]) && Run(w, steps + [s]) == Next(Run(w, steps), s)
  {
    RunExtends(w, steps, s);
    forall j | 0 <= j < |steps + [s]|
      ensures Holds(Run(w, (steps + [s])[..j]), p, n)
    {
      assert (steps + [s])[..j] == if j < |steps| then steps[..j] else steps;
    }
  }

  lemma RollbackStep(u: World, n: Name, k: Code, q: Pid)
    requires q in Pending(u, n) && CellOf(u, n).disk.src != Whole(k)
    ensures !HasSource(CellOf(Next(u, LateRollback(q, Go)), n).disk, k)
  {
  }

  /** Where every copy but the one in staging is gone, one pending submit is enough. */
  lemma {:induction false} RollbackLoses(w: World, p: Pid, n: Name, k: Code, steps: seq<Step>, q: Pid)
    requires Tenure(w, p, n, steps) && Holds(Run(w, steps), p, n)
    requires q in Pending(Run(w, steps), n) && CellOf(Run(w, steps), n).disk.src != Whole(k)
    ensures !EveryTenureKeeps(w, p, n, k)
  {
    hide Tenure, Run, Next, CellOf, HasSource, Pending, Holds;
    var last := LateRollback(q, Go);
    RollbackStep(Run(w, steps), n, k, q);
    TenureExtends(w, p, n, steps, last);
    assert Tenure(w, p, n, steps + [last]);
  }

  /** In the middle of a command, with the guarded copy and no second one in alpha_src: it is safe exactly when no failed submit
      is pending. */
  lemma TenureExactly(w: World, p: Pid, n: Name, k: Code)
    requires Locked(w) && Holds(w, p, n) && Guards(LocalOf(w, n), k) && CellOf(w, n).disk.src != Whole(k)
    ensures EveryTenureKeeps(w, p, n, k) <==> NoLateRollback(w, n)
  {
    if NoLateRollback(w, n) {
      NoRollbackKeeps(w, p, n, k);
    } else {
      NonePending(w, n);
      var q :| q in Pending(w, n);
      assert Run(w, []) == w;
      RollbackLoses(w, p, n, k, [], q);
    }
  }

  lemma NoRollbackKeeps(w: World, p: Pid, n: Name, k: Code)
    requires Locked(w) && Holds(w, p, n) && Guards(LocalOf(w, n), k) && NoLateRollback(w, n)
    ensures EveryTenureKeeps(w, p, n, k)
  {
    forall steps | Tenure(w, p, n, steps)
      ensures HasSource(CellOf(Run(w, steps), n).disk, k)
    {
      TenureSource(w, p, n, k, steps);
    }
  }

  // ------------------------------------------------------------------ a tenure that only the archived copy matters to

  /** Control points from which alpha_src is not written: approve, and a check that started without its staging directory. */
  predicate LeavesSource(l: Local) {
    l.pc == Free || l.pc.App? || StaleCheck(l)
  }

  lemma StepLeavesSource(l: Local, n: Name, f: Option<Event>, ch: Choice, now: Time)
    requires LeavesSource(l)
    ensures var e := LocalStep(l, n, f, ch, now).next; LeavesSource(e) && e.cell.disk.src == l.cell.disk.src
  {
    hide SubmitStep, ArchiveStep, RejectStep, RestageStep, RemovalStep;
  }

  lemma NextLeavesSource(w: World, s: Step, p: Pid, n: Name)
    requires Locked(w) && Holds(w, p, n) && LeavesSource(LocalOf(w, n))
    ensures var w' := Next(w, s); LeavesSource(LocalOf(w', n)) && CellOf(w', n).disk.src == CellOf(w, n).disk.src
  {
    match s
    case Advance(q, ch) =>
      if q == p {
        AdvanceOwn(w, p, ch);
        StepLeavesSource(LocalOf(w, n), n, DigestIn(w, n).lastFail, ch, w.clock);
      } else if q in w.procs {
        AdvanceFrame(w, q, ch, n);
      }
    case _ =>
  }

  lemma {:induction false} TenureLeavesSource(w: World, p: Pid, n: Name, steps: seq<Step>)
    requires Locked(w) && Holds(w, p, n) && LeavesSource(LocalOf(w, n)) && Tenure(w, p, n, steps)
    ensures var v := Run(w, steps); Locked(v) && LeavesSource(LocalOf(v, n)) && CellOf(v, n).disk.src == CellOf(w, n).disk.src
  {
    if steps != [] {
      var m := |steps| - 1;
      TenurePrefix(w, p, n, steps, m);
      TenureLeavesSource(w, p, n, steps[..m]);
      NextLocked(Run(w, steps[..m]), steps[m]);
      NextLeavesSource(Run(w, steps[..m]), steps[m], p, n);
    }
  }

  lemma TenurePrefix(w: World, p: Pid, n: Name, steps: seq<Step>, m: nat)
    requires Tenure(w, p, n, steps) && m <= |steps|
    ensures Tenure(w, p, n, steps[..m])
  {
    forall j | 0 <= j < m
      ensures Holds(Run(w, steps[..m][..j]), p, n)
    {
      assert steps[..m][..j] == steps[..j];
    }
  }

  lemma ArchivedKeeps(w: World, p: Pid, n: Name, k: Code)
    requires Locked(w) && Holds(w, p, n) && LeavesSource(LocalOf(w, n)) && CellOf(w, n).disk.src == Whole(k)
    ensures EveryTenureKeeps(w, p, n, k)
  {
    forall steps | Tenure(w, p, n, steps)
      ensures HasSource(CellOf(Run(w, steps), n).disk, k)
    {
      TenureLeavesSource(w, p, n, steps);
    }
  }

  /** approve touches no file: the source survives its tenure exactly when no failed submit is pending or alpha_src has it. */
  lemma ApproveTenureExactly(before: seq<Step>, p: Pid, n: Name, k: Code, w: World)
    requires PutsAtStake(ApproveCmd, CellOf(After(before), n).disk, k) && Takes(before, p, n, ApproveCmd, w)
    ensures EveryTenureKeeps(w, p, n, k) <==> NoLateRollback(After(before), n) || CellOf(After(before), n).disk.src == Whole(k)
  {
    EntryGuards(before, p, n, ApproveCmd, k, w);
    if CellOf(w, n).disk.src == Whole(k) {
      ArchivedKeeps(w, p, n, k);
    } else {
      TenureExactly(w, p, n, k);
    }
  }

  // ------------------------------------------------------------------ check

  lemma {:induction false} HeldSoFar(w: World, p: Pid, n: Name, chs: seq<Choice>)
    requires Holds(Run(w, Advances(p, chs)), p, n)
    ensures Tenure(w, p, n, Advances(p, chs))
  {
    if chs != [] {
      var m := |chs| - 1;
      var all, rest := Advances(p, chs), Advances(p, chs[..m]);
      assert all == rest + [Advance(p, chs[m])];
      RunExtends(w, rest, Advance(p, chs[m]));
      HeldSoFar(w, p, n, chs[..m]);
      TenureExtends(w, p, n, rest, Advance(p, chs[m]));
    }
  }

  /** A check in which nothing raises removes what alpha_src holds before it moves the staged directory there. */
  lemma {:induction false} ClearsSource(w: World, p: Pid, n: Name)
    requires Locked(w) && Holds(w, p, n) && PcOf(w, n) == Chk(Ensure) && CellOf(w, n).disk.staging != NoDir
    ensures var steps := Advances(p, Goes(13));
            var v := Run(w, steps);
            Tenure(w, p, n, steps) && Holds(v, p, n) && v.late == w.late && CellOf(v, n).disk == CellOf(w, n).disk.(src := NoDir)
  {
    hide LocalRun, Run;
    var l, f := LocalOf(w, n), DigestIn(w, n).lastFail;
    ArchiveClearsSource(l, n, f, w.clock);
    var log := SoloLocal(w, p, n, Goes(13));
    HeldSoFar(w, p, n, Goes(13));
  }

  lemma SoloLocal(w: World, p: Pid, n: Name, chs: seq<Choice>) returns (log: seq<Event>)
    requires Locked(w) && Holds(w, p, n) && !PcOf(w, n).Sub?
    ensures Moved(w, Run(w, Advances(p, chs)), p, n, LocalRun(LocalOf(w, n), n, DigestIn(w, n).lastFail, w.clock, chs), log)
  {
    hide Moved, Run;
    SoloRun(w, p, n, chs);
    DriveIsLocalRun(LocalOf(w, n), n, DigestIn(w, n).lastFail, w.clock, chs);
    log := Drive(Trail(LocalOf(w, n), []), n, DigestIn(w, n).lastFail, w.clock, chs).log;
  }

  /** A check's source survives its tenure exactly when no failed submit is pending or the check found no staging directory. */
  lemma CheckTenureExactly(before: seq<Step>, p: Pid, n: Name, k: Code, w: World)
    requires PutsAtStake(CheckCmd, CellOf(After(before), n).disk, k) && Takes(before, p, n, CheckCmd, w)
    ensures EveryTenureKeeps(w, p, n, k) <==> NoLateRollback(After(before), n) || CellOf(After(before), n).disk.staging == NoDir
  {
    EntryGuards(before, p, n, CheckCmd, k, w);
    if CellOf(w, n).disk.staging == NoDir {
      ArchivedKeeps(w, p, n, k);
    } else if NoLateRollback(w, n) {
      NoRollbackKeeps(w, p, n, k);
    } else {
      NonePending(w, n);
      var q :| q in Pending(w, n);
      ClearsSource(w, p, n);
      RollbackLoses(w, p, n, k, Advances(p, Goes(13)), q);
    }
  }

  // ------------------------------------------------------------------ restage

  /** The row restage asks for. */
  predicate Restageable(c: Cell) {
    c.rec.Some? && (c.rec.value.status == Active || c.rec.value.status == Rejected)
  }

  /** Before the recall: at most as many failed submits are pending as it takes to remove what is in staging. */
  ghost predicate FewPending(w: World, n: Name) {
    if CellOf(w, n).disk.staging == NoDir then Pending(w, n) == {} else |Pending(w, n)| <= 1
  }

  predicate BeforeRecall(pc: Pc) {
    pc.Rst? && (pc.t.Recheck? || (pc.t.Recalling? && pc.t.r.MoveBack?))
  }

  /** What a restage that cannot lose k goes through. */
  ghost predicate Spared(w: World, n: Name, k: Code) {
    var l := LocalOf(w, n);
    || (l.cell.disk.src == Whole(k) && l.pc == Free)
    || (l.cell.disk.src == Whole(k) && l.pc.Rst? && l.pc.t.Recheck? && !Restageable(l.cell))
    || (l.cell.disk.src == Whole(k) && BeforeRecall(l.pc) && FewPending(w, n))
    || (Guards(l, k) && NoLateRollback(w, n))
  }

  lemma AdvanceSpared(w: World, p: Pid, n: Name, k: Code, ch: Choice)
    requires Locked(w) && Holds(w, p, n) && Spared(w, n, k)
    ensures Spared(Next(w, Advance(p, ch)), n, k)
  {
    var l, f := LocalOf(w, n), DigestIn(w, n).lastFail;
    AdvanceOwn(w, p, ch);
    if Guards(l, k) && NoLateRollback(w, n) {
      NextGuards(w, Advance(p, ch), p, n, k);
    } else {
      RecallSpared(l, n, f, ch, w.clock, k);
      NonePending(w, n);
    }
  }

  lemma RecallSpared(l: Local, n: Name, f: Option<Event>, ch: Choice, now: Time, k: Code)
    requires BeforeRecall(l.pc) && l.cell.disk.src == Whole(k)
    ensures var e := LocalStep(l, n, f, ch, now).next;
            || (e.cell == l.cell && (e.pc == Free || (l.pc.t.Recheck? && Restageable(l.cell) && BeforeRecall(e.pc))))
            || (l.cell.disk.staging == NoDir && l.pc.t.Recalling?)
  {
  }

  lemma QuietSpared(w: World, w': World, n: Name, k: Code, gone: set<Pid>)
    requires Spared(w, n, k) && LocalOf(w', n) == LocalOf(w, n) && Pending(w', n) == Pending(w, n) - gone
    ensures Spared(w', n, k)
  {
    NonePending(w, n);
    NonePending(w', n);
  }

  /** A rollback uses up its submit, unless it stops partway and leaves something behind. */
  lemma RollbackUsed(w: World, n: Name, q: Pid, ch: Choice)
    requires q in Pending(w, n)
    ensures var w' := Next(w, LateRollback(q, ch));
            && (FewPending(w, n) ==> FewPending(w', n)) && !NoLateRollback(w, n) && PcOf(w', n) == PcOf(w, n)
            && CellOf(w', n) == CellOf(w, n).(disk := CellOf(w, n).disk.(staging := CellOf(w', n).disk.staging))
  {
    var w' := Next(w, LateRollback(q, ch));
    assert Pending(w', n) == if ch == Partway then Pending(w, n) else Pending(w, n) - {q};
    assert |Pending(w, n) - {q}| == |Pending(w, n)| - 1;
  }

  lemma RollbackSpared(w: World, p: Pid, n: Name, k: Code, q: Pid, ch: Choice)
    requires CellOf(w, n).disk.src == Whole(k) && Spared(w, n, k)
    ensures Spared(Next(w, LateRollback(q, ch)), n, k)
  {
    var w' := Next(w, LateRollback(q, ch));
    if q in Pending(w, n) {
      hide Next, Pending, FewPending, CellOf, PcOf, NoLateRollback;
      RollbackUsed(w, n, q, ch);
    } else {
      hide Spared;
      QuietSpared(w, w', n, k, {});
    }
  }

  lemma DieSpared(w: World, p: Pid, n: Name, k: Code, q: Pid)
    requires Locked(w) && Holds(w, p, n) && CellOf(w, n).disk.src == Whole(k) && Spared(w, n, k)
    ensures Spared(Next(w, Die(q)), n, k)
  {
    var w' := Next(w, Die(q));
    if q == p {
      assert LocalOf(w', n) == LocalOf(w, n).(pc := Free);
    } else {
      hide Spared;
      assert LocalOf(w', n) == LocalOf(w, n);
      var gone := if q in w.procs then {} else {q};
      assert Pending(w', n) == Pending(w, n) - gone;
      QuietSpared(w, w', n, k, gone);
    }
  }

  lemma OthersAdvance(w: World, p: Pid, n: Name, q: Pid, ch: Choice) returns (gone: set<Pid>)
    requires Locked(w) && Holds(w, p, n) && q != p
    ensures var w' := Next(w, Advance(q, ch)); LocalOf(w', n) == LocalOf(w, n) && Pending(w', n) == Pending(w, n) - gone
  {
    gone := {};
    if q in w.procs {
      AdvanceFrame(w, q, ch, n);
      var w' := Advanced(w, q, ch);
      assert w.procs[q].name != n;
      assert w'.late == w.late || w'.late == w.late[q := w.procs[q].name];
      if w'.late != w.late {
        gone := {q};
      }
    }
  }

  lemma NextSpared(w: World, s: Step, p: Pid, n: Name, k: Code)
    requires Locked(w) && Holds(w, p, n) && Spared(w, n, k)
    ensures Spared(Next(w, s), n, k)
  {
    hide Spared, Pending;
    match s
    case Advance(q, ch) =>
      if q == p {
        AdvanceSpared(w, p, n, k, ch);
      } else {
        var gone := OthersAdvance(w, p, n, q, ch);
        QuietSpared(w, Next(w, s), n, k, gone);
      }
    case LateRollback(q, ch) =>
      SparedCases(w, s, p, n, k);
      if CellOf(w, n).disk.src == Whole(k) {
        RollbackSpared(w, p, n, k, q, ch);
      }
    case Die(q) =>
      SparedCases(w, s, p, n, k);
      if CellOf(w, n).disk.src == Whole(k) {
        DieSpared(w, p, n, k, q);
      }
    case _ =>
      PendingKept(w, s, n);
      assert LocalOf(Next(w, s), n) == LocalOf(w, n);
      QuietSpared(w, Next(w, s), n, k, {});
  }

  lemma PendingKept(w: World, s: Step, n: Name)
    requires s.Tick? || s.Scan? || s.Acquire?
    ensures Pending(Next(w, s), n) == Pending(w, n)
  {
  }

  lemma SparedCases(w: World, s: Step, p: Pid, n: Name, k: Code)
    requires Locked(w) && Holds(w, p, n) && Spared(w, n, k)
    ensures CellOf(w, n).disk.src == Whole(k) || Spared(Next(w, s), n, k)
  {
    if CellOf(w, n).disk.src != Whole(k) {
      NextGuards(w, s, p, n, k);
    }
  }

  lemma {:induction false} TenureSpared(w: World, p: Pid, n: Name, k: Code, steps: seq<Step>)
    requires Locked(w) && Holds(w, p, n) && Spared(w, n, k) && Tenure(w, p, n, steps)
    ensures Locked(Run(w, steps)) && Spared(Run(w, steps), n, k)
  {
    hide Spared;
    if steps != [] {
      var m := |steps| - 1;
      TenurePrefix(w, p, n, steps, m);
      TenureSpared(w, p, n, k, steps[..m]);
      NextLocked(Run(w, steps[..m]), steps[m]);
      NextSpared(Run(w, steps[..m]), steps[m], p, n, k);
    }
  }

  lemma SparedKeeps(w: World, p: Pid, n: Name, k: Code)
    requires Locked(w) && Holds(w, p, n) && Spared(w, n, k)
    ensures EveryTenureKeeps(w, p, n, k)
  {
    forall steps | Tenure(w, p, n, steps)
      ensures HasSource(CellOf(Run(w, steps), n).disk, k)
    {
      TenureSpared(w, p, n, k, steps);
    }
  }

  /** The recall, with nothing in its way. */
  lemma {:induction false} Recalls(w: World, p: Pid, n: Name, steps: seq<Step>)
    requires Tenure(w, p, n, steps)
    requires var v := Run(w, steps);
             Locked(v) && Holds(v, p, n) && PcOf(v, n).Rst? && PcOf(v, n).t.Recheck?
             && CellOf(v, n).disk.staging == NoDir && CellOf(v, n).disk.src != NoDir && Restageable(CellOf(v, n))
    ensures var more := steps + [Advance(p, Go)] + [Advance(p, Go)];
            var v := Run(w, more);
            Tenure(w, p, n, more) && Holds(v, p, n) && v.late == Run(w, steps).late && CellOf(v, n).disk.src == NoDir
  {
    var v := Run(w, steps);
    var u := Next(v, Advance(p, Go));
    TenureExtends(w, p, n, steps, Advance(p, Go));
    AdvanceOwn(v, p, Go);
    NextLocked(v, Advance(p, Go));
    TenureExtends(w, p, n, steps + [Advance(p, Go)], Advance(p, Go));
    AdvanceOwn(u, p, Go);
  }

  /** Which of the failed submits clears staging, if there is anything to clear. */
  lemma Clears(w: World, p: Pid, n: Name) returns (steps: seq<Step>)
    requires Locked(w) && Holds(w, p, n) && !FewPending(w, n)
    ensures var v := Run(w, steps);
            && Tenure(w, p, n, steps) && Locked(v) && Holds(v, p, n) && PcOf(v, n) == PcOf(w, n) && Pending(v, n) != {}
            && CellOf(v, n) == CellOf(w, n).(disk := CellOf(w, n).disk.(staging := NoDir))
  {
    assert Run(w, []) == w;
    steps := [];
    if CellOf(w, n).disk.staging != NoDir {
      var q :| q in Pending(w, n);
      TenureExtends(w, p, n, [], LateRollback(q, Go));
      NextLocked(w, LateRollback(q, Go));
      steps := [] + [LateRollback(q, Go)];
      assert Pending(Run(w, steps), n) == Pending(w, n) - {q} && |Pending(w, n) - {q}| == |Pending(w, n)| - 1;
    }
  }

  /** With more failed submits than it takes to clear staging, one can strike after the recall. */
  lemma RestageLoses(w: World, p: Pid, n: Name, k: Code)
    requires Locked(w) && Holds(w, p, n) && PcOf(w, n).Rst? && PcOf(w, n).t.Recheck? && CellOf(w, n).disk.src == Whole(k)
    requires Restageable(CellOf(w, n)) && !FewPending(w, n)
    ensures !EveryTenureKeeps(w, p, n, k)
  {
    hide Run, FewPending, Tenure, EveryTenureKeeps;
    var clear := Clears(w, p, n);
    Recalls(w, p, n, clear);
    var steps := clear + [Advance(p, Go)] + [Advance(p, Go)];
    assert Pending(Run(w, steps), n) == Pending(Run(w, clear), n);
    var q :| q in Pending(Run(w, clear), n);
    RollbackLoses(w, p, n, k, steps, q);
  }

  /** A restage's source survives its tenure exactly when the row is not one to restage, or fewer failed submits are pending than
      it takes to remove what is in staging and then the recalled directory. After the recall TenureExactly applies. */
  lemma RestageTenureExactly(before: seq<Step>, p: Pid, n: Name, k: Code, purge: bool, w: World)
    requires PutsAtStake(RestageCmd(purge), CellOf(After(before), n).disk, k) && Takes(before, p, n, RestageCmd(purge), w)
    ensures EveryTenureKeeps(w, p, n, k)
            <==> !Restageable(CellOf(After(before), n)) || FewPending(After(before), n)
  {
    EntryGuards(before, p, n, RestageCmd(purge), k, w);
    assert Pending(w, n) == Pending(After(before), n) && CellOf(w, n) == CellOf(After(before), n);
    if Restageable(CellOf(w, n)) && !FewPending(w, n) {
      RestageLoses(w, p, n, k);
    } else {
      SparedKeeps(w, p, n, k);
    }
  }
}
