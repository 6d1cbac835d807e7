// Three concrete runs that show why the theorems of LibraryTheorems carry the conditions they carry.
module Witnesses {
  import opened Prelude
  import opened Factor
  import opened Commands
  import opened DiskProof
  import opened Library
  import opened SourceProof
  import opened LibraryTheorems
  import opened Solo
  import opened Alone

  /** Where a command run alone at time 0 from l gets with these choices. */
  function Gets(l: Local, n: Name, chs: seq<Choice>): Local {
    LocalRun(l, n, None, 0, chs)
  }

  lemma GetsOn(l: Local, n: Name, chs: seq<Choice>, ch: Choice)
    ensures Gets(l, n, chs + [ch]) == LocalStep(Gets(l, n, chs), n, None, ch, 0).next
  {
    LocalRunExtends(l, n, None, 0, chs, ch);
  }

  lemma SoloTo(w: World, p: Pid, n: Name, chs: seq<Choice>) returns (log: seq<Event>)
    requires Locked(w) && Holds(w, p, n) && !LocalOf(w, n).pc.App? && w.clock == 0 && (LocalOf(w, n).pc.Sub? ==> Raise !in chs)
    ensures Moved(w, Run(w, Advances(p, chs)), p, n, Gets(LocalOf(w, n), n, chs), log)
  {
    hide Moved;
    var start, f := Trail(LocalOf(w, n), []), DigestIn(w, n).lastFail;
    SoloRun(w, p, n, chs);
    DriveIgnoresLog(start, n, f, None, 0, chs);
    DriveIsLocalRun(LocalOf(w, n), n, None, 0, chs);
    log := Drive(start, n, f, 0, chs).log;
  }

  // ------------------------------------------------------------------ a check abandoned by its reject arm

  const STAGED := Cell(Some(Record(Submitted, 1, 0, None)), None, NO_FILES.(staging := Whole(7)))

  const SUBMITTING: seq<Choice> := [] + [Go] + [Go] + [Go] + [Go] + [Go]

  const REJECTING: seq<Choice> := [] + [Go] + [Go] + [StageSays(Passes)] + [StageSays(Fails)] + [Go] + [Raise]

  lemma SubmitAlone(n: Name)
    ensures var l := Local(EMPTY_CELL, Entry(SubmitCmd(7, false)), false);
            Gets(l, n, SUBMITTING) == Local(STAGED, Free, false)
  {
    var l := Local(EMPTY_CELL, Entry(SubmitCmd(7, false)), false);
    var c1: seq<Choice> := [] + [Go];
    var c2 := c1 + [Go];
    var c3 := c2 + [Go];
    var c4 := c3 + [Go];
    GetsOn(l, n, [], Go);
    GetsOn(l, n, c1, Go);
    GetsOn(l, n, c2, Go);
    GetsOn(l, n, c3, Go);
    GetsOn(l, n, c4, Go);
  }

  lemma RejectAlone(n: Name)
    ensures var l := Local(STAGED, Chk(Ensure), false);
            Gets(l, n, REJECTING)
            == Local(STAGED.(rec := Some(Record(Checking, 1, 0, None))), Free, true)
  {
    var l := Local(STAGED, Chk(Ensure), false);
    var c1: seq<Choice> := [] + [Go];
    var c2 := c1 + [Go];
    var c3 := c2 + [StageSays(Passes)];
    var c4 := c3 + [StageSays(Fails)];
    var c5 := c4 + [Go];
    GetsOn(l, n, [], Go);
    GetsOn(l, n, c1, Go);
    GetsOn(l, n, c2, StageSays(Passes));
    GetsOn(l, n, c3, StageSays(Fails));
    GetsOn(l, n, c4, Go);
    GetsOn(l, n, c5, Raise);
  }

  /** One process submits a factor alone. */
  function AfterSubmit(n: Name): World {
    Run(Next(INIT, Acquire(0, n, SubmitCmd(7, false))), Advances(0, SUBMITTING))
  }

  lemma AfterSubmitIs(n: Name)
    ensures var w := AfterSubmit(n);
            Locked(w) && w.procs == map[] && w.owner == map[] && w.late == map[] && w.clock == 0 && w.dead == {} && LocalOf(w, n) == Local(STAGED, Free, false)
  {
    var u := Next(INIT, Acquire(0, n, SubmitCmd(7, false)));
    NextLocked(INIT, Acquire(0, n, SubmitCmd(7, false)));
    SubmitAlone(n);
    assert LocalOf(u, n) == Local(EMPTY_CELL, Entry(SubmitCmd(7, false)), false);
    var _ := SoloTo(u, 0, n, SUBMITTING);
    var w := AfterSubmit(n);
    assert w.procs.Keys == {} && w.owner.Keys == {};
  }

  function AbandonedRun(n: Name): seq<Step> {
    [Acquire(0, n, SubmitCmd(7, false))] + Advances(0, SUBMITTING) + [Scan(0, n)] + [Acquire(0, n, CheckCmd)] + Advances(0, REJECTING)
  }

  /** A file operation that raises in the reject arm leaves the row at CHECKING with the lock free and nobody dead,
      while the log still says SUBMITTED: the condition of StatusIsFoldOfLog is reachable. */
  lemma AbandonedCheckIsStuck(n: Name)
    ensures var w := After(AbandonedRun(n));
            && n !in w.owner && n !in w.dead && n in w.abandoned
            && Has(CellOf(w, n), Checking) && StatusInLog(w, n) != Some(Checking)
  {
    var s1 := [Acquire(0, n, SubmitCmd(7, false))] + Advances(0, SUBMITTING);
    var s3 := s1 + [Scan(0, n)] + [Acquire(0, n, CheckCmd)];
    SubmitSteps(n);
    RunExtends(INIT, s1, Scan(0, n));
    RunExtends(INIT, s1 + [Scan(0, n)], Acquire(0, n, CheckCmd));
    AfterSubmitIs(n);
    var w := Run(INIT, s3);
    NextLocked(AfterSubmit(n), Scan(0, n));
    NextLocked(Next(AfterSubmit(n), Scan(0, n)), Acquire(0, n, CheckCmd));
    assert LocalOf(w, n) == Local(STAGED, Chk(Ensure), false);
    RejectAlone(n);
    var _ := SoloTo(w, 0, n, REJECTING);
    RunAppend(INIT, s3, Advances(0, REJECTING));
    StatusIsFoldOfLog(AbandonedRun(n), n);
  }

  lemma SubmitSteps(n: Name)
    ensures Run(INIT, [Acquire(0, n, SubmitCmd(7, false))] + Advances(0, SUBMITTING)) == AfterSubmit(n)
  {
    var s0 := [Acquire(0, n, SubmitCmd(7, false))];
    RunAppend(INIT, s0, Advances(0, SUBMITTING));
    assert s0[..0] == [];
  }

  // ------------------------------------------------------------------ a check that starts stale

  const CHECKED := Cell(Some(Record(Active, 1, 0, Some(0))), Some(0), STAGED.disk)

  const ARCHIVED := CHECKED.(disk := Disk(NoDir, Whole(7), true, true, false, true, false))

  const ARCHIVING: seq<Choice> := [] + [Go] + [Go] + [Go] + [Go] + [Go] + [Source(Some(Automated))]

  const STALE: seq<Choice> := [] + [Go] + [Go] + [Go] + [Go] + [Go]

  /** A passing check of STAGED, step by step, up to the archive. */
  function Passing(i: nat): Local
    requires i <= 12
  {
    var claimed := STAGED.(rec := Some(Record(Checking, 1, 0, None)));
    if i == 0 then Local(STAGED, Chk(Ensure), false)
    else if i == 1 then Local(STAGED, Chk(Mark), false)
    else if i < 8 then Local(claimed, Chk(RunStage(i - 2)), false)
    else if i == 8 then Local(claimed, Chk(Summary), false)
    else if i == 9 then Local(claimed, Chk(PassLog(0)), false)
    else if i == 10 then Local(claimed, Chk(PassMark(0)), false)
    else if i == 11 then Local(CHECKED.(snap := None), Chk(PassSnap(0)), false)
    else Local(CHECKED, Arc(ClearSrc), false)
  }

  lemma PassAlone(n: Name, i: nat)
    requires i <= 12
    ensures Gets(Passing(0), n, Goes(i)) == Passing(i)
  {
    if i > 0 {
      PassAlone(n, i - 1);
      GoesOn(Passing(0), n, None, 0, i - 1);
    }
  }

  lemma ArchiveAlone(n: Name)
    ensures var l := Local(CHECKED, Arc(ClearSrc), false);
            Gets(l, n, ARCHIVING) == Local(ARCHIVED, Free, false)
  {
    var l := Local(CHECKED, Arc(ClearSrc), false);
    var c1: seq<Choice> := [] + [Go];
    var c2 := c1 + [Go];
    var c3 := c2 + [Go];
    var c4 := c3 + [Go];
    var c5 := c4 + [Go];
    GetsOn(l, n, [], Go);
    GetsOn(l, n, c1, Go);
    GetsOn(l, n, c2, Go);
    GetsOn(l, n, c3, Go);
    GetsOn(l, n, c4, Go);
    GetsOn(l, n, c5, Source(Some(Automated)));
  }

  lemma StaleAlone(n: Name)
    ensures var l := Local(ARCHIVED, Chk(Ensure), false);
            Gets(l, n, STALE)
               == Local(ARCHIVED.(rec := Some(Record(Submitted, 1, 0, Some(0)))), Free, false)
  {
    var l := Local(ARCHIVED, Chk(Ensure), false);
    var c1: seq<Choice> := [] + [Go];
    var c2 := c1 + [Go];
    var c3 := c2 + [Go];
    var c4 := c3 + [Go];
    GetsOn(l, n, [], Go);
    GetsOn(l, n, c1, Go);
    GetsOn(l, n, c2, Go);
    GetsOn(l, n, c3, Go);
    GetsOn(l, n, c4, Go);
  }

  function ListedTwice(n: Name): seq<Step> {
    [Acquire(0, n, SubmitCmd(7, false))] + Advances(0, SUBMITTING) + [Scan(0, n)] + [Scan(1, n)]
  }

  function FirstCheck(n: Name): seq<Step> {
    ListedTwice(n) + [Acquire(0, n, CheckCmd)] + Advances(0, Goes(12)) + Advances(0, ARCHIVING)
  }

  lemma ListedTwiceIs(n: Name)
    ensures var w := After(ListedTwice(n));
            Locked(w) && w.owner == map[] && w.procs == map[] && w.late == map[] && w.clock == 0 && LocalOf(w, n) == Local(STAGED, Free, false) && w.dead == {}
            && (0, n) in w.scanned && (1, n) in w.scanned
  {
    var s1 := [Acquire(0, n, SubmitCmd(7, false))] + Advances(0, SUBMITTING);
    SubmitSteps(n);
    AfterSubmitIs(n);
    RunExtends(INIT, s1, Scan(0, n));
    RunExtends(INIT, s1 + [Scan(0, n)], Scan(1, n));
  }

  lemma FirstCheckPasses(n: Name)
    ensures var v := After(ListedTwice(n) + [Acquire(0, n, CheckCmd)] + Advances(0, Goes(12)));
            Locked(v) && v.owner.Keys == {n} && v.procs.Keys == {0} && Holds(v, 0, n) && v.late == map[] && v.clock == 0 && v.dead == {}
            && (1, n) in v.scanned && LocalOf(v, n) == Local(CHECKED, Arc(ClearSrc), false)
  {
    var s := ListedTwice(n);
    ListedTwiceIs(n);
    RunExtends(INIT, s, Acquire(0, n, CheckCmd));
    var u := After(s + [Acquire(0, n, CheckCmd)]);
    NextLocked(After(s), Acquire(0, n, CheckCmd));
    assert LocalOf(u, n) == Local(STAGED, Chk(Ensure), false);
    PassAlone(n, 12);
    var _ := SoloTo(u, 0, n, Goes(12));
    RunAppend(INIT, s + [Acquire(0, n, CheckCmd)], Advances(0, Goes(12)));
  }

  lemma FirstCheckIs(n: Name)
    ensures var w := After(FirstCheck(n));
            Locked(w) && w.owner == map[] && w.procs == map[] && w.late == map[] && w.clock == 0 && w.dead == {}
            && (1, n) in w.scanned && LocalOf(w, n) == Local(ARCHIVED, Free, false)
  {
    var s := ListedTwice(n) + [Acquire(0, n, CheckCmd)] + Advances(0, Goes(12));
    FirstCheckPasses(n);
    ArchiveAlone(n);
    var _ := SoloTo(After(s), 0, n, ARCHIVING);
    RunAppend(INIT, s, Advances(0, ARCHIVING));
    var w := After(FirstCheck(n));
    assert w.procs.Keys == {} && w.owner.Keys == {};
  }

  /** Two checks list the factor; the first archives it; the second, which gets the lock afterwards, puts the ACTIVE
      factor back to SUBMITTED. Nothing raised and nobody died, yet the pool copy and the snapshot are still there. */
  lemma StaleCheckDemotes(n: Name)
    ensures var w := After(FirstCheck(n) + [Acquire(1, n, CheckCmd)] + Advances(1, STALE));
            && n !in w.owner && n !in w.dead
            && Has(CellOf(w, n), Submitted) && CellOf(w, n).snap.Some? && Pooled(CellOf(w, n).disk)
  {
    var s := FirstCheck(n);
    FirstCheckIs(n);
    RunExtends(INIT, s, Acquire(1, n, CheckCmd));
    var u := After(s + [Acquire(1, n, CheckCmd)]);
    NextLocked(After(s), Acquire(1, n, CheckCmd));
    assert LocalOf(u, n) == Local(ARCHIVED, Chk(Ensure), false);
    StaleAlone(n);
    var _ := SoloTo(u, 1, n, STALE);
    RunAppend(INIT, s + [Acquire(1, n, CheckCmd)], Advances(1, STALE));
  }

  // ------------------------------------------------------------------ a submit rolled back after its lock is free

  const FAILING: seq<Choice> := [] + [Go] + [Go]

  function FailingSubmit(n: Name): seq<Step> {
    [Acquire(0, n, SubmitCmd(7, false))] + Advances(0, FAILING)
  }

  lemma FailingSubmitIs(n: Name)
    ensures var v := After(FailingSubmit(n));
            Locked(v) && Holds(v, 0, n) && v.procs.Keys == {0} && v.late == map[]
            && LocalOf(v, n) == Local(EMPTY_CELL.(disk := STAGED.disk), Sub(Parse(false)), false)
  {
    var s0 := [Acquire(0, n, SubmitCmd(7, false))];
    var u := Next(INIT, s0[0]);
    RunAppend(INIT, s0, Advances(0, FAILING));
    assert s0[..0] == [];
    NextLocked(INIT, s0[0]);
    var l := Local(EMPTY_CELL, Entry(SubmitCmd(7, false)), false);
    assert LocalOf(u, n) == l;
    var c1: seq<Choice> := [] + [Go];
    GetsOn(l, n, [], Go);
    GetsOn(l, n, c1, Go);
    var _ := SoloTo(u, 0, n, FAILING);
  }

  lemma LateRollbackAfter(v: World, n: Name)
    requires Locked(v) && Holds(v, 0, n) && v.procs.Keys == {0} && v.late == map[]
    requires LocalOf(v, n) == Local(EMPTY_CELL.(disk := STAGED.disk), Sub(Parse(false)), false)
    ensures var x := Next(Next(v, Advance(0, Raise)), Scan(1, n));
            var taken := Next(x, Acquire(1, n, CheckCmd));
            && CellOf(x, n).disk == STAGED.disk && !Holds(x, 1, n) && Holds(taken, 1, n)
            && CellOf(Next(taken, LateRollback(0, Go)), n).disk == NO_FILES
  {
    AdvanceOwn(v, 0, Raise);
    var y := Next(v, Advance(0, Raise));
    assert y.late == map[0 := n] && n !in y.owner && 1 !in y.procs;
  }

  /** meta.save raises in a submit: the lock is released, a check takes it, and then the submit's handler removes the
      staging directory that the check is working on: NoLateRollback in TenureKeepsSource is needed. */
  lemma LateRollbackLosesSource(n: Name)
    ensures var before := FailingSubmit(n) + [Advance(0, Raise)] + [Scan(1, n)];
            var taken := Next(After(before), Acquire(1, n, CheckCmd));
            && PutsAtStake(CheckCmd, CellOf(After(before), n).disk, 7)
            && Takes(before, 1, n, CheckCmd, taken)
            && !HasSource(CellOf(Next(taken, LateRollback(0, Go)), n).disk, 7)
  {
    FailingSubmitIs(n);
    RunExtends(INIT, FailingSubmit(n), Advance(0, Raise));
    RunExtends(INIT, FailingSubmit(n) + [Advance(0, Raise)], Scan(1, n));
    LateRollbackAfter(After(FailingSubmit(n)), n);
  }
}
