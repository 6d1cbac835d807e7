// A factor's source survives every step of check, restage and approve,
// with no assumption on file operations and none on the status row.
module SourceProof {
  import opened Prelude
  import opened Factor
  import opened Commands
  import opened Library

  /** A complete copy of code k is in staging or in alpha_src. */
  predicate HasSource(d: Disk, k: Code) {
    d.staging == Whole(k) || d.src == Whole(k)
  }

  /** Where the copy that must not be lost is, at each control point of the three commands. */
  predicate Guards(l: Local, k: Code) {
    var d := l.cell.disk;
    match l.pc
    case Free => HasSource(d, k)
    case App(_) => HasSource(d, k)
    case Chk(c) =>
      if c.RevertLog? || c.RevertMark? then HasSource(d, k)
      else d.staging == Whole(k) ||
           (d.staging == NoDir && d.src == Whole(k) && (c.Ensure? || c.Mark? || (c.RunStage? && c.i == 0)))
    case Arc(a) => if a.ClearSrc? || a.MoveSrc? then d.staging == Whole(k) else d.src == Whole(k)
    case Rej(_, _, j) => if j.Measure? || j.ClearOld? || j.CopySrc? then d.staging == Whole(k) else d.src == Whole(k)
    case Rst(t) =>
      if t.Recheck? || (t.Recalling? && t.r.MoveBack?) then d.src == Whole(k) else d.staging == Whole(k)
    case _ => false
  }

  lemma GuardsSource(l: Local, k: Code)
    requires Guards(l, k)
    ensures HasSource(l.cell.disk, k)
  {
  }

  lemma CheckGuards(l: Local, n: Name, f: Option<Event>, ch: Choice, now: Time, k: Code)
    requires Guards(l, k) && (l.pc.Chk? || l.pc.Arc?)
    ensures Guards(LocalStep(l, n, f, ch, now).next, k)
  {
    hide SubmitStep, RejectStep, RestageStep, ApproveStep, RemovalStep;
  }

  lemma RejectGuards(l: Local, n: Name, f: Option<Event>, ch: Choice, now: Time, k: Code)
    requires Guards(l, k) && l.pc.Rej?
    ensures Guards(LocalStep(l, n, f, ch, now).next, k)
  {
    hide SubmitStep, CheckStep, ArchiveStep, RestageStep, ApproveStep, RemovalStep;
  }

  lemma RestageGuards(l: Local, n: Name, f: Option<Event>, ch: Choice, now: Time, k: Code)
    requires Guards(l, k) && l.pc.Rst?
    ensures Guards(LocalStep(l, n, f, ch, now).next, k)
  {
    hide SubmitStep, CheckStep, ArchiveStep, RejectStep, ApproveStep, RemovalStep;
  }

  lemma StepGuards(l: Local, n: Name, f: Option<Event>, ch: Choice, now: Time, k: Code)
    requires Guards(l, k)
    ensures Guards(LocalStep(l, n, f, ch, now).next, k)
  {
    hide SubmitStep, CheckStep, ArchiveStep, RejectStep, RestageStep, RemovalStep;
    match l.pc
    case Chk(_) => CheckGuards(l, n, f, ch, now, k);
    case Arc(_) => CheckGuards(l, n, f, ch, now, k);
    case Rej(_, _, _) => RejectGuards(l, n, f, ch, now, k);
    case Rst(_) => RestageGuards(l, n, f, ch, now, k);
    case _ =>
  }

  // ------------------------------------------------------------------ in the world

  predicate Holds(w: World, p: Pid, n: Name) {
    p in w.procs && w.procs[p].name == n
  }

  /** No submit that failed with an exception has still to remove n's staging directory. */
  ghost predicate NoLateRollback(w: World, n: Name) {
    forall q <- w.late :: w.late[q] != n
  }

  lemma NextGuards(w: World, s: Step, p: Pid, n: Name, k: Code)
    requires Locked(w) && Holds(w, p, n) && Guards(LocalOf(w, n), k) && NoLateRollback(w, n)
    ensures Guards(LocalOf(Next(w, s), n), k) && NoLateRollback(Next(w, s), n)
  {
    GuardsSource(LocalOf(w, n), k);
    match s
    case Advance(q, ch) =>
      if q == p {
        AdvanceOwn(w, p, ch);
        StepGuards(LocalOf(w, n), n, DigestIn(w, n).lastFail, ch, w.clock, k);
      } else if q in w.procs {
        AdvanceFrame(w, q, ch, n);
      }
    case Die(q) =>
      if q != p {
        assert LocalOf(Next(w, s), n) == LocalOf(w, n);
      }
    case _ => assert LocalOf(Next(w, s), n) == LocalOf(w, n);
  }

  /** While p holds n's lock, whatever all processes do, the copy guarded at the start of the tenure is kept,
      including in the state that ends the tenure. */
  lemma {:induction false} TenureGuards(w: World, p: Pid, n: Name, k: Code, steps: seq<Step>)
    requires Locked(w) && Holds(w, p, n) && Guards(LocalOf(w, n), k) && NoLateRollback(w, n)
    requires forall j :: 0 <= j < |steps| ==> Holds(Run(w, steps[..j]), p, n)
    ensures Locked(Run(w, steps))
    ensures Guards(LocalOf(Run(w, steps), n), k) && NoLateRollback(Run(w, steps), n)
  {
    if steps != [] {
      var m := |steps| - 1;
      var before := steps[..m];
      forall j | 0 <= j < m
        ensures Holds(Run(w, before[..j]), p, n)
      {
        assert before[..j] == steps[..j];
      }
      TenureGuards(w, p, n, k, before);
      NextLocked(Run(w, before), steps[m]);
      NextGuards(Run(w, before), steps[m], p, n, k);
    }
  }

  lemma {:induction false} TenureSource(w: World, p: Pid, n: Name, k: Code, steps: seq<Step>)
    requires Locked(w) && Holds(w, p, n) && Guards(LocalOf(w, n), k) && NoLateRollback(w, n)
    requires forall j :: 0 <= j < |steps| ==> Holds(Run(w, steps[..j]), p, n)
    ensures HasSource(CellOf(Run(w, steps), n).disk, k)
  {
    TenureGuards(w, p, n, k, steps);
    GuardsSource(LocalOf(Run(w, steps), n), k);
  }

  // ------------------------------------------------------------------ exactly when

  /** The lock holder alone: one choice after another. */
  function LocalRun(l: Local, n: Name, f: Option<Event>, now: Time, chs: seq<Choice>): Local {
    if chs == [] then l else LocalStep(LocalRun(l, n, f, now, chs[..|chs| - 1]), n, f, chs[|chs| - 1], now).next
  }

  /** The code a check that starts here would check or, with no staging directory, the archived one. */
  function AtStake(d: Disk): Option<Code> {
    if d.staging.Whole? then Some(d.staging.code) else if d.src.Whole? then Some(d.src.code) else None
  }

  lemma {:induction false} LocalRunGuards(l: Local, n: Name, f: Option<Event>, now: Time, chs: seq<Choice>, k: Code)
    requires Guards(l, k)
    ensures Guards(LocalRun(l, n, f, now, chs), k)
  {
    if chs != [] {
      LocalRunGuards(l, n, f, now, chs[..|chs| - 1], k);
      StepGuards(LocalRun(l, n, f, now, chs[..|chs| - 1]), n, f, chs[|chs| - 1], now, k);
    }
  }

  function Goes(i: nat): seq<Choice> {
    seq(i, _ => Go)
  }

  lemma {:induction false} LocalRunExtends(l: Local, n: Name, f: Option<Event>, now: Time, chs: seq<Choice>, ch: Choice)
    ensures LocalRun(l, n, f, now, chs + [ch]) == LocalStep(LocalRun(l, n, f, now, chs), n, f, ch, now).next
  {
    assert (chs + [ch])[..|chs|] == chs;
  }

  lemma {:induction false} GoesOn(l: Local, n: Name, f: Option<Event>, now: Time, i: nat)
    ensures LocalRun(l, n, f, now, Goes(i + 1)) == LocalStep(LocalRun(l, n, f, now, Goes(i)), n, f, Go, now).next
  {
    assert Goes(i + 1) == Goes(i) + [Go];
    LocalRunExtends(l, n, f, now, Goes(i), Go);
  }

  /** When every step completes, a check with some staging directory goes through all stages. */
  lemma {:induction false} StagesPass(l: Local, n: Name, f: Option<Event>, now: Time, i: nat)
    requires l.pc == Chk(Ensure) && l.cell.disk.staging != NoDir && i <= |PIPELINE|
    ensures var e := LocalRun(l, n, f, now, Goes(2 + i));
            e.pc == (if i < |PIPELINE| then Chk(RunStage(i)) else Chk(Summary)) &&
            e.cell.disk == l.cell.disk && e.cell.rec.Some?
  {
    if i == 0 {
      GoesOn(l, n, f, now, 0);
      GoesOn(l, n, f, now, 1);
    } else {
      StagesPass(l, n, f, now, i - 1);
      GoesOn(l, n, f, now, 1 + i);
    }
  }

  lemma {:induction false} PassReachesMark(l: Local, n: Name, f: Option<Event>, now: Time)
    requires l.pc == Chk(Ensure) && l.cell.disk.staging != NoDir
    ensures var e := LocalRun(l, n, f, now, Goes(10));
            e.pc == Chk(PassMark(now)) && e.cell.disk == l.cell.disk && e.cell.rec.Some?
  {
    StagesPass(l, n, f, now, |PIPELINE|);
    GoesOn(l, n, f, now, 8);
    GoesOn(l, n, f, now, 9);
  }

  /** A passing check with nothing raising: log row, ACTIVE, snapshot, and on to the archive. */
  lemma {:induction false} PassReachesArchive(l: Local, n: Name, f: Option<Event>, now: Time)
    requires l.pc == Chk(Ensure) && l.cell.disk.staging != NoDir
    ensures var e := LocalRun(l, n, f, now, Goes(12)); e.pc == Arc(ClearSrc) && e.cell.disk == l.cell.disk
  {
    PassReachesMark(l, n, f, now);
    GoesOn(l, n, f, now, 10);
    GoesOn(l, n, f, now, 11);
  }

  /** Its next step removes what alpha_src holds. */
  lemma {:induction false} ArchiveClearsSource(l: Local, n: Name, f: Option<Event>, now: Time)
    requires l.pc == Chk(Ensure) && l.cell.disk.staging != NoDir
    ensures var e := LocalRun(l, n, f, now, Goes(13)); e.pc == Arc(MoveSrc) && e.cell.disk == l.cell.disk.(src := NoDir)
  {
    PassReachesArchive(l, n, f, now);
    GoesOn(l, n, f, now, 12);
  }

  /** A check keeps the source it puts at stake, whatever happens inside it, exactly when the staging directory
      is not an incomplete one. */
  lemma CheckConservesExactly(c: Cell, n: Name, f: Option<Event>, now: Time)
    requires AtStake(c.disk).Some?
    ensures (forall chs :: HasSource(LocalRun(Local(c, Chk(Ensure), false), n, f, now, chs).cell.disk, AtStake(c.disk).value))
            <==> !c.disk.staging.Torn?
  {
    var l := Local(c, Chk(Ensure), false);
    var k := AtStake(c.disk).value;
    if !c.disk.staging.Torn? {
      forall chs
        ensures HasSource(LocalRun(l, n, f, now, chs).cell.disk, k)
      {
        LocalRunGuards(l, n, f, now, chs, k);
        GuardsSource(LocalRun(l, n, f, now, chs), k);
      }
    } else {
      ArchiveClearsSource(l, n, f, now);
      assert !HasSource(LocalRun(l, n, f, now, Goes(13)).cell.disk, k);
    }
  }
}
