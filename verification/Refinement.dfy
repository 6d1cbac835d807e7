// The object of Repository with the methods of CheckService and Services is an implementation of the world of processes: every
// command on the object is a run of the world, so what every run keeps, the object keeps.
module Refinement {
  import opened Prelude
  import opened Factor
  import opened Commands
  import opened Solo
  import opened Repository
  import opened Services
  import opened CheckService
  import opened Library
  import opened LibraryTheorems
  import opened Alone

  /** What is decided outside the commands: does the submission parse, has the archived directory one .py and one .xml, how do the
      stages end, is an unregistered factor identified, what was measured, kept and archived. */
  datatype Outside = Outside(parses: bool, sourceOk: bool, outcomes: seq<StageOutcome>, identified: bool, measured: bool, kept: bool,
                             kind: Option<PoolKind>)

  /** The object holds the rows, files and log of the state after these steps. */
  ghost predicate Mirrors(repo: FactorRepository, steps: seq<Step>)
    reads repo
  {
    repo.history == After(steps).history && forall k: Name :: repo.CellAt(k) == CellOf(After(steps), k)
  }

  function Ticks(i: nat): (r: seq<Step>)
    ensures |r| == i
  {
    if i == 0 then [] else Ticks(i - 1) + [Tick]
  }

  lemma {:induction false} TickRun(w: World, i: nat)
    ensures Run(w, Ticks(i)) == w.(clock := w.clock + i)
  {
    if i > 0 {
      TickRun(w, i - 1);
      RunExtends(w, Ticks(i - 1), Tick);
    }
  }

  /** Process p may start cmd on n: it is idle, the lock is free, and a check has listed the factor. */
  ghost predicate MayStart(w: World, p: Pid, n: Name, cmd: Command) {
    p !in w.procs && p !in w.late && n !in w.owner && (cmd == CheckCmd ==> (p, n) in w.scanned)
  }

  /** The method of a command; what it returns besides its effects is left out here. */
  method Execute(repo: FactorRepository, n: Name, cmd: Command, o: Outside, now: Time) returns (ghost chs: seq<Choice>, ghost log: seq<Event>)
    requires |o.outcomes| == |PIPELINE|
    modifies repo
    ensures forall k :: k != n ==> repo.CellAt(k) == old(repo.CellAt(k))
    ensures repo.history == old(repo.history) + log
    ensures Finishes(old(repo.CellAt(n)), Entry(cmd), n, if cmd.ApproveCmd? then LastFail(Own(old(repo.history), n)) else None, now, chs,
                     repo.CellAt(n), log)
    ensures cmd.SubmitCmd? ==> Raise !in chs
  {
    ghost var before := repo.history;
    match cmd {
      case SubmitCmd(code, overwrite) =>
        var result;
        result, chs, log := SubmitOne(repo, n, code, overwrite, o.parses, now);
        return;
      case CheckCmd =>
        var verdict;
        verdict, chs := RunOneLocked(repo, n, o.outcomes, o.identified, o.measured, o.kept, o.kind, now);
      case RestageCmd(purge) =>
        var done;
        done, chs := RestageOne(repo, n, purge, o.sourceOk, now);
      case ApproveCmd =>
        var done;
        done, chs := ApproveOne(repo, n, now);
      case CancelCmd(force) =>
        var done;
        done, chs := CancelOne(repo, n, force, now);
      case RmCmd =>
        chs := RmOne(repo, n, now);
      case ClearCmd =>
        var done;
        done, chs := ClearOne(repo, n, now);
    }
    log := repo.history[|before|..];
  }

  /** A command on the object is a run of the world in which p ticks until now, takes the lock, works and lets go. */
  method Perform(repo: FactorRepository, ghost steps: seq<Step>, ghost p: Pid, n: Name, cmd: Command, o: Outside, now: Time)
    returns (ghost more: seq<Step>)
    requires |o.outcomes| == |PIPELINE| && Mirrors(repo, steps) && MayStart(After(steps), p, n, cmd) && After(steps).clock <= now
    modifies repo
    ensures Mirrors(repo, steps + more)
    ensures After(steps + more).owner == After(steps).owner && After(steps + more).clock == now
  {
    ghost var w := After(steps);
    ghost var c := repo.CellAt(n);
    ghost var chs, log;
    chs, log := Execute(repo, n, cmd, o, now);
    RunInWorld(steps, p, n, cmd, now, chs, c, repo.CellAt(n), log);
    more := Ticks(now - w.clock) + ([Acquire(p, n, cmd)] + Advances(p, chs));
  }

  lemma AfterLocked(steps: seq<Step>)
    ensures Locked(After(steps))
  {
    RunInv(steps);
  }

  lemma RunInWorld(steps: seq<Step>, p: Pid, n: Name, cmd: Command, now: Time, chs: seq<Choice>, c: Cell, c': Cell, log: seq<Event>)
    requires MayStart(After(steps), p, n, cmd) && After(steps).clock <= now && c == CellOf(After(steps), n)
    requires Finishes(c, Entry(cmd), n, if cmd.ApproveCmd? then LastFail(Own(After(steps).history, n)) else None, now, chs, c', log)
    requires cmd.SubmitCmd? ==> Raise !in chs
    ensures var w, w' := After(steps), After(steps + (Ticks(now - After(steps).clock) + ([Acquire(p, n, cmd)] + Advances(p, chs))));
            && w'.owner == w.owner && w'.clock == now && CellOf(w', n) == c' && w'.history == w.history + log
            && forall k :: k != n ==> CellOf(w', k) == CellOf(w, k)
  {
    hide Run, Finishes, LastFail, DigestOf;
    var w := After(steps);
    var ticks, work := Ticks(now - w.clock), [Acquire(p, n, cmd)] + Advances(p, chs);
    AfterLocked(steps);
    RunAppend(INIT, steps, ticks + work);
    RunAppend(w, ticks, work);
    TickRun(w, now - w.clock);
    DigestMeaning(Own(w.history, n));
    AloneInWorld(w.(clock := now), p, n, cmd, if cmd.ApproveCmd? then LastFail(Own(w.history, n)) else None, chs, c', log);
  }

  /** For instance: whatever commands have been executed on the object, rows agree with the log. */
  lemma {:induction false} ObjectRowIsFoldOfLog(repo: FactorRepository, steps: seq<Step>, n: Name)
    requires Mirrors(repo, steps)
    ensures (n in repo.records) == Replay(Own(repo.history, n)).Present?
    ensures n in repo.records ==>
              && repo.records[n].version == 1 + OverwritesSinceSubmit(Own(repo.history, n))
              && repo.records[n].enteredAt.Some? == EnteredSinceSubmit(Own(repo.history, n))
  {
    RowIsFoldOfLog(steps, n);
    assert repo.CellAt(n).rec == if n in repo.records then Some(repo.records[n]) else None;
  }
}
