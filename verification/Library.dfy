// Many processes, many factors, one non-blocking lock per factor (ops/infra/lock.py:111-134):
// every interleaving of the commands' steps, with processes that may die at any point.
module Library {
  import opened Prelude
  import opened Factor
  import opened Commands
  import opened ReplayProof
  import opened DiskProof

  /** A process inside a command: the factor whose lock it holds and where it is. */
  datatype Proc = Proc(name: Name, pc: Pc)

  /** late: processes whose submit failed with an exception; they no longer hold the lock and still have to remove the
      staging directory. The last four fields record what has happened; the commands never read them.
      scanned: (process, factor) pairs of a check that listed staging before taking locks.
      abandoned: see Commands.Local. dead: a process died holding the lock.
      strayed: also, a file operation raised or a check began without its staging directory. */
  datatype World = World(
    clock: Time,
    history: seq<Event>,
    cells: map<Name, Cell>,
    procs: map<Pid, Proc>,
    owner: map<Name, Pid>,
    late: map<Pid, Name>,
    scanned: set<(Pid, Name)>,
    abandoned: set<Name>,
    dead: set<Name>,
    strayed: set<Name>)

  const INIT := World(0, [], map[], map[], map[], map[], {}, {}, {}, {})

  datatype Step =
    | Tick
    | Scan(p: Pid, n: Name)
    | Acquire(p: Pid, n: Name, cmd: Command)
    | Advance(p: Pid, ch: Choice)
    | LateRollback(p: Pid, ch: Choice)
    | Die(p: Pid)

  function CellOf(w: World, n: Name): Cell {
    if n in w.cells then w.cells[n] else EMPTY_CELL
  }

  function PcOf(w: World, n: Name): Pc {
    if n in w.owner && w.owner[n] in w.procs then w.procs[w.owner[n]].pc else Free
  }

  function LocalOf(w: World, n: Name): Local {
    Local(CellOf(w, n), PcOf(w, n), n in w.abandoned)
  }

  function DigestIn(w: World, n: Name): Digest {
    DigestOf(Own(w.history, n))
  }

  function Flag(s: set<Name>, n: Name, on: bool): set<Name> {
    if on then s + {n} else s - {n}
  }

  function Advanced(w: World, p: Pid, ch: Choice): World
    requires p in w.procs
  {
    var n := w.procs[p].name;
    var l := Local(CellOf(w, n), w.procs[p].pc, n in w.abandoned);
    var m := LocalStep(l, n, DigestIn(w, n).lastFail, ch, w.clock);
    var done := m.next.pc == Free;
    w.(history := w.history + m.events,
       cells := w.cells[n := m.next.cell],
       procs := if done then w.procs - {p} else w.procs[p := Proc(n, m.next.pc)],
       owner := if done then w.owner - {n} else w.owner,
       late := if LeavesRollback(l, ch) then w.late[p := n] else w.late,
       abandoned := Flag(w.abandoned, n, m.next.abandoned),
       strayed := if FileOperationRaises(l.pc, ch) then w.strayed + {n} else w.strayed)
  }

  /** rmtree(staging, ignore_errors=True): done, done in part, or given up. */
  function RolledBack(c: Cell, ch: Choice): Cell {
    if ch == Raise || c.disk.staging == NoDir then c
    else c.(disk := c.disk.(staging := if ch == Partway then Torn else NoDir))
  }

  function Next(w: World, s: Step): World {
    match s
    case Tick => w.(clock := w.clock + 1)
    case Scan(p, n) =>
      if CellOf(w, n).disk.staging == NoDir then w else w.(scanned := w.scanned + {(p, n)})
    case Acquire(p, n, cmd) =>
      if p in w.procs || p in w.late || n in w.owner || (cmd == CheckCmd && (p, n) !in w.scanned) then w  // busy, FactorLocked, or not listed
      else
        w.(procs := w.procs[p := Proc(n, Entry(cmd))],
           owner := w.owner[n := p],
           scanned := if cmd == CheckCmd then w.scanned - {(p, n)} else w.scanned,
           strayed := if cmd == CheckCmd && CellOf(w, n).disk.staging == NoDir then w.strayed + {n} else w.strayed)
    case Advance(p, ch) => if p in w.procs then Advanced(w, p, ch) else w
    case LateRollback(p, ch) =>
      if p !in w.late then w
      else
        var n := w.late[p];
        w.(cells := w.cells[n := RolledBack(CellOf(w, n), ch)], late := if ch == Partway then w.late else w.late - {p})
    case Die(p) =>
      if p !in w.procs then w.(late := w.late - {p})
      else
        var n := w.procs[p].name;
        w.(procs := w.procs - {p}, owner := w.owner - {n}, dead := w.dead + {n}, strayed := w.strayed + {n})
  }

  function Run(w: World, steps: seq<Step>): World {
    if steps == [] then w else Next(Run(w, steps[..|steps| - 1]), steps[|steps| - 1])
  }

  // ------------------------------------------------------------------ mutual exclusion

  /** The lock table and the processes agree: each held lock has one process inside, each process holds its lock. */
  ghost predicate Locked(w: World) {
    && (forall p <- w.procs :: w.procs[p].pc != Free && w.procs[p].name in w.owner && w.owner[w.procs[p].name] == p)
    && (forall n <- w.owner :: w.owner[n] in w.procs && w.procs[w.owner[n]].name == n)
  }

  lemma NextLocked(w: World, s: Step)
    requires Locked(w)
    ensures Locked(Next(w, s))
  {
    if s.Acquire? && Next(w, s) != w {
      assert Entry(s.cmd) != Free;
    }
  }

  // ------------------------------------------------------------------ invariant of one factor in the world

  ghost predicate Tended(w: World, n: Name) {
    var l, d := LocalOf(w, n), DigestIn(w, n);
    && Sound(l, d, w.clock)
    && (n !in w.dead ==> StatusAt(l, d))
    && (n !in w.strayed ==> Orderly(l, d.lastCheck))
  }

  ghost predicate Inv(w: World) {
    && Locked(w)
    && w.dead <= w.strayed
    && (forall p <- w.late :: w.late[p] in w.strayed)
    && forall n: Name :: Tended(w, n)
  }

  lemma {:induction false} AdvanceFrame(w: World, p: Pid, ch: Choice, n: Name)
    requires Locked(w) && p in w.procs && w.procs[p].name != n
    ensures LocalOf(Advanced(w, p, ch), n) == LocalOf(w, n)
    ensures Own(Advanced(w, p, ch).history, n) == Own(w.history, n)
  {
    var k := w.procs[p].name;
    var m := LocalStep(LocalOf(w, k), k, DigestIn(w, k).lastFail, ch, w.clock);
    OwnAppendOther(w.history, m.events, n);
  }

  lemma AdvanceOwn(w: World, p: Pid, ch: Choice)
    requires Locked(w) && p in w.procs
    ensures var n := w.procs[p].name;
            var m := LocalStep(LocalOf(w, n), n, DigestIn(w, n).lastFail, ch, w.clock);
            LocalOf(Advanced(w, p, ch), n) == m.next && DigestIn(Advanced(w, p, ch), n) == NoteAll(DigestIn(w, n), m.events)
  {
    var n := w.procs[p].name;
    var m := LocalStep(LocalOf(w, n), n, DigestIn(w, n).lastFail, ch, w.clock);
    OwnAppend(w.history, m.events, n);
    DigestAppend(Own(w.history, n), m.events);
  }

  lemma AdvanceTended(w: World, p: Pid, ch: Choice, n: Name)
    requires Inv(w) && p in w.procs
    ensures Tended(Advanced(w, p, ch), n)
  {
    assert Tended(w, n);
    if n == w.procs[p].name {
      AdvanceOwn(w, p, ch);
      StepSound(LocalOf(w, n), n, DigestIn(w, n), ch, w.clock);
      if n !in Advanced(w, p, ch).strayed {
        StepOrderly(LocalOf(w, n), n, DigestIn(w, n), ch, w.clock);
      }
    } else {
      AdvanceFrame(w, p, ch, n);
    }
  }

  /** Starting a command from a free factor: only a check without its staging directory strays. */
  lemma EntryTended(l: Local, d: Digest, cmd: Command, now: Time)
    requires l.pc == Free && Sound(l, d, now)
    ensures Sound(l.(pc := Entry(cmd)), d, now)
    ensures StatusAt(l, d) ==> StatusAt(l.(pc := Entry(cmd)), d)
    ensures Orderly(l, d.lastCheck) && !(cmd == CheckCmd && l.cell.disk.staging == NoDir) ==>
              Orderly(l.(pc := Entry(cmd)), d.lastCheck)
  {
  }

  lemma AcquireTended(w: World, p: Pid, n: Name, cmd: Command, k: Name)
    requires Inv(w)
    ensures Tended(Next(w, Acquire(p, n, cmd)), k)
  {
    assert Tended(w, k);
    var w' := Next(w, Acquire(p, n, cmd));
    if k == n && w' != w {
      EntryTended(LocalOf(w, k), DigestIn(w, k), cmd, w.clock);
      assert LocalOf(w', k) == LocalOf(w, k).(pc := Entry(cmd));
    } else {
      assert LocalOf(w', k) == LocalOf(w, k);
    }
  }

  /** A step that leaves the factor's rows, files and control point alone keeps it tended. */
  lemma UntouchedTended(w: World, w': World, n: Name)
    requires Tended(w, n) && LocalOf(w', n) == LocalOf(w, n) && w'.history == w.history && w.clock <= w'.clock
    requires w'.dead == w.dead && w'.strayed == w.strayed
    ensures Tended(w', n)
  {
  }

  lemma QuietTended(w: World, s: Step, n: Name)
    requires Inv(w) && (s.Tick? || s.Scan?)
    ensures Tended(Next(w, s), n)
  {
    assert Tended(w, n);
    UntouchedTended(w, Next(w, s), n);
  }

  lemma DieTended(w: World, p: Pid, n: Name)
    requires Inv(w)
    ensures Tended(Next(w, Die(p)), n)
  {
    assert Tended(w, n);
    var w' := Next(w, Die(p));
    assert w'.history == w.history && w'.clock == w.clock;
    if p in w.procs && w.procs[p].name == n {
      assert LocalOf(w', n) == LocalOf(w, n).(pc := Free);
      assert n in w'.dead && n in w'.strayed;
    } else {
      assert LocalOf(w', n) == LocalOf(w, n);
    }
  }

  lemma LateTended(w: World, p: Pid, ch: Choice, n: Name)
    requires Inv(w)
    ensures Tended(Next(w, LateRollback(p, ch)), n)
  {
    hide Inv, Sound, Orderly, StatusAt;
    InvSays(w, n);
    var w' := Next(w, LateRollback(p, ch));
    if p in w.late && w.late[p] == n {
      RollbackTended(w, w', n);
    } else {
      UntouchedTended(w, w', n);
    }
  }

  lemma InvSays(w: World, n: Name)
    requires Inv(w)
    ensures Tended(w, n) && forall p <- w.late :: w.late[p] in w.strayed
  {
  }

  lemma RollbackTended(w: World, w': World, n: Name)
    requires Tended(w, n) && n in w.strayed && w' == w.(cells := w'.cells, late := w'.late)
    requires exists ch :: CellOf(w', n) == RolledBack(CellOf(w, n), ch)
    ensures Tended(w', n)
  {
  }

  lemma NextTended(w: World, s: Step, n: Name)
    requires Inv(w)
    ensures Tended(Next(w, s), n)
  {
    match s
    case Tick => QuietTended(w, s, n);
    case Scan(_, _) => QuietTended(w, s, n);
    case Acquire(p, k, cmd) => AcquireTended(w, p, k, cmd, n);
    case Advance(p, ch) =>
      if p in w.procs {
        AdvanceTended(w, p, ch, n);
      } else {
        assert Tended(w, n);
      }
    case LateRollback(p, ch) => LateTended(w, p, ch, n);
    case Die(p) => DieTended(w, p, n);
  }

  lemma NextInv(w: World, s: Step)
    requires Inv(w)
    ensures Inv(Next(w, s))
  {
    NextLocked(w, s);
    forall n: Name
      ensures Tended(Next(w, s), n)
    {
      NextTended(w, s, n);
    }
  }

  lemma {:induction false} RunInv(steps: seq<Step>)
    ensures Inv(Run(INIT, steps))
  {
    if steps == [] {
      forall n: Name
        ensures Tended(INIT, n)
      {
        assert Own(INIT.history, n) == [];
      }
    } else {
      RunInv(steps[..|steps| - 1]);
      NextInv(Run(INIT, steps[..|steps| - 1]), steps[|steps| - 1]);
    }
  }
}
