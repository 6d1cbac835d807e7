// One process running a command while the others wait: what Solo says of it is what happens in the world of processes.
module Alone {
  import opened Prelude
  import opened Factor
  import opened Commands
  import opened Solo
  import opened Library
  import opened SourceProof

  function Advances(p: Pid, chs: seq<Choice>): seq<Step> {
    seq(|chs|, i requires 0 <= i < |chs| => Advance(p, chs[i]))
  }

  lemma {:induction false} RunAppend(w: World, a: seq<Step>, b: seq<Step>)
    ensures Run(w, a + b) == Run(Run(w, a), b)
  {
    if b == [] {
      assert a + b == a;
    } else {
      var k := |b| - 1;
      assert (a + b)[..|a| + k] == a + b[..k];
      RunAppend(w, a, b[..k]);
    }
  }

  lemma {:induction false} RunExtends(w: World, a: seq<Step>, s: Step)
    ensures Run(w, a + [s]) == Next(Run(w, a), s)
  {
    assert (a + [s])[..|a|] == a;
  }

  /** The same but for the flag of an abandoned check. */
  predicate Alike(m: Move, m': Move) {
    m'.events == m.events && m'.next.cell == m.next.cell && m'.next.pc == m.next.pc
  }

  lemma SubmitAlike(l: Local, b: bool, s: SubmitPc, n: Name, ch: Choice, now: Time)
    requires l.pc == Sub(s)
    ensures var m := SubmitStep(l, s, n, ch, now);
            Alike(m, SubmitStep(l.(abandoned := b), s, n, ch, now)) && !m.next.pc.App?
  {
  }

  lemma CheckAlike(l: Local, b: bool, k: CheckPc, n: Name, ch: Choice, now: Time)
    requires l.pc == Chk(k)
    ensures var m := CheckStep(l, k, n, ch, now);
            Alike(m, CheckStep(l.(abandoned := b), k, n, ch, now)) && !m.next.pc.Sub? && !m.next.pc.App?
  {
  }

  lemma ArchiveAlike(l: Local, b: bool, a: ArchivePc, ch: Choice)
    requires l.pc == Arc(a)
    ensures var m := ArchiveStep(l, a, ch);
            Alike(m, ArchiveStep(l.(abandoned := b), a, ch)) && !m.next.pc.Sub? && !m.next.pc.App?
  {
  }

  lemma RejectAlike(l: Local, b: bool, stage: StageName, at: Time, j: RejectPc, n: Name, ch: Choice, now: Time)
    requires l.pc == Rej(stage, at, j)
    ensures var m := RejectStep(l, stage, at, j, n, ch, now);
            Alike(m, RejectStep(l.(abandoned := b), stage, at, j, n, ch, now)) && !m.next.pc.Sub? && !m.next.pc.App?
  {
  }

  lemma RecallAlike(l: Local, b: bool, from: Status, purge: bool, r: RecallPc, n: Name, ch: Choice, now: Time)
    requires l.pc == Rst(Recalling(from, purge, r))
    ensures var m := RecallStep(l, from, purge, r, n, ch, now);
            Alike(m, RecallStep(l.(abandoned := b), from, purge, r, n, ch, now)) && !m.next.pc.Sub? && !m.next.pc.App?
  {
  }

  lemma RestageAlike(l: Local, b: bool, t: RestagePc, n: Name, ch: Choice, now: Time)
    requires l.pc == Rst(t)
    ensures var m := RestageStep(l, t, n, ch, now);
            Alike(m, RestageStep(l.(abandoned := b), t, n, ch, now)) && !m.next.pc.Sub? && !m.next.pc.App?
  {
    hide RecallStep;
    if t.Recalling? {
      RecallAlike(l, b, t.from, t.purge, t.r, n, ch, now);
    }
  }

  lemma ApproveAlike(l: Local, b: bool, p: ApprovePc, n: Name, f: Option<Event>, now: Time)
    requires l.pc == App(p)
    ensures var m := ApproveStep(l, p, n, f, now);
            Alike(m, ApproveStep(l.(abandoned := b), p, n, f, now)) && !m.next.pc.Sub? && (m.next.pc.App? ==> m.events == [])
  {
  }

  lemma RemovalAlike(l: Local, b: bool, x: RemovalPc, n: Name, ch: Choice, now: Time)
    requires l.pc == Del(x)
    ensures var m := RemovalStep(l, x, n, ch, now);
            Alike(m, RemovalStep(l.(abandoned := b), x, n, ch, now)) && !m.next.pc.Sub? && !m.next.pc.App?
  {
  }

  /** Only approve reads the log, and it has written nothing when it does; no command turns into another one; and whether an
      earlier check was abandoned makes no difference. */
  lemma StepIgnores(l: Local, b: bool, n: Name, f: Option<Event>, g: Option<Event>, ch: Choice, now: Time)
    ensures var m := LocalStep(l, n, f, ch, now);
            && (!l.pc.App? ==> m == LocalStep(l, n, g, ch, now))
            && (m.next.pc.App? ==> l.pc.App? && m.events == []) && (m.next.pc.Sub? ==> l.pc.Sub?)
            && Alike(m, LocalStep(l.(abandoned := b), n, f, ch, now))
  {
    hide SubmitStep, CheckStep, ArchiveStep, RejectStep, RestageStep, ApproveStep, RemovalStep;
    match l.pc
    case Free =>
    case Sub(s) => SubmitAlike(l, b, s, n, ch, now);
    case Chk(k) => CheckAlike(l, b, k, n, ch, now);
    case Arc(a) => ArchiveAlike(l, b, a, ch);
    case Rej(stage, at, j) => RejectAlike(l, b, stage, at, j, n, ch, now);
    case Rst(t) => RestageAlike(l, b, t, n, ch, now);
    case App(p) => ApproveAlike(l, b, p, n, f, now);
    case Del(x) => RemovalAlike(l, b, x, n, ch, now);
  }

  lemma {:induction false} DriveIgnoresLog(t: Trail, n: Name, f: Option<Event>, g: Option<Event>, now: Time, chs: seq<Choice>)
    requires !t.l.pc.App?
    ensures Drive(t, n, f, now, chs) == Drive(t, n, g, now, chs)
    decreases |chs|
  {
    if chs != [] {
      StepIgnores(t.l, false, n, f, g, chs[0], now);
      DriveIgnoresLog(Stepped(t, n, f, now, chs[0]), n, f, g, now, chs[1..]);
    }
  }

  lemma {:induction false} DriveIsLocalRun(l: Local, n: Name, f: Option<Event>, now: Time, chs: seq<Choice>)
    ensures Drive(Trail(l, []), n, f, now, chs).l == LocalRun(l, n, f, now, chs)
  {
    if chs != [] {
      var k := |chs| - 1;
      DriveIsLocalRun(l, n, f, now, chs[..k]);
      DriveExtends(Trail(l, []), n, f, now, chs[..k], chs[k]);
      assert chs == chs[..k] + [chs[k]];
    }
  }

  /** Between w and w' only process p moved: its factor is now l, it wrote log, and the lock is free again exactly when l is. */
  ghost predicate Moved(w: World, w': World, p: Pid, n: Name, l: Local, log: seq<Event>) {
    && Locked(w') && w'.clock == w.clock && w'.late == w.late && w'.scanned == w.scanned && w'.dead == w.dead
    && LocalOf(w', n) == l && w'.history == w.history + log
    && (forall k :: k != n ==> CellOf(w', k) == CellOf(w, k))
    && (if l.pc == Free then w'.owner == w.owner - {n} && w'.procs.Keys == w.procs.Keys - {p}
        else Holds(w', p, n) && w'.owner == w.owner && w'.procs.Keys == w.procs.Keys)
  }

  lemma SoloStep(w: World, p: Pid, n: Name, ch: Choice)
    requires Locked(w) && Holds(w, p, n) && !LeavesRollback(LocalOf(w, n), ch)
    ensures var m := LocalStep(LocalOf(w, n), n, DigestIn(w, n).lastFail, ch, w.clock);
            Moved(w, Next(w, Advance(p, ch)), p, n, m.next, m.events)
  {
    NextLocked(w, Advance(p, ch));
    AdvanceOwn(w, p, ch);
  }

  lemma MovedTrans(u: World, v: World, w: World, p: Pid, n: Name, l: Local, log: seq<Event>, l': Local, more: seq<Event>)
    requires Holds(u, p, n) && Moved(u, v, p, n, l, log) && l.pc != Free && Moved(v, w, p, n, l', more)
    ensures Moved(u, w, p, n, l', log + more)
  {
    assert (u.history + log) + more == u.history + (log + more);
  }

  lemma Idle(w: World, p: Pid, ch: Choice)
    requires p !in w.procs
    ensures Next(w, Advance(p, ch)) == w
  {
  }

  /** A process that runs alone does to its factor what Drive says, and what the free factor's remaining choices say is nothing. */
  lemma {:induction false} SoloRun(w: World, p: Pid, n: Name, chs: seq<Choice>)
    requires Locked(w) && Holds(w, p, n) && (LocalOf(w, n).pc.Sub? ==> Raise !in chs)
    ensures var t := Drive(Trail(LocalOf(w, n), []), n, DigestIn(w, n).lastFail, w.clock, chs);
            && Moved(w, Run(w, Advances(p, chs)), p, n, t.l, t.log)
            && (t.l.pc.App? ==> t.log == []) && (t.l.pc.Sub? ==> LocalOf(w, n).pc.Sub?)
  {
    var f := DigestIn(w, n).lastFail;
    if chs == [] {
      assert w.history + [] == w.history;
    } else {
      var k := |chs| - 1;
      var rest, ch := chs[..k], chs[k];
      assert Advances(p, chs)[..k] == Advances(p, rest) && chs == rest + [ch];
      SoloRun(w, p, n, rest);
      DriveExtends(Trail(LocalOf(w, n), []), n, f, w.clock, rest, ch);
      var v, t := Run(w, Advances(p, rest)), Drive(Trail(LocalOf(w, n), []), n, f, w.clock, rest);
      var m := LocalStep(t.l, n, f, ch, w.clock);
      if t.l.pc == Free {
        Idle(v, p, ch);
        FreeStays(t, n, f, w.clock, ch);
      } else {
        SoloNext(w, v, t, p, n, f, ch);
      }
    }
  }

  lemma FreeStays(t: Trail, n: Name, f: Option<Event>, now: Time, ch: Choice)
    requires t.l.pc == Free
    ensures Stepped(t, n, f, now, ch) == t
  {
    assert t.log + [] == t.log;
  }

  lemma SoloNext(w: World, v: World, t: Trail, p: Pid, n: Name, f: Option<Event>, ch: Choice)
    requires Holds(w, p, n) && Moved(w, v, p, n, t.l, t.log) && t.l.pc != Free && f == DigestIn(w, n).lastFail
    requires (t.l.pc.App? ==> t.log == []) && (t.l.pc.Sub? ==> ch != Raise)
    ensures var u := Stepped(t, n, f, w.clock, ch);
            Moved(w, Next(v, Advance(p, ch)), p, n, u.l, u.log) && (u.l.pc.App? ==> u.log == []) && (u.l.pc.Sub? ==> t.l.pc.Sub?)
  {
    var g := DigestIn(v, n).lastFail;
    if t.l.pc.App? {
      assert w.history + [] == w.history;
    }
    StepIgnores(t.l, false, n, f, g, ch, w.clock);
    SoloStep(v, p, n, ch);
    var m := LocalStep(t.l, n, f, ch, w.clock);
    MovedTrans(w, v, Next(v, Advance(p, ch)), p, n, t.l, t.log, m.next, m.events);
  }

  // ------------------------------------------------------------------ a whole command

  lemma {:induction false} DriveIgnoresFlag(t: Trail, b: bool, n: Name, f: Option<Event>, now: Time, chs: seq<Choice>)
    ensures var u, u' := Drive(t, n, f, now, chs), Drive(Trail(t.l.(abandoned := b), t.log), n, f, now, chs);
            u'.log == u.log && u'.l.cell == u.l.cell && u'.l.pc == u.l.pc
    decreases |chs|
  {
    if chs != [] {
      StepIgnores(t.l, b, n, f, f, chs[0], now);
      var v, v' := Stepped(t, n, f, now, chs[0]), Stepped(Trail(t.l.(abandoned := b), t.log), n, f, now, chs[0]);
      assert v' == Trail(v.l.(abandoned := v'.l.abandoned), v.log);
      DriveIgnoresFlag(v, v'.l.abandoned, n, f, now, chs[1..]);
    }
  }

  /** What Finishes says of a command run alone happens in the world when a process takes the lock and runs it to its end
      while the others wait: the lock comes free with that cell and those rows, and nothing else has changed. The last failure
      that counts is the one in the log; commands other than approve do not ask for it. */
  lemma {:induction false} AloneInWorld(w: World, p: Pid, n: Name, cmd: Command, f: Option<Event>, chs: seq<Choice>, c': Cell, log: seq<Event>)
    requires Locked(w) && p !in w.procs && p !in w.late && n !in w.owner && (cmd == CheckCmd ==> (p, n) in w.scanned)
    requires cmd.ApproveCmd? ==> f == DigestIn(w, n).lastFail
    requires Finishes(CellOf(w, n), Entry(cmd), n, f, w.clock, chs, c', log) && (cmd.SubmitCmd? ==> Raise !in chs)
    ensures var w' := Run(w, [Acquire(p, n, cmd)] + Advances(p, chs));
            && Locked(w') && w'.owner == w.owner && w'.procs.Keys == w.procs.Keys && w'.clock == w.clock && w'.late == w.late
            && CellOf(w', n) == c' && w'.history == w.history + log && forall k :: k != n ==> CellOf(w', k) == CellOf(w, k)
  {
    var v := Next(w, Acquire(p, n, cmd));
    var first := [Acquire(p, n, cmd)];
    NextLocked(w, Acquire(p, n, cmd));
    RunAppend(w, first, Advances(p, chs));
    assert first[..0] == [] && Run(w, first) == v;
    var l := LocalOf(v, n);
    assert l == Local(CellOf(w, n), Entry(cmd), n in w.abandoned) && DigestIn(v, n) == DigestIn(w, n);
    SoloRun(v, p, n, chs);
    if !cmd.ApproveCmd? {
      DriveIgnoresLog(Trail(l, []), n, f, DigestIn(w, n).lastFail, w.clock, chs);
    }
    DriveIgnoresFlag(Trail(Local(CellOf(w, n), Entry(cmd), false), []), n in w.abandoned, n, f, w.clock, chs);
  }
}
