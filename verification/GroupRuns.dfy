// Every run of the production line: sync, pre-check, admission, bootstrap and damage from outside, in any order and with any
// ACTIVE set and sources in between (ops/services/produce/groups.py:141-346, scripts/bootstrap_groups.py:70-169).
module GroupRuns {
  import opened Prelude
  import opened Groups
  import opened GroupTheorems
  import opened Bootstrap
  import P = Partition

  /** conflicted: member lists whose XMLs do not merge; used: numbers of all groups, superseded ones included. */
  datatype Change =
    | Sync(e: Env)
    | Precheck(broken: set<(Gid, Name)>)
    | Admit(e: Env, f: Name)
    | Seal(e: Env, records: Records, names: seq<Name>, size: int, used: set<Gid>, conflicted: set<seq<Name>>)
    | Spoil(g: Gid, legs: Option<seq<Leg>>)

  /** What lets a change happen: a sync that completes; a pending factor; a bootstrap whose groups do not meet at their ends;
      an outside edit that moves, adds or drops legs, or removes the file. */
  ghost predicate Possible(l: Line, c: Change) {
    match c
    case Sync(e) => Completes(l, e)
    case Precheck(_) => true
    case Admit(e, f) => f in Pending(l, e) && HasXml(e, f)
    case Seal(e, records, names, size, used, conflicted) =>
      size >= 1 ==> UniqueNames(records) && (forall g <- l.gids :: g in used) && EndsDiffer(e, conflicted, Pool(records, names, l), size)
    case Spoil(g, legs) => g in l.gids && (legs.Some? ==> LegIds(legs.value) != Factors(RosterOf(l, g)))
  }

  function Changed(l: Line, c: Change): Line {
    match c
    case Sync(e) => Synced(l, e)
    case Precheck(broken) => Prechecked(l, broken)
    case Admit(e, f) => Admitted(l, e, f)
    case Seal(e, records, names, size, used, conflicted) =>
      if size >= 1 then Bootstrapped(l, e, records, names, size, used, conflicted) else l
    case Spoil(g, legs) => if legs.Some? then l.(xml := l.xml[g := legs.value]) else l.(xml := l.xml - {g})
  }

  function LineAfter(cs: seq<Change>): Line {
    if cs == [] then EMPTY_LINE else Changed(LineAfter(cs[..|cs| - 1]), cs[|cs| - 1])
  }

  ghost predicate PossibleRun(cs: seq<Change>) {
    cs == [] || (PossibleRun(cs[..|cs| - 1]) && Possible(LineAfter(cs[..|cs| - 1]), cs[|cs| - 1]))
  }

  lemma SpoilSane(l: Line, c: Change)
    requires Sane(l) && Possible(l, c) && c.Spoil?
    ensures Sane(Changed(l, c))
  {
    var l' := Changed(l, c);
    assert !Healthy(l', c.g);
    assert forall h :: RosterOf(l', h) == RosterOf(l, h);
    forall h | h in l.gids && h != c.g
      ensures Healthy(l', h) == Healthy(l, h) && forall i :: LegAt(l', h, i) == LegAt(l, h, i)
    {
    }
  }

  lemma ChangeSane(l: Line, c: Change)
    requires Sane(l) && Possible(l, c)
    ensures Sane(Changed(l, c))
  {
    match c
    case Sync(e) =>
      SyncKeepsValid(l, e);
      SyncOneHome(l, e);
      SyncFlagsAgree(l, e);
    case Precheck(broken) => PrecheckSane(l, broken);
    case Admit(e, f) => AdmitSane(l, e, f);
    case Seal(e, records, names, size, used, conflicted) =>
      if size >= 1 {
        BootstrapExactly(l, e, records, names, size, used, conflicted);
      }
    case Spoil(_, _) => SpoilSane(l, c);
  }

  /** Over every run, whatever the ACTIVE set and the sources do between changes: rosters stay disjoint, no factor is both
      unmuted in a group and a single, and dump flags stay the negation of muted flags. */
  lemma {:induction false} RunSane(cs: seq<Change>)
    requires PossibleRun(cs)
    ensures Sane(LineAfter(cs))
  {
    if cs != [] {
      RunSane(cs[..|cs| - 1]);
      ChangeSane(LineAfter(cs[..|cs| - 1]), cs[|cs| - 1]);
    }
  }

  /** A pre-check in a run: no leg of a healthy group dumps afterwards while it is broken, and only those are muted. */
  lemma {:induction false} PrecheckStep(cs: seq<Change>, broken: set<(Gid, Name)>, g: Gid, i: nat)
    requires PossibleRun(cs) && g in LineAfter(cs).gids && g in LineAfter(cs).roster && i < |LineAfter(cs).roster[g]| && Healthy(LineAfter(cs), g)
    ensures var l, l' := LineAfter(cs), LineAfter(cs + [Precheck(broken)]);
            && g in l.xml && g in l'.xml && g in l'.roster && i < |l.xml[g]| && i < |l'.xml[g]| && i < |l'.roster[g]|
            && !(l'.xml[g][i].dump && (g, l'.xml[g][i].id) in broken)
            && ((g, l.xml[g][i].id) !in broken ==> l'.xml[g][i] == l.xml[g][i] && l'.roster[g][i] == l.roster[g][i])
            && (l'.roster[g][i].muted <==> l.roster[g][i].muted || (l.xml[g][i].dump && (g, l.xml[g][i].id) in broken))
  {
    var l := LineAfter(cs);
    assert (cs + [Precheck(broken)])[..|cs|] == cs;
    RunSane(cs);
    hide Changed;
    PrecheckedLine(cs, broken);
    hide Prechecked, LineAfter;
    PrecheckExactly(l, g, i, broken);
    HealthyExactly(l, g);
  }

  lemma {:induction false} PrecheckedLine(cs: seq<Change>, broken: set<(Gid, Name)>)
    ensures LineAfter(cs + [Precheck(broken)]) == Prechecked(LineAfter(cs), broken)
  {
    assert (cs + [Precheck(broken)])[..|cs|] == cs;
  }

  /** A pass in a run mutes and unmutes row by row, in every group that is not damaged. */
  lemma {:induction false} SyncStep(cs: seq<Change>, e: Env, g: Gid, i: nat)
    requires PossibleRun(cs) && g in LineAfter(cs).gids && g in LineAfter(cs).roster && i < |LineAfter(cs).roster[g]|
    ensures var l, l' := LineAfter(cs), LineAfter(cs + [Change.Sync(e)]);
            && g in l'.roster && i < |l'.roster[g]| && l'.roster[g][i].factor == l.roster[g][i].factor
            && (Healthy(l, g) ==> (l'.roster[g][i].muted <==> !(l.roster[g][i].factor in e.active && CopyIsLive(l, e, g, l.roster[g][i].factor))))
            && (!Healthy(l, g) ==> l'.roster[g][i] == l.roster[g][i])
  {
    assert (cs + [Change.Sync(e)])[..|cs|] == cs;
    RunSane(cs);
    SyncedLine(cs, e);
    hide Changed, LineAfter, Synced, Healthy, CopyIsLive;
    SyncRow(LineAfter(cs), e, g, i);
  }

  lemma {:induction false} SyncedLine(cs: seq<Change>, e: Env)
    ensures LineAfter(cs + [Change.Sync(e)]) == Synced(LineAfter(cs), e)
  {
    assert (cs + [Change.Sync(e)])[..|cs|] == cs;
  }

  // ------------------------------------------------------------------ order

  predicate Damages(c: Change, g: Gid) {
    c.Spoil? && c.g == g
  }

  /** Same members in the same order; with its group.xml undamaged, also the same legs in the same order. */
  ghost predicate SameOrder(l: Line, l': Line, g: Gid, legs: bool) {
    && g in l'.gids && Factors(RosterOf(l', g)) == Factors(RosterOf(l, g))
    && (legs ==> (g in l'.xml <==> g in l.xml) && (g in l.xml ==> LegIds(l'.xml[g]) == LegIds(l.xml[g])))
  }

  lemma BuiltKeepsOrder(l: Line, e: Env, x: Planned, g: Gid)
    requires g in l.gids && x.gid != g
    ensures SameOrder(l, Built(l, e, x), g, true)
  {
  }

  lemma {:induction false} BuildKeepsOrder(l: Line, e: Env, plan: seq<Planned>, g: Gid)
    requires g in l.gids && forall i :: 0 <= i < |plan| ==> plan[i].gid != g
    ensures SameOrder(l, Build(l, e, plan), g, true)
  {
    if plan != [] {
      BuildKeepsOrder(l, e, plan[..|plan| - 1], g);
      BuiltKeepsOrder(Build(l, e, plan[..|plan| - 1]), e, plan[|plan| - 1], g);
    }
  }

  lemma PrecheckKeepsOrder(l: Line, broken: set<(Gid, Name)>, g: Gid)
    requires Valid(l) && g in l.gids
    ensures SameOrder(l, Prechecked(l, broken), g, true)
  {
    PrecheckedAt(l, broken, g);
    if g in l.xml && Healthy(l, g) {
      assert |Factors(RosterOf(l, g))| == |LegIds(l.xml[g])|;
    }
  }

  lemma ChangeKeepsOrder(l: Line, c: Change, g: Gid)
    requires Sane(l) && Possible(l, c) && g in l.gids
    ensures SameOrder(l, Changed(l, c), g, !Damages(c, g))
  {
    match c
    case Sync(e) => SyncKeepsOrder(l, e, g);
    case Precheck(broken) => PrecheckKeepsOrder(l, broken, g);
    case Admit(_, _) =>
    case Seal(e, records, names, size, used, conflicted) =>
      if size >= 1 {
        var plan := Plan(e, conflicted, P.PartitionOf(Pool(records, names, l), size), used);
        PlanFresh(e, conflicted, P.PartitionOf(Pool(records, names, l), size), used);
        BuildKeepsOrder(l, e, plan, g);
      }
    case Spoil(_, _) =>
  }

  lemma SameOrderOfSelf(l: Line, g: Gid)
    requires g in l.gids
    ensures SameOrder(l, l, g, true)
  {
  }

  lemma SameOrderTrans(k: Line, l: Line, m: Line, g: Gid, once: bool, again: bool)
    requires SameOrder(k, l, g, once) && SameOrder(l, m, g, again)
    ensures SameOrder(k, m, g, once && again)
  {
  }

  /** Once a group exists, its roster order - and with it each factor's ordinal - never changes again; nor does the order of
      the legs in its group.xml, as long as nobody damages that file from outside. */
  lemma {:induction false} RunKeepsOrder(before: seq<Change>, more: seq<Change>, g: Gid)
    requires PossibleRun(before + more) && g in LineAfter(before).gids
    ensures SameOrder(LineAfter(before), LineAfter(before + more), g, forall c <- more :: !Damages(c, g))
  {
    hide Changed, Possible, LegIds, Factors, RosterOf, Damages;
    if more == [] {
      assert before + more == before;
      SameOrderOfSelf(LineAfter(before), g);
    } else {
      var cs, rest := before + more, more[..|more| - 1];
      var k := |cs| - 1;
      assert cs[..k] == before + rest && cs[k] == more[|more| - 1];
      RunKeepsOrder(before, rest, g);
      RunSane(cs[..k]);
      ChangeKeepsOrder(LineAfter(cs[..k]), cs[k], g);
      SameOrderTrans(LineAfter(before), LineAfter(cs[..k]), LineAfter(cs), g, forall c <- rest :: !Damages(c, g), !Damages(cs[k], g));
      assert more == rest + [cs[k]];
    }
  }
}
