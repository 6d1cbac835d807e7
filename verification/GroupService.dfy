// sync_groups and the pre-check as the loops they are, over tables and files updated in place,
// proved to do what the closed forms of Groups and GroupTheorems say (ops/services/produce/groups.py:100-207).
module GroupService {
  import opened Prelude
  import opened Groups
  import opened GroupTheorems

  /** Groups that the pass skips, in gid order. */
  function Skipped(l: Line, gs: seq<Gid>): (r: seq<Gid>)
    ensures forall g :: g in r <==> g in gs && !Healthy(l, g)
  {
    if gs == [] then []
    else Skipped(l, gs[..|gs| - 1]) + if Healthy(l, gs[|gs| - 1]) then [] else [gs[|gs| - 1]]
  }

  lemma DemotedMore(l: Line, e: Env, k: nat)
    requires k < |l.gids|
    ensures Demoted(l, e, l.gids[..k + 1]) == Demoted(l, e, l.gids[..k]) + Demoted(l, e, [l.gids[k]])
    ensures Returning(l, e, l.gids[..k + 1]) == Returning(l, e, l.gids[..k]) + Returning(l, e, [l.gids[k]])
  {
    assert l.gids[..k + 1] == l.gids[..k] + [l.gids[k]];
    assert forall g :: g in l.gids[..k + 1] <==> g in l.gids[..k] || g in [l.gids[k]];
  }

  lemma CodePlus(code: map<Name, Pys>, e: Env, a: set<Name>, b: set<Name>)
    ensures code + LivePys(e, a + b) == (code + LivePys(e, a)) + LivePys(e, b)
  {
  }

  lemma NothingLive(code: map<Name, Pys>, e: Env)
    ensures code + LivePys(e, {}) == code
  {
    assert LivePys(e, {}) == map[];
  }

  lemma SinglesPlus(s: set<Name>, a: set<Name>, b: set<Name>, x: set<Name>, y: set<Name>)
    requires b !! x
    ensures (s + (a + b)) - (x + y) == (((s + a) - x) + b) - y
  {
  }

  lemma GroupsStepFiles(l: Line, e: Env, k: nat)
    requires k < |l.gids|
    ensures var g, before, after := l.gids[k], FilesSynced(l, e, l.gids[..k]), FilesSynced(l, e, l.gids[..k + 1]);
            if Healthy(l, g) then g in before && after == before[g := SyncedLegs(l, e, g)] else after == before
  {
    assert l.gids[..k + 1] == l.gids[..k] + [l.gids[k]];
    assert forall h :: h in l.gids[..k + 1] <==> h in l.gids[..k] || h == l.gids[k];
    hide SyncedLegs, LegIds, Factors, RosterOf;
    FilesPlus(l, e, l.gids[..k], l.gids[..k + 1], l.gids[k]);
  }

  lemma FilesPlus(l: Line, e: Env, some: seq<Gid>, more: seq<Gid>, g: Gid)
    requires forall h :: h in more <==> h in some || h == g
    ensures var before, after := FilesSynced(l, e, some), FilesSynced(l, e, more);
            if Healthy(l, g) then g in before && after == before[g := SyncedLegs(l, e, g)] else after == before
  {
    var before, after := FilesSynced(l, e, some), FilesSynced(l, e, more);
    assert Healthy(l, g) ==> g in l.xml;
    hide SyncedLegs, Healthy;
    if Healthy(l, g) {
      assert after == before[g := SyncedLegs(l, e, g)];
    } else {
      assert after == before;
    }
  }

  lemma GroupsStepRosters(l: Line, e: Env, k: nat)
    requires Valid(l) && k < |l.gids|
    ensures var g, before, after := l.gids[k], RostersSynced(l, e, l.gids[..k]), RostersSynced(l, e, l.gids[..k + 1]);
            after == if Healthy(l, g) then before[g := SyncedRoster(l, e, g)] else before
  {
    assert l.gids[..k + 1] == l.gids[..k] + [l.gids[k]];
    assert forall h :: h in l.gids[..k + 1] <==> h in l.gids[..k] || h == l.gids[k];
    hide Healthy, SyncedRoster;
  }

  lemma GroupsStepSingles(l: Line, e: Env, k: nat)
    requires Valid(l) && k < |l.gids|
    ensures var g, m, m' := l.gids[k], GroupsSynced(l, e, l.gids[..k]), GroupsSynced(l, e, l.gids[..k + 1]);
            && m'.singles == (m.singles + Demoted(l, e, [g])) - Returning(l, e, [g])
            && m'.singleCode == m.singleCode + LivePys(e, Demoted(l, e, [g]))
  {
    DemotedMore(l, e, k);
    var before, one := l.gids[..k], [l.gids[k]];
    SinglesPlus(l.singles, Demoted(l, e, before), Demoted(l, e, one), Returning(l, e, before), Returning(l, e, one));
    CodePlus(l.singleCode, e, Demoted(l, e, before), Demoted(l, e, one));
  }

  ghost predicate Distinct(ms: seq<Member>) {
    forall i, j :: 0 <= i < j < |ms| ==> ms[i].factor != ms[j].factor
  }

  /** Two states that agree on one group make the same decisions about it. */
  lemma SameGroup(l: Line, m: Line, e: Env, g: Gid)
    requires RosterOf(m, g) == RosterOf(l, g) && (g in m.xml <==> g in l.xml) && (g in l.xml ==> m.xml[g] == l.xml[g]) && m.frozen == l.frozen
    requires forall i :: 0 <= i < |RosterOf(l, g)| ==> (RosterOf(l, g)[i].factor in m.singles <==> RosterOf(l, g)[i].factor in l.singles)
    ensures Healthy(m, g) == Healthy(l, g)
    ensures Demoted(m, e, [g]) == Demoted(l, e, [g]) && Returning(m, e, [g]) == Returning(l, e, [g])
    ensures SyncedRoster(m, e, g) == SyncedRoster(l, e, g)
    ensures Healthy(l, g) ==> SyncedLegs(m, e, g) == SyncedLegs(l, e, g)
  {
    assert forall f :: WantsMute(m, e, g, f) == WantsMute(l, e, g, f) && Drifts(m, e, g, f) == Drifts(l, e, g, f);
  }

  // ------------------------------------------------------------------ the sets one group's reconciliation computes

  function DriftedIn(l: Line, e: Env, g: Gid): set<Name> {
    set i | 0 <= i < |RosterOf(l, g)| && Drifts(l, e, g, RosterOf(l, g)[i].factor) :: RosterOf(l, g)[i].factor
  }

  function MutedIn(l: Line, g: Gid): set<Name> {
    set i | 0 <= i < |RosterOf(l, g)| && RosterOf(l, g)[i].muted :: RosterOf(l, g)[i].factor
  }

  function DesiredIn(l: Line, e: Env, g: Gid): set<Name> {
    set i | 0 <= i < |RosterOf(l, g)| && WantsMute(l, e, g, RosterOf(l, g)[i].factor) :: RosterOf(l, g)[i].factor
  }

  lemma SetsOfGroup(l: Line, e: Env, g: Gid)
    requires Distinct(RosterOf(l, g)) && Healthy(l, g)
    ensures DriftedIn(l, e, g) - l.singles == Demoted(l, e, [g])
    ensures (MutedIn(l, g) - DesiredIn(l, e, g)) * e.active == Returning(l, e, [g])
    ensures forall i :: 0 <= i < |RosterOf(l, g)| ==>
              var m := RosterOf(l, g)[i];
              && (m.factor in DesiredIn(l, e, g) - MutedIn(l, g) <==> WantsMute(l, e, g, m.factor) && !m.muted)
              && (m.factor in Returning(l, e, [g]) <==> !WantsMute(l, e, g, m.factor) && m.muted)
  {
    assert g in [g];
  }

  function Flagged(ms: seq<Member>, names: set<Name>, muted: bool): (r: seq<Member>)
    ensures |r| == |ms|
  {
    seq(|ms|, i requires 0 <= i < |ms| => if ms[i].factor in names then ms[i].(muted := muted) else ms[i])
  }

  function Dumping(xs: seq<Leg>, names: set<Name>, dump: bool): (r: seq<Leg>)
    ensures |r| == |xs|
  {
    seq(|xs|, i requires 0 <= i < |xs| => if xs[i].id in names then xs[i].(dump := dump) else xs[i])
  }

  lemma EditsMakeSynced(l: Line, e: Env, g: Gid)
    requires Distinct(RosterOf(l, g)) && Healthy(l, g)
    ensures var mute, unmute := DesiredIn(l, e, g) - MutedIn(l, g), Returning(l, e, [g]);
            && Flagged(Flagged(RosterOf(l, g), mute, true), unmute, false) == SyncedRoster(l, e, g)
            && Dumping(Dumping(l.xml[g], mute, false), unmute, true) == SyncedLegs(l, e, g)
  {
    SetsOfGroup(l, e, g);
    var mute, unmute := DesiredIn(l, e, g) - MutedIn(l, g), Returning(l, e, [g]);
    var ms, xs := RosterOf(l, g), l.xml[g];
    assert |Factors(ms)| == |LegIds(xs)|;
    forall i | 0 <= i < |xs|
      ensures xs[i].id == ms[i].factor
    {
      assert LegIds(xs)[i] == Factors(ms)[i];
    }
    assert Flagged(Flagged(ms, mute, true), unmute, false) == SyncedRoster(l, e, g);
    assert Dumping(Dumping(xs, mute, false), unmute, true) == SyncedLegs(l, e, g);
  }

  lemma NoEdit(ms: seq<Member>, xs: seq<Leg>, muted: bool)
    ensures Flagged(ms, {}, muted) == ms && Dumping(xs, {}, muted) == xs
  {
  }

  // ------------------------------------------------------------------ the singles' loop

  predicate DriftedSingle(l: Line, e: Env, f: Name) {
    f in e.active && CodeDrifted(SingleCodeOf(l, f), LiveOf(e, f))
  }

  function DriftedAmong(l: Line, e: Env, fs: set<Name>): set<Name> {
    set f | f in fs && DriftedSingle(l, e, f)
  }

  function DriftedSingles(l: Line, e: Env): set<Name> {
    DriftedAmong(l, e, l.singles)
  }

  /** Factors demoted in this pass carry the live code, so the singles' loop refreezes exactly the closed form's set. */
  lemma RefrozenAfterGroups(l: Line, e: Env)
    requires forall f <- Demoted(l, e, l.gids) :: HasXml(e, f)
    ensures DriftedSingles(GroupsSynced(l, e, l.gids), e) == Refrozen(l, e)
  {
    var m, demoted := GroupsSynced(l, e, l.gids), Demoted(l, e, l.gids);
    forall f
      ensures f in demoted ==> !DriftedSingle(m, e, f)
      ensures f !in demoted ==> DriftedSingle(m, e, f) == DriftedSingle(l, e, f)
    {
      if f in demoted {
        assert f in LivePys(e, demoted);
      }
    }
  }

  /** v: the line after the first k groups. */
  ghost predicate Reached(l: Line, e: Env, k: nat, v: Line)
    requires k <= |l.gids|
  {
    var m := GroupsSynced(l, e, l.gids[..k]);
    v.gids == l.gids && v.frozen == l.frozen && v.checkpoints == l.checkpoints
    && v.roster == m.roster && v.xml == m.xml && v.singles == m.singles && v.singleCode == m.singleCode
  }

  lemma StartOfPass(l: Line, e: Env)
    ensures Reached(l, e, 0, l)
    ensures Demoted(l, e, l.gids[..0]) == {}
  {
  }

  /** What the next group's reconciliation finds, and what makes it the closed form's next step. */
  lemma NextGroup(l: Line, e: Env, k: nat, v: Line)
    requires Valid(l) && k < |l.gids| && Reached(l, e, k, v)
    ensures var g, m' := l.gids[k], GroupsSynced(l, e, l.gids[..k + 1]);
            && g in v.roster && Distinct(v.roster[g]) && Healthy(v, g) == Healthy(l, g)
            && Demoted(v, e, [g]) == Demoted(l, e, [g])
            && (if Healthy(v, g) then m'.roster == v.roster[g := SyncedRoster(v, e, g)] && m'.xml == v.xml[g := SyncedLegs(v, e, g)]
                else m'.roster == v.roster && m'.xml == v.xml)
    ensures NextSingles(l, e, k, v)
  {
    SameGroup(l, v, e, l.gids[k]);
    GroupsStepFiles(l, e, k);
    GroupsStepRosters(l, e, k);
    GroupsStepSingles(l, e, k);
    DemotedFrame(v, e, l.gids[k]);
  }

  ghost predicate NextSingles(l: Line, e: Env, k: nat, v: Line)
    requires k < |l.gids|
  {
    var g, m' := l.gids[k], GroupsSynced(l, e, l.gids[..k + 1]);
    if Healthy(v, g) then m'.singles == (v.singles + Demoted(v, e, [g])) - Returning(v, e, [g])
                          && m'.singleCode == v.singleCode + LivePys(e, Demoted(v, e, [g]))
    else m'.singles == v.singles && m'.singleCode == v.singleCode && Demoted(v, e, [g]) == {}
  }

  lemma DemotedFrame(v: Line, e: Env, g: Gid)
    ensures !Healthy(v, g) ==> Demoted(v, e, [g]) == {} && Returning(v, e, [g]) == {}
    ensures !Healthy(v, g) ==> v.singleCode + LivePys(e, {}) == v.singleCode
  {
    assert LivePys(e, {}) == map[];
  }

  /** Refreezing some singles changes neither whether another one drifts nor what the next refreeze adds. */
  lemma NextSingle(l: Line, v: Line, e: Env, done: set<Name>, f: Name)
    requires f !in done && v.singleCode == l.singleCode + LivePys(e, DriftedAmong(l, e, done))
    ensures DriftedSingle(v, e, f) == DriftedSingle(l, e, f)
    ensures l.singleCode + LivePys(e, DriftedAmong(l, e, done + {f}))
            == v.singleCode + LivePys(e, if DriftedSingle(l, e, f) then {f} else {})
    ensures DriftedAmong(l, e, done + {f}) == DriftedAmong(l, e, done) + if DriftedSingle(l, e, f) then {f} else {}
  {
    AmongWith(l, e, done, f);
    assert f !in LivePys(e, DriftedAmong(l, e, done));
    hide DriftedAmong;
    CodePlus(l.singleCode, e, DriftedAmong(l, e, done), if DriftedSingle(l, e, f) then {f} else {});
    hide LivePys, CodeDrifted;
  }

  lemma AmongWith(l: Line, e: Env, done: set<Name>, f: Name)
    ensures DriftedAmong(l, e, done + {f}) == DriftedAmong(l, e, done) + if DriftedSingle(l, e, f) then {f} else {}
  {
    hide DriftedSingle;
  }

  /** v: the line after the singles `done` have been converged. */
  ghost predicate Converged(l: Line, v: Line, e: Env, done: set<Name>) {
    && v.singles == l.singles - (done - e.active)
    && v.singleCode == l.singleCode + LivePys(e, DriftedAmong(l, e, done))
    && v.checkpoints == l.checkpoints - DriftedAmong(l, e, done)
    && forall f <- DriftedAmong(l, e, done) :: HasXml(e, f)
  }

  lemma ConvergedStep(l: Line, v: Line, v': Line, e: Env, done: set<Name>, f: Name)
    requires Converged(l, v, e, done) && f !in done && (DriftedSingle(v, e, f) ==> HasXml(e, f))
    requires v'.singles == v.singles - ({f} - e.active)
    requires var refrozen := if DriftedSingle(v, e, f) then {f} else {};
             v'.singleCode == v.singleCode + LivePys(e, refrozen) && v'.checkpoints == v.checkpoints - refrozen
    ensures Converged(l, v', e, done + {f})
  {
    NextSingle(l, v, e, done, f);
  }

  lemma ConvergedEnds(l: Line, v: Line, e: Env)
    ensures Converged(l, l, e, {})
    ensures Converged(l, v, e, l.singles) ==>
              v.singles == l.singles * e.active && v.singleCode == l.singleCode + LivePys(e, DriftedSingles(l, e))
              && v.checkpoints == l.checkpoints - DriftedSingles(l, e) && forall f <- DriftedSingles(l, e) :: HasXml(e, f)
  {
  }

  // ------------------------------------------------------------------ the two halves of the pass together

  lemma CompletesInTwoParts(l: Line, e: Env)
    ensures Completes(l, e) <==> (forall f <- Demoted(l, e, l.gids) :: HasXml(e, f)) && forall f <- Refrozen(l, e) :: HasXml(e, f)
  {
  }

  lemma AllGroupsReached(l: Line, m: Line, e: Env)
    requires Reached(l, e, |l.gids|, m) && forall f <- Demoted(l, e, l.gids) :: HasXml(e, f)
    ensures DriftedSingles(m, e) == Refrozen(l, e)
  {
    assert l.gids[..|l.gids|] == l.gids;
    RefrozenAfterGroups(l, e);
  }

  lemma PassIsSynced(l: Line, m: Line, v: Line, e: Env)
    requires Reached(l, e, |l.gids|, m) && DriftedSingles(m, e) == Refrozen(l, e)
    requires v == m.(singles := m.singles * e.active, singleCode := m.singleCode + LivePys(e, DriftedSingles(m, e)),
                     checkpoints := m.checkpoints - DriftedSingles(m, e))
    ensures v == Synced(l, e)
  {
    assert l.gids[..|l.gids|] == l.gids;
  }

  /** Registered before the singles' loop or after it: the same, for an active factor. */
  lemma PendingOf(registered: set<Name>, v: Line, e: Env)
    requires v.singles == registered * e.active
    ensures (set f | f in e.active && !InSomeGroup(v, f) && f !in registered) == Pending(v, e)
  {
  }

  // ------------------------------------------------------------------ the pre-check

  function BadAmong(l: Line, g: Gid, k: nat, broken: set<(Gid, Name)>): set<Name> {
    set i | 0 <= i < k && Bad(l, g, i, broken) :: LegAt(l, g, i).id
  }

  lemma PrecheckEdits(l: Line, g: Gid, broken: set<(Gid, Name)>)
    requires Distinct(RosterOf(l, g)) && Healthy(l, g)
    ensures var bad := BadAmong(l, g, |l.xml[g]|, broken);
            && Flagged(Flagged(RosterOf(l, g), bad, true), {}, false) == PrecheckedRoster(l, g, broken)
            && Dumping(Dumping(l.xml[g], bad, false), {}, true) == PrecheckedLegs(l, g, broken)
  {
    var ms, xs := RosterOf(l, g), l.xml[g];
    var bad := BadAmong(l, g, |xs|, broken);
    assert |Factors(ms)| == |LegIds(xs)|;
    forall i | 0 <= i < |xs|
      ensures xs[i].id == ms[i].factor && (xs[i].id in bad <==> Bad(l, g, i, broken))
    {
      assert LegIds(xs)[i] == Factors(ms)[i];
      forall j | 0 <= j < |xs| && LegAt(l, g, j).id == xs[i].id
        ensures j == i
      {
        assert LegIds(xs)[j] == Factors(ms)[j];
      }
    }
  }

  lemma BadAmongStep(l: Line, g: Gid, k: nat, broken: set<(Gid, Name)>)
    ensures BadAmong(l, g, 0, broken) == {}
    ensures BadAmong(l, g, k + 1, broken) == BadAmong(l, g, k, broken) + if Bad(l, g, k, broken) then {LegAt(l, g, k).id} else {}
  {
  }

  // ------------------------------------------------------------------ the object

  class ProductionLine {
    var gids: seq<Gid>
    var roster: map<Gid, seq<Member>>
    var xml: map<Gid, seq<Leg>>
    var frozen: map<(Gid, Name), Pys>
    var singles: set<Name>
    var singleCode: map<Name, Pys>
    var checkpoints: set<Name>

    function View(): Line
      reads this
    {
      Line(gids, roster, xml, frozen, singles, singleCode, checkpoints)
    }

    /** Frozen copy, single XML and registration; exits without an XML in alpha_src. The checkpoint stays. */
    method AdmitSingle(e: Env, f: Name) returns (ok: bool)
      modifies `singles, `singleCode
      ensures ok == HasXml(e, f)
      ensures singles == old(singles) + (if ok then {f} else {})
      ensures singleCode == old(singleCode) + LivePys(e, if ok then {f} else {})
      ensures ok <==> f in e.live && e.live[f].hasXml
      ensures ok ==> singleCode == old(singleCode)[f := e.live[f].py] && View() == Admitted(old(View()), e, f)
    {
      assert LivePys(e, {}) == map[];
      if !HasXml(e, f) {
        return false;
      }
      singleCode := singleCode[f := e.live[f].py];
      singles := singles + {f};
      assert LivePys(e, {f}) == map[f := e.live[f].py];
      ok := true;
    }

    /** A single whose code drifted: its checkpoint goes first, so the next run starts over. */
    method RefreshSingle(e: Env, f: Name) returns (ok: bool)
      modifies `singles, `singleCode, `checkpoints
      ensures ok == HasXml(e, f)
      ensures f !in checkpoints
      ensures checkpoints == old(checkpoints) - {f}
      ensures singles == old(singles) + (if ok then {f} else {})
      ensures singleCode == old(singleCode) + LivePys(e, if ok then {f} else {})
    {
      checkpoints := checkpoints - {f};
      ok := AdmitSingle(e, f);
    }

    /** set_muted of the store, row by row. */
    method SetMuted(g: Gid, names: set<Name>, muted: bool)
      requires g in roster
      modifies `roster
      ensures roster == old(roster)[g := Flagged(old(roster[g]), names, muted)]
    {
      var ms := roster[g];
      var i := 0;
      while i < |ms|
        invariant 0 <= i <= |ms| == |old(roster[g])|
        invariant forall j :: 0 <= j < |ms| ==> ms[j] == (if j < i then Flagged(old(roster[g]), names, muted)[j] else old(roster[g])[j])
      {
        if ms[i].factor in names {
          ms := ms[i := ms[i].(muted := muted)];
        }
        i := i + 1;
      }
      assert ms == Flagged(old(roster[g]), names, muted);
      roster := roster[g := ms];
    }

    /** mute_legs: the only edit a group.xml ever gets, leg by leg in place; returns the legs it flipped, in leg order. */
    static method MuteLegs(legs: seq<Leg>, names: set<Name>, mute: bool) returns (edited: seq<Leg>, flipped: seq<Name>)
      ensures edited == Dumping(legs, names, !mute)
      ensures LegIds(edited) == LegIds(legs)
      ensures forall f :: f in flipped <==> f in names && f in LegIds(legs)
    {
      edited, flipped := legs, [];
      var i := 0;
      while i < |legs|
        invariant 0 <= i <= |legs| == |edited|
        invariant forall j :: 0 <= j < |legs| ==> edited[j] == (if j < i then Dumping(legs, names, !mute)[j] else legs[j])
        invariant forall f :: f in flipped <==> f in names && f in LegIds(legs)[..i]
      {
        assert LegIds(legs)[..i + 1] == LegIds(legs)[..i] + [LegIds(legs)[i]];
        if edited[i].id in names {
          flipped := flipped + [edited[i].id];
          edited := edited[i := edited[i].(dump := !mute)];
        }
        i := i + 1;
      }
      assert edited == Dumping(legs, names, !mute);
      assert LegIds(legs)[..|legs|] == LegIds(legs);
    }

    /** One more, in terms of what the admissions started from. */
    method AdmitNext(e: Env, f: Name, ghost before: set<Name>, ghost code: map<Name, Pys>, ghost done: set<Name>) returns (ok: bool)
      requires singles == before + done && singleCode == code + LivePys(e, done)
      modifies `singles, `singleCode
      ensures ok == HasXml(e, f)
      ensures ok ==> singles == before + (done + {f}) && singleCode == code + LivePys(e, done + {f})
    {
      hide LivePys, HasXml;
      CodePlus(code, e, done, {f});
      ok := AdmitSingle(e, f);
    }

    /** One by one in some order: admit every factor of `todo`. */
    method AdmitAll(e: Env, todo: set<Name>) returns (ok: bool)
      modifies `singles, `singleCode
      ensures ok == (forall f <- todo :: HasXml(e, f))
      ensures ok ==> singles == old(singles) + todo && singleCode == old(singleCode) + LivePys(e, todo)
    {
      hide LivePys, HasXml;
      var left := todo;
      ghost var done: set<Name> := {};
      NothingLive(singleCode, e);
      while left != {}
        invariant left + done == todo && left !! done
        invariant forall f <- done :: HasXml(e, f)
        invariant singles == old(singles) + done
        invariant singleCode == old(singleCode) + LivePys(e, done)
        decreases |left|
      {
        var f :| f in left;
        ok := AdmitNext(e, f, old(singles), old(singleCode), done);
        if !ok {
          return false;
        }
        left, done := left - {f}, done + {f};
      }
      ok := true;
    }

    /** The flags of one group, in the table and in its group.xml, when there is anything to change. */
    method EditFlags(g: Gid, mute: set<Name>, unmute: set<Name>)
      requires g in roster && g in xml
      modifies `roster, `xml
      ensures roster == old(roster)[g := Flagged(Flagged(old(roster[g]), mute, true), unmute, false)]
      ensures xml == old(xml)[g := Dumping(Dumping(old(xml[g]), mute, false), unmute, true)]
    {
      var legs, flipped := xml[g], [];
      NoEdit(roster[g], legs, true);
      NoEdit(roster[g], legs, false);
      if mute != {} {
        SetMuted(g, mute, true);
        legs, flipped := MuteLegs(legs, mute, true);
      }
      NoEdit(roster[g], legs, false);
      NoEdit(roster[g], legs, true);
      if unmute != {} {
        SetMuted(g, unmute, false);
        legs, flipped := MuteLegs(legs, unmute, false);
      }
      if mute != {} || unmute != {} {
        xml := xml[g := legs];
      }
    }

    /** One group of sync's loop: demotions, returns, then the flags in the table and in group.xml. */
    method SyncGroup(e: Env, g: Gid) returns (corrupted: bool, ok: bool)
      requires g in roster && Distinct(roster[g])
      modifies `singles, `singleCode, `roster, `xml
      ensures corrupted == !Healthy(old(View()), g)
      ensures corrupted ==> ok && View() == old(View())
      ensures !corrupted ==> ok == (forall f <- Demoted(old(View()), e, [g]) :: HasXml(e, f))
      ensures ok && !corrupted ==>
                var l := old(View());
                && roster == l.roster[g := SyncedRoster(l, e, g)] && xml == l.xml[g := SyncedLegs(l, e, g)]
                && singles == (l.singles + Demoted(l, e, [g])) - Returning(l, e, [g])
                && singleCode == l.singleCode + LivePys(e, Demoted(l, e, [g]))
    {
      if g !in xml || LegIds(xml[g]) != Factors(roster[g]) {
        return true, true;
      }
      SetsOfGroup(View(), e, g);
      EditsMakeSynced(View(), e, g);
      var drifted, desired, muted := DriftedIn(View(), e, g), DesiredIn(View(), e, g), MutedIn(View(), g);
      var toMute, toUnmute := desired - muted, (muted - desired) * e.active;
      ok := AdmitAll(e, drifted - singles);
      if !ok {
        return false, false;
      }
      singles := singles - toUnmute * singles;
      EditFlags(g, toMute, toUnmute);
      corrupted := false;
    }

    /** The next group of the loop, in terms of what it started from. */
    method SyncNext(e: Env, ghost l: Line, k: nat) returns (bad: bool, fine: bool)
      requires Valid(l) && k < |l.gids| && Reached(l, e, k, View())
      modifies `singles, `singleCode, `roster, `xml
      ensures bad == !Healthy(l, l.gids[k])
      ensures fine == (forall f <- Demoted(l, e, [l.gids[k]]) :: HasXml(e, f))
      ensures fine ==> Reached(l, e, k + 1, View())
    {
      NextGroup(l, e, k, View());
      bad, fine := SyncGroup(e, gids[k]);
    }

    /** The groups, in gid order. */
    method SyncAllGroups(e: Env) returns (ok: bool, corrupted: seq<Gid>)
      requires Valid(View())
      modifies `singles, `singleCode, `roster, `xml
      ensures ok == (forall f <- Demoted(old(View()), e, gids) :: HasXml(e, f))
      ensures ok ==> corrupted == Skipped(old(View()), gids)
      ensures ok ==> Reached(old(View()), e, |gids|, View())
    {
      hide Reached, Healthy, HasXml, Valid;
      ghost var l := View();
      corrupted := [];
      var k := 0;
      StartOfPass(l, e);
      while k < |gids|
        invariant 0 <= k <= |gids|
        invariant corrupted == Skipped(l, gids[..k])
        invariant Reached(l, e, k, View())
        invariant forall f <- Demoted(l, e, gids[..k]) :: HasXml(e, f)
      {
        DemotedMore(l, e, k);
        assert gids[..k + 1][..k] == gids[..k];
        var bad, fine := SyncNext(e, l, k);
        if !fine {
          return false, corrupted;
        }
        if bad {
          corrupted := corrupted + [gids[k]];
        }
        k := k + 1;
      }
      assert gids[..|gids|] == gids;
      ok := true;
    }

    /** One registered single: out when not active, refrozen when its code drifted. */
    method ConvergeSingle(e: Env, f: Name) returns (ok: bool)
      requires f in singles
      modifies `singles, `singleCode, `checkpoints
      ensures ok == (DriftedSingle(old(View()), e, f) ==> HasXml(e, f))
      ensures singles == old(singles) - ({f} - e.active)
      ensures var refrozen := if DriftedSingle(old(View()), e, f) then {f} else {};
              ok ==> singleCode == old(singleCode) + LivePys(e, refrozen) && checkpoints == old(checkpoints) - refrozen
    {
      assert LivePys(e, {}) == map[];
      ok := true;
      if f !in e.active {
        singles := singles - {f};
      } else if CodeDrifted(SingleCodeOf(View(), f), LiveOf(e, f)) {
        ok := RefreshSingle(e, f);
      }
    }

    /** One turn of the loop, in terms of what it started from. */
    method ConvergeNext(e: Env, ghost l: Line, ghost done: set<Name>, f: Name) returns (ok: bool)
      requires Converged(l, View(), e, done) && f in singles && f in l.singles && f !in done
      modifies `singles, `singleCode, `checkpoints
      ensures ok == (DriftedSingle(l, e, f) ==> HasXml(e, f))
      ensures ok ==> Converged(l, View(), e, done + {f})
      ensures old(singles) - {f} <= singles
    {
      ghost var v := View();
      NextSingle(l, v, e, done, f);
      ok := ConvergeSingle(e, f);
      if ok {
        ConvergedStep(l, v, View(), e, done, f);
      }
    }

    method ConvergeSingles(e: Env) returns (ok: bool)
      modifies `singles, `singleCode, `checkpoints
      ensures ok == (forall f <- DriftedSingles(old(View()), e) :: HasXml(e, f))
      ensures ok ==> Converged(old(View()), View(), e, old(singles))
    {
      hide Converged, HasXml;
      ghost var l := View();
      var left := singles;
      ConvergedEnds(l, l, e);
      assert l.singles - left == {};
      while left != {}
        invariant left <= l.singles && left <= singles
        invariant Converged(l, View(), e, l.singles - left)
        decreases |left|
      {
        var f :| f in left;
        ok := ConvergeNext(e, l, l.singles - left, f);
        if !ok {
          return;
        }
        assert l.singles - (left - {f}) == (l.singles - left) + {f};
        left := left - {f};
      }
      assert l.singles - left == l.singles;
      ConvergedEnds(l, View(), e);
      ok := true;
    }

    /** sync_groups. It ends, rather than exit half-way, exactly when everything it has to freeze has an XML; then the
        line is what the closed form says, and what it reports is right. */
    method Sync(e: Env) returns (ok: bool, corrupted: seq<Gid>, pending: set<Name>)
      requires Valid(View())
      modifies `singles, `singleCode, `roster, `xml, `checkpoints
      ensures ok == Completes(old(View()), e)
      ensures ok ==> View() == Synced(old(View()), e)
      ensures ok ==> corrupted == Skipped(old(View()), gids) && pending == Pending(View(), e)
    {
      hide Reached, Converged, Completes, Synced, Skipped, Pending;
      ghost var l := View();
      pending := {};
      ok, corrupted := SyncAllGroups(e);
      CompletesInTwoParts(l, e);
      if !ok {
        return;
      }
      ghost var m := View();
      var registered := singles;
      AllGroupsReached(l, m, e);
      ok := ConvergeSingles(e);
      if ok {
        ConvergedEnds(m, View(), e);
        PassIsSynced(l, m, View(), e);
        pending := set f | f in e.active && !InSomeGroup(View(), f) && f !in registered;
        PendingOf(m.singles, View(), e);
      }
    }

    /** One healthy group of the pre-check before a run. */
    method PrecheckGroup(g: Gid, broken: set<(Gid, Name)>)
      requires g in roster && Distinct(roster[g]) && Healthy(View(), g)
      modifies `roster, `xml
      ensures roster == old(roster)[g := PrecheckedRoster(old(View()), g, broken)]
      ensures xml == old(xml)[g := PrecheckedLegs(old(View()), g, broken)]
      ensures |xml[g]| == |roster[g]| == |old(xml)[g]| == |old(roster)[g]|
      ensures forall i :: 0 <= i < |xml[g]| ==>
                xml[g][i].id == old(xml)[g][i].id && (xml[g][i].dump <==> old(xml)[g][i].dump && (g, old(xml)[g][i].id) !in broken)
      ensures forall i :: 0 <= i < |roster[g]| ==>
                && roster[g][i].factor == old(roster)[g][i].factor
                && (roster[g][i].muted <==> old(roster)[g][i].muted || (old(xml)[g][i].dump && (g, old(roster)[g][i].factor) in broken))
      ensures forall h :: h != g ==> (h in roster <==> h in old(roster)) && (h in old(roster) ==> roster[h] == old(roster)[h])
      ensures forall h :: h != g ==> (h in xml <==> h in old(xml)) && (h in old(xml) ==> xml[h] == old(xml)[h])
    {
      HealthyExactly(View(), g);
      var bad: set<Name> := {};
      var i := 0;
      BadAmongStep(View(), g, 0, broken);
      while i < |xml[g]|
        invariant roster == old(roster) && xml == old(xml) && 0 <= i <= |xml[g]|
        invariant bad == BadAmong(View(), g, i, broken)
      {
        BadAmongStep(View(), g, i, broken);
        if xml[g][i].dump && (g, xml[g][i].id) in broken {
          bad := bad + {xml[g][i].id};
        }
        i := i + 1;
      }
      PrecheckEdits(View(), g, broken);
      EditFlags(g, bad, {});
    }

    /** The frozen copies of a new group. */
    method Freeze(e: Env, g: Gid, members: seq<Name>)
      requires forall f <- members :: f in e.live
      modifies `frozen
      ensures frozen == WithCopies(old(frozen), e, g, members)
    {
      var i := 0;
      while i < |members|
        invariant 0 <= i <= |members|
        invariant frozen == WithCopies(old(frozen), e, g, members[..i])
      {
        frozen := frozen[(g, members[i]) := e.live[members[i]].py];
        assert members[..i + 1][..i] == members[..i];
        i := i + 1;
      }
      assert members[..|members|] == members;
    }

    /** Members of a new group stop being singles. */
    method Unregister(members: seq<Name>)
      modifies `singles
      ensures singles == old(singles) - set f | f in members
    {
      var i := 0;
      while i < |members|
        invariant 0 <= i <= |members|
        invariant singles == old(singles) - set f | f in members[..i]
      {
        singles := singles - {members[i]};
        assert members[..i + 1] == members[..i] + [members[i]];
        i := i + 1;
      }
      assert members[..|members|] == members;
    }

    /** One group of the bootstrap's build loop: frozen copies, group.xml, roster; then its members stop being singles. The
        roster's primary key refuses a repeated member, which ends the group's turn. */
    method SealGroup(e: Env, g: Gid, members: seq<Name>) returns (ok: bool)
      requires forall f <- members :: f in e.live
      modifies `gids, `roster, `xml, `frozen, `singles
      ensures ok == !Repeats(members)
      ensures View() == if ok then Sealed(old(View()), e, g, members) else Wrecked(old(View()), e, g, members)
    {
      Freeze(e, g, members);
      xml := xml[g := FreshLegs(members)];
      if Repeats(members) {
        return false;
      }
      gids := gids + [g];
      roster := roster[g := FreshRoster(members)];
      Unregister(members);
      ok := true;
    }
  }
}
