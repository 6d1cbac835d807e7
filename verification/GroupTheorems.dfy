// One pass of the reconciliation converges and is idempotent; what every run of the production line keeps.
module GroupTheorems {
  import opened Prelude
  import opened Groups

  /** A factor of a group is demoted or returns by what its own group says. */
  lemma GroupDecides(l: Line, e: Env, g: Gid, i: nat)
    requires Valid(l) && g in l.gids && i < |RosterOf(l, g)|
    ensures var m := RosterOf(l, g)[i];
            && (m.factor in Demoted(l, e, l.gids) <==> Healthy(l, g) && Drifts(l, e, g, m.factor) && m.factor !in l.singles)
            && (m.factor in Returning(l, e, l.gids) <==> Healthy(l, g) && m.muted && !WantsMute(l, e, g, m.factor))
  {
    var f := RosterOf(l, g)[i].factor;
    if f in Demoted(l, e, l.gids) {
      var h, j :| h in l.gids && Healthy(l, h) && 0 <= j < |RosterOf(l, h)| && Drifts(l, e, h, RosterOf(l, h)[j].factor)
                  && RosterOf(l, h)[j].factor !in l.singles && RosterOf(l, h)[j].factor == f;
    }
    if f in Returning(l, e, l.gids) {
      var h, j :| h in l.gids && Healthy(l, h) && 0 <= j < |RosterOf(l, h)| && RosterOf(l, h)[j].muted
                  && !WantsMute(l, e, h, RosterOf(l, h)[j].factor) && RosterOf(l, h)[j].factor == f;
    }
  }

  /** In every healthy group the muted set becomes exactly the factors that are not active or whose frozen copy drifted. */
  lemma SyncMutes(l: Line, e: Env, g: Gid, i: nat)
    requires Valid(l) && g in l.gids && Healthy(l, g) && i < |RosterOf(l, g)|
    ensures var m := RosterOf(Synced(l, e), g)[i];
            m.muted <==> m.factor !in e.active || CodeDrifted(FrozenOf(l, g, m.factor), LiveOf(e, m.factor))
  {
    SyncedAt(l, e, g, i);
  }

  lemma SyncSingle(l: Line, e: Env, f: Name)
    requires Completes(l, e) && f in Synced(l, e).singles
    ensures f in e.active && LiveOf(e, f) == Some(SingleCodeOf(Synced(l, e), f))
  {
    var demoted, refrozen := Demoted(l, e, l.gids), Refrozen(l, e);
    if f in demoted + refrozen {
      assert HasXml(e, f);
      assert f in LivePys(e, demoted) || f in LivePys(e, refrozen);
    } else {
      DriftIsDifference(SingleCodeOf(l, f), LiveOf(e, f));
    }
  }

  /** After a pass every registered single is active and its frozen code is the live code. */
  lemma SyncSingles(l: Line, e: Env)
    requires Completes(l, e)
    ensures forall f <- Synced(l, e).singles :: f in e.active && LiveOf(e, f) == Some(SingleCodeOf(Synced(l, e), f))
  {
    forall f | f in Synced(l, e).singles
      ensures f in e.active && LiveOf(e, f) == Some(SingleCodeOf(Synced(l, e), f))
    {
      SyncSingle(l, e, f);
    }
  }

  lemma SyncOneHome(l: Line, e: Env)
    requires Valid(l) && OneHome(l)
    ensures OneHome(Synced(l, e))
  {
    var l' := Synced(l, e);
    forall g, i | g in l'.gids && 0 <= i < |RosterOf(l', g)| && !RosterOf(l', g)[i].muted
      ensures RosterOf(l', g)[i].factor !in l'.singles
    {
      SyncKeepsOrder(l, e, g);
      assert |Factors(RosterOf(l', g))| == |Factors(RosterOf(l, g))|;
      SyncedAt(l, e, g, i);
      GroupDecides(l, e, g, i);
    }
  }

  lemma SyncFlagsAgree(l: Line, e: Env)
    requires Valid(l) && FlagsAgree(l)
    ensures FlagsAgree(Synced(l, e))
  {
    var l' := Synced(l, e);
    forall g, i | g in l'.gids && Healthy(l', g) && 0 <= i < |RosterOf(l', g)|
      ensures LegAt(l', g, i).dump == !RosterOf(l', g)[i].muted
    {
      SyncKeepsOrder(l, e, g);
      assert |Factors(RosterOf(l', g))| == |Factors(RosterOf(l, g))|;
      SyncedAt(l, e, g, i);
    }
  }

  // ------------------------------------------------------------------ idempotence

  lemma SecondPassWantsNothing(l: Line, e: Env)
    requires Valid(l) && Completes(l, e)
    ensures var l' := Synced(l, e);
            Demoted(l', e, l.gids) == {} && Returning(l', e, l.gids) == {} && Refrozen(l', e) == {}
  {
    var l' := Synced(l, e);
    forall g, i | g in l.gids && Healthy(l', g) && 0 <= i < |RosterOf(l', g)|
      ensures var m := RosterOf(l', g)[i];
              && !(Drifts(l', e, g, m.factor) && m.factor !in l'.singles)
              && m.muted == WantsMute(l', e, g, m.factor)
    {
      SyncKeepsOrder(l, e, g);
      assert |Factors(RosterOf(l', g))| == |Factors(RosterOf(l, g))|;
      SyncedAt(l, e, g, i);
      GroupDecides(l, e, g, i);
    }
    SyncSingles(l, e);
    forall f | f in Refrozen(l', e)
      ensures false
    {
      DriftIsDifference(SingleCodeOf(l', f), LiveOf(e, f));
    }
  }

  lemma SecondRoster(l: Line, e: Env, g: Gid)
    requires Valid(l) && g in l.gids && Valid(Synced(l, e))
    ensures RosterOf(Synced(Synced(l, e), e), g) == RosterOf(Synced(l, e), g)
  {
    var l' := Synced(l, e);
    SyncKeepsOrder(l, e, g);
    SyncKeepsOrder(l', e, g);
    var l'' := Synced(l', e);
    assert |Factors(RosterOf(l'', g))| == |Factors(RosterOf(l', g))| == |Factors(RosterOf(l, g))|;
    forall i | 0 <= i < |RosterOf(l', g)|
      ensures RosterOf(l'', g)[i] == RosterOf(l', g)[i]
    {
      SyncedAt(l, e, g, i);
      SyncedAt(l', e, g, i);
    }
  }

  lemma SecondLegs(l: Line, e: Env, g: Gid)
    requires Valid(l) && g in l.gids && Valid(Synced(l, e)) && g in l.xml
    ensures g in Synced(l, e).xml && g in Synced(Synced(l, e), e).xml
    ensures Synced(Synced(l, e), e).xml[g] == Synced(l, e).xml[g]
  {
    var l' := Synced(l, e);
    SyncKeepsOrder(l, e, g);
    SyncKeepsOrder(l', e, g);
    if Healthy(l', g) {
      assert |Factors(RosterOf(l', g))| == |LegIds(l'.xml[g])| == |Factors(RosterOf(l, g))|;
      var xs, ms := SyncedLegs(l', e, g), RosterOf(l', g);
      forall i | 0 <= i < |xs|
        ensures xs[i] == l'.xml[g][i]
      {
        SyncedAt(l, e, g, i);
      }
      assert xs == l'.xml[g];
    }
  }

  /** A second pass over the same ACTIVE set and sources changes nothing. */
  lemma SyncIdempotent(l: Line, e: Env)
    requires Valid(l) && Completes(l, e)
    ensures Synced(Synced(l, e), e) == Synced(l, e)
  {
    var l' := Synced(l, e);
    var l'' := Synced(l', e);
    SecondPassWantsNothing(l, e);
    SyncKeepsValid(l, e);
    forall g | g in l'.roster
      ensures l''.roster[g] == l'.roster[g]
    {
      if g in l.gids {
        SecondRoster(l, e, g);
      }
    }
    forall g | g in l'.xml
      ensures l''.xml[g] == l'.xml[g]
    {
      if g in l.gids {
        SecondLegs(l, e, g);
      }
    }
    SamePass(l', e);
  }

  lemma SamePass(l: Line, e: Env)
    requires Synced(l, e).roster.Keys == l.roster.Keys && forall g <- l.roster :: Synced(l, e).roster[g] == l.roster[g]
    requires Synced(l, e).xml.Keys == l.xml.Keys && forall g <- l.xml :: Synced(l, e).xml[g] == l.xml[g]
    requires Demoted(l, e, l.gids) == {} && Returning(l, e, l.gids) == {} && Refrozen(l, e) == {} && l.singles <= e.active
    ensures Synced(l, e) == l
  {
    assert LivePys(e, {}) == map[];
    assert Synced(l, e).roster == l.roster && Synced(l, e).xml == l.xml;
    assert Synced(l, e).singles == l.singles;
  }

  // ------------------------------------------------------------------ a pass, row by row

  /** The group has its group.xml, with one leg per roster row and under the same names. */
  lemma HealthyExactly(l: Line, g: Gid)
    ensures Healthy(l, g) <==> g in l.xml && |l.xml[g]| == |RosterOf(l, g)| && forall i :: 0 <= i < |l.xml[g]| ==> l.xml[g][i].id == RosterOf(l, g)[i].factor
  {
    if g in l.xml {
      var ids, names := LegIds(l.xml[g]), Factors(RosterOf(l, g));
      if ids == names {
        assert |ids| == |names| && forall i :: 0 <= i < |ids| ==> ids[i] == names[i];
      }
    }
  }

  /** The live directory is there, and the group's frozen copy is what it holds. */
  predicate CopyIsLive(l: Line, e: Env, g: Gid, f: Name) {
    f in e.live && e.live[f].py == if (g, f) in l.frozen then l.frozen[(g, f)] else map[]
  }

  lemma WantsMuteExactly(l: Line, e: Env, g: Gid, f: Name)
    ensures WantsMute(l, e, g, f) <==> f !in e.active || !CopyIsLive(l, e, g, f)
    ensures Drifts(l, e, g, f) <==> f in e.active && !CopyIsLive(l, e, g, f)
  {
    DriftIsDifference(FrozenOf(l, g, f), LiveOf(e, f));
  }

  /** A healthy group: each row is muted unless its factor is active with its copy live; a leg is edited only when its row's flag
      changes. A group that is not healthy stays as it is. */
  lemma SyncRow(l: Line, e: Env, g: Gid, i: nat)
    requires Valid(l) && g in l.gids && i < |l.roster[g]|
    ensures var l', m := Synced(l, e), l.roster[g][i];
            && g in l'.roster && |l'.roster[g]| == |l.roster[g]|
            && (!Healthy(l, g) ==> l'.roster[g][i] == m && (g in l.xml <==> g in l'.xml) && (g in l.xml ==> l'.xml[g] == l.xml[g]))
            && (Healthy(l, g) ==>
                  var mute := !(m.factor in e.active && CopyIsLive(l, e, g, m.factor));
                  && l'.roster[g][i] == Member(m.factor, mute)
                  && g in l.xml && g in l'.xml && |l'.xml[g]| == |l.xml[g]| == |l.roster[g]| && l.xml[g][i].id == m.factor
                  && l'.xml[g][i] == if mute == m.muted then l.xml[g][i] else Leg(m.factor, !mute))
  {
    SyncedAt(l, e, g, i);
    HealthyExactly(l, g);
    WantsMuteExactly(l, e, g, l.roster[g][i].factor);
    SyncKeepsOrder(l, e, g);
    if g in l.xml {
      assert |LegIds(Synced(l, e).xml[g])| == |LegIds(l.xml[g])|;
    }
  }

  /** In some healthy group the factor's copy is out of date although it is active. */
  ghost predicate IsDemoted(l: Line, e: Env, f: Name) {
    f in e.active && exists g :: g in l.gids && Healthy(l, g) && f in Factors(RosterOf(l, g)) && !CopyIsLive(l, e, g, f)
  }

  /** In some healthy group the factor is muted although it is active and its copy up to date. */
  ghost predicate IsReturning(l: Line, e: Env, f: Name) {
    f in e.active && exists g, i :: g in l.gids && Healthy(l, g) && 0 <= i < |RosterOf(l, g)| && RosterOf(l, g)[i] == Member(f, true) && CopyIsLive(l, e, g, f)
  }

  /** A registered single that stays one and whose code is out of date. */
  ghost predicate IsRefrozen(l: Line, e: Env, f: Name) {
    f in l.singles && f in e.active && !IsReturning(l, e, f)
    && !(f in e.live && e.live[f].py == if f in l.singleCode then l.singleCode[f] else map[])
  }

  lemma MovesExactly(l: Line, e: Env, f: Name)
    ensures f in Demoted(l, e, l.gids) <==> IsDemoted(l, e, f) && f !in l.singles
    ensures f in Returning(l, e, l.gids) <==> IsReturning(l, e, f)
    ensures f in Refrozen(l, e) <==> IsRefrozen(l, e, f)
  {
    forall g
      ensures WantsMute(l, e, g, f) <==> f !in e.active || !CopyIsLive(l, e, g, f)
      ensures Drifts(l, e, g, f) <==> f in e.active && !CopyIsLive(l, e, g, f)
    {
      WantsMuteExactly(l, e, g, f);
    }
    DriftIsDifference(SingleCodeOf(l, f), LiveOf(e, f));
    if IsDemoted(l, e, f) && f !in l.singles {
      var g :| g in l.gids && Healthy(l, g) && f in Factors(RosterOf(l, g)) && !CopyIsLive(l, e, g, f);
      var i :| 0 <= i < |RosterOf(l, g)| && Factors(RosterOf(l, g))[i] == f;
    }
    if f in Demoted(l, e, l.gids) {
      var g, i :| g in l.gids && Healthy(l, g) && 0 <= i < |RosterOf(l, g)| && Drifts(l, e, g, RosterOf(l, g)[i].factor)
                  && RosterOf(l, g)[i].factor !in l.singles && RosterOf(l, g)[i].factor == f;
      assert Factors(RosterOf(l, g))[i] == f;
    }
  }

  /** Who is a single afterwards, with which code and checkpoint: active singles stay unless they return to their group, and
      demoted factors join them; code is frozen anew for the demoted and for those out of date, who also lose their checkpoint. */
  lemma SyncSinglesExactly(l: Line, e: Env, f: Name)
    ensures var l' := Synced(l, e);
            && (f in l'.singles <==> f in e.active && !IsReturning(l, e, f) && (f in l.singles || IsDemoted(l, e, f)))
            && (f in l'.checkpoints <==> f in l.checkpoints && !IsRefrozen(l, e, f))
            && (if f in e.live && (IsRefrozen(l, e, f) || (IsDemoted(l, e, f) && f !in l.singles))
                then f in l'.singleCode && l'.singleCode[f] == e.live[f].py
                else (f in l'.singleCode <==> f in l.singleCode) && (f in l.singleCode ==> l'.singleCode[f] == l.singleCode[f]))
            && l'.gids == l.gids && l'.frozen == l.frozen
  {
    MovesExactly(l, e, f);
    hide Demoted, Returning, IsDemoted, IsReturning;
    assert IsRefrozen(l, e, f) ==> f in l.singles;
    LivePysOf(e, Demoted(l, e, l.gids), f);
    LivePysOf(e, Refrozen(l, e), f);
  }

  lemma LivePysOf(e: Env, fs: set<Name>, f: Name)
    ensures f in LivePys(e, fs) <==> f in fs && f in e.live
    ensures f in fs && f in e.live ==> LivePys(e, fs)[f] == e.live[f].py
  {
  }

  /** A pass completes when all that it has to freeze has an XML. */
  lemma CompletesExactly(l: Line, e: Env)
    ensures Completes(l, e) <==> forall f :: (IsDemoted(l, e, f) && f !in l.singles) || IsRefrozen(l, e, f) ==> f in e.live && e.live[f].hasXml
  {
    forall f
      ensures f in Demoted(l, e, l.gids) <==> IsDemoted(l, e, f) && f !in l.singles
      ensures f in Refrozen(l, e) <==> IsRefrozen(l, e, f)
    {
      MovesExactly(l, e, f);
    }
    hide IsDemoted, IsRefrozen, Demoted, Refrozen;
    assert forall f :: f in Demoted(l, e, l.gids) + Refrozen(l, e) <==> f in Demoted(l, e, l.gids) || f in Refrozen(l, e);
    if forall f :: (IsDemoted(l, e, f) && f !in l.singles) || IsRefrozen(l, e, f) ==> f in e.live && e.live[f].hasXml {
      forall f | f in Demoted(l, e, l.gids) + Refrozen(l, e)
        ensures HasXml(e, f)
      {
        assert (IsDemoted(l, e, f) && f !in l.singles) || IsRefrozen(l, e, f);
      }
    }
  }

  /** Pending: active, no single, and in no group. */
  lemma PendingExactly(l: Line, e: Env, f: Name)
    ensures f in Pending(l, e) <==> f in e.active && f !in l.singles &&
                                    forall g <- l.gids :: forall i :: 0 <= i < |RosterOf(l, g)| ==> RosterOf(l, g)[i].factor != f
  {
    if InSomeGroup(l, f) {
      var g :| g in l.gids && f in Factors(RosterOf(l, g));
      var i :| 0 <= i < |RosterOf(l, g)| && Factors(RosterOf(l, g))[i] == f;
    }
    if g, i :| g in l.gids && 0 <= i < |RosterOf(l, g)| && RosterOf(l, g)[i].factor == f {
      assert Factors(RosterOf(l, g))[i] == f;
    }
  }

  // ------------------------------------------------------------------ accounting

  function Unmuted(l: Line): set<Name> {
    set g, i | g in l.gids && 0 <= i < |RosterOf(l, g)| && !RosterOf(l, g)[i].muted :: RosterOf(l, g)[i].factor
  }

  /** Right after a pass in which no group was skipped, the delay-1 ACTIVE set is the disjoint union of the unmuted legs,
      the registered singles and the pending factors. */
  lemma SyncPartitionsActive(l: Line, e: Env)
    requires Valid(l) && OneHome(l) && forall g <- l.gids :: Healthy(l, g)
    ensures var l' := Synced(l, e);
            && e.active == Unmuted(l') + l'.singles + Pending(l', e)
            && Unmuted(l') !! l'.singles && Unmuted(l') !! Pending(l', e) && l'.singles !! Pending(l', e)
  {
    var l' := Synced(l, e);
    SyncOneHome(l, e);
    forall g, i | g in l.gids && 0 <= i < |RosterOf(l', g)|
      ensures var m := RosterOf(l', g)[i];
              && (!m.muted ==> m.factor in e.active)
              && (m.factor in e.active && m.muted ==> m.factor in l'.singles)
              && InSomeGroup(l', m.factor)
    {
      SyncKeepsOrder(l, e, g);
      assert |Factors(RosterOf(l', g))| == |Factors(RosterOf(l, g))|;
      SyncedAt(l, e, g, i);
      GroupDecides(l, e, g, i);
      assert Factors(RosterOf(l', g))[i] == RosterOf(l', g)[i].factor;
    }
    forall f | f in e.active && f !in l'.singles && f !in Pending(l', e)
      ensures f in Unmuted(l')
    {
      var g :| g in l'.gids && f in Factors(RosterOf(l', g));
      var i :| 0 <= i < |RosterOf(l', g)| && Factors(RosterOf(l', g))[i] == f;
      assert !RosterOf(l', g)[i].muted;
    }
  }

  // ------------------------------------------------------------------ runs

  /** The pre-check before a run: broken legs that dump are muted, in the table and in group.xml (groups.py:323-346). */
  function Prechecked(l: Line, broken: set<(Gid, Name)>): Line {
    l.(roster := map g | g in l.roster :: if g in l.gids && Healthy(l, g) then PrecheckedRoster(l, g, broken) else l.roster[g],
       xml := map g | g in l.xml :: if g in l.gids && Healthy(l, g) then PrecheckedLegs(l, g, broken) else l.xml[g])
  }

  predicate Bad(l: Line, g: Gid, i: nat, broken: set<(Gid, Name)>) {
    LegAt(l, g, i).dump && (g, LegAt(l, g, i).id) in broken
  }

  function PrecheckedRoster(l: Line, g: Gid, broken: set<(Gid, Name)>): (ms: seq<Member>)
    ensures |ms| == |RosterOf(l, g)|
  {
    var ms := RosterOf(l, g);
    seq(|ms|, i requires 0 <= i < |ms| => if Bad(l, g, i, broken) then ms[i].(muted := true) else ms[i])
  }

  function PrecheckedLegs(l: Line, g: Gid, broken: set<(Gid, Name)>): (legs: seq<Leg>)
    requires g in l.xml
    ensures |legs| == |l.xml[g]|
  {
    var xs := l.xml[g];
    seq(|xs|, i requires 0 <= i < |xs| => if Bad(l, g, i, broken) then xs[i].(dump := false) else xs[i])
  }

  /** The pre-check of a healthy group: a leg dumps afterwards exactly when it did and is not broken, and a row is muted exactly
      when it was, or its leg dumped and is broken; nothing else changes, and other groups stay. */
  lemma PrecheckExactly(l: Line, g: Gid, i: nat, broken: set<(Gid, Name)>)
    requires Valid(l) && g in l.gids && i < |l.roster[g]|
    ensures var l', m := Prechecked(l, broken), l.roster[g][i];
            && g in l'.roster && |l'.roster[g]| == |l.roster[g]| && (g in l'.xml <==> g in l.xml)
            && (!Healthy(l, g) ==> l'.roster[g][i] == m && (g in l.xml ==> l'.xml[g] == l.xml[g]))
            && (Healthy(l, g) ==>
                  && g in l.xml && |l'.xml[g]| == |l.xml[g]| == |l.roster[g]|
                  && l'.xml[g][i] == Leg(m.factor, l.xml[g][i].dump && (g, m.factor) !in broken)
                  && l'.roster[g][i] == Member(m.factor, m.muted || (l.xml[g][i].dump && (g, m.factor) in broken)))
    ensures var l' := Prechecked(l, broken);
            l'.gids == l.gids && l'.frozen == l.frozen && l'.singles == l.singles && l'.singleCode == l.singleCode && l'.checkpoints == l.checkpoints
  {
    HealthyExactly(l, g);
  }

  /** A pending factor named by --single-only. */
  function Admitted(l: Line, e: Env, f: Name): Line {
    l.(singles := l.singles + {f}, singleCode := l.singleCode + LivePys(e, {f}))
  }

  /** The factor is a single with the live code; nothing else changes. */
  lemma AdmitExactly(l: Line, e: Env, f: Name)
    ensures var l' := Admitted(l, e, f);
            && l'.singles == l.singles + {f} && l'.singleCode == (if f in e.live then l.singleCode[f := e.live[f].py] else l.singleCode)
            && l'.gids == l.gids && l'.roster == l.roster && l'.xml == l.xml && l'.frozen == l.frozen && l'.checkpoints == l.checkpoints
  {
    assert LivePys(e, {f}) == if f in e.live then map[f := e.live[f].py] else map[];
  }

  function FreshRoster(members: seq<Name>): (ms: seq<Member>)
    ensures |ms| == |members| && forall i :: 0 <= i < |ms| ==> ms[i] == Member(members[i], false)
  {
    seq(|members|, i requires 0 <= i < |members| => Member(members[i], false))
  }

  function FreshLegs(members: seq<Name>): (legs: seq<Leg>)
    ensures |legs| == |members| && forall i :: 0 <= i < |legs| ==> legs[i] == Leg(members[i], true)
  {
    seq(|members|, i requires 0 <= i < |members| => Leg(members[i], true))
  }

  function WithCopies(frozen: map<(Gid, Name), Pys>, e: Env, g: Gid, members: seq<Name>): map<(Gid, Name), Pys> {
    if members == [] then frozen
    else
      var rest, f := WithCopies(frozen, e, g, members[..|members| - 1]), members[|members| - 1];
      if f in e.live then rest[(g, f) := e.live[f].py] else rest
  }

  /** The members' copies are the live code; no other copy changes. */
  lemma {:induction false} CopiesAreLive(frozen: map<(Gid, Name), Pys>, e: Env, g: Gid, members: seq<Name>, h: Gid, f: Name)
    ensures var after := WithCopies(frozen, e, g, members);
            if h == g && f in members && f in e.live then (h, f) in after && after[(h, f)] == e.live[f].py
            else ((h, f) in after <==> (h, f) in frozen) && ((h, f) in frozen ==> after[(h, f)] == frozen[(h, f)])
  {
    if members != [] {
      CopiesAreLive(frozen, e, g, members[..|members| - 1], h, f);
      assert members == members[..|members| - 1] + [members[|members| - 1]];
    }
  }

  /** One group of the bootstrap's build loop: frozen copies, group.xml, roster, and the singles that join it. */
  function Sealed(l: Line, e: Env, g: Gid, members: seq<Name>): Line {
    l.(gids := l.gids + [g],
       roster := l.roster[g := FreshRoster(members)],
       xml := l.xml[g := FreshLegs(members)],
       frozen := WithCopies(l.frozen, e, g, members),
       singles := l.singles - set f | f in members)
  }

  /** The new group: unmuted rows and dumping legs for the members in order; they are no singles any more. */
  lemma SealExactly(l: Line, e: Env, g: Gid, members: seq<Name>, f: Name)
    ensures var l' := Sealed(l, e, g, members);
            && l'.gids == l.gids + [g] && g in l'.roster && g in l'.xml && |l'.roster[g]| == |l'.xml[g]| == |members|
            && (forall i :: 0 <= i < |members| ==> l'.roster[g][i] == Member(members[i], false) && l'.xml[g][i] == Leg(members[i], true))
            && l'.roster == l.roster[g := l'.roster[g]] && l'.xml == l.xml[g := l'.xml[g]]
            && (f in l'.singles <==> f in l.singles && f !in members)
            && l'.singleCode == l.singleCode && l'.checkpoints == l.checkpoints
  {
  }

  predicate Repeats(members: seq<Name>) {
    exists i, j :: 0 <= i < j < |members| && members[i] == members[j]
  }

  /** The same for a group that names a factor twice: the roster's primary key refuses it and the transaction is rolled back,
      after the frozen copies and group.xml have been written. */
  function Wrecked(l: Line, e: Env, g: Gid, members: seq<Name>): Line {
    l.(xml := l.xml[g := FreshLegs(members)], frozen := WithCopies(l.frozen, e, g, members))
  }

  lemma WreckedExactly(l: Line, e: Env, g: Gid, members: seq<Name>)
    ensures var l' := Wrecked(l, e, g, members);
            && l'.gids == l.gids && l'.roster == l.roster && l'.singles == l.singles && l'.singleCode == l.singleCode && l'.checkpoints == l.checkpoints
            && g in l'.xml && |l'.xml[g]| == |members| && (forall i :: 0 <= i < |members| ==> l'.xml[g][i] == Leg(members[i], true))
            && l'.xml == l.xml[g := l'.xml[g]] && l'.frozen == Sealed(l, e, g, members).frozen
  {
  }

  const EMPTY_LINE := Line([], map[], map[], map[], {}, map[], {})

  ghost predicate Sane(l: Line) {
    Valid(l) && OneHome(l) && FlagsAgree(l)
  }

  lemma PrecheckedAt(l: Line, broken: set<(Gid, Name)>, g: Gid)
    requires Valid(l) && g in l.gids
    ensures var l' := Prechecked(l, broken);
            && Factors(RosterOf(l', g)) == Factors(RosterOf(l, g))
            && Healthy(l', g) == Healthy(l, g)
            && forall i :: 0 <= i < |RosterOf(l, g)| ==>
                 var bad := Healthy(l, g) && Bad(l, g, i, broken);
                 && RosterOf(l', g)[i].muted == (bad || RosterOf(l, g)[i].muted)
                 && LegAt(l', g, i) == (if bad then LegAt(l, g, i).(dump := false) else LegAt(l, g, i))
  {
    var l' := Prechecked(l, broken);
    assert |Factors(RosterOf(l', g))| == |Factors(RosterOf(l, g))|;
    if Healthy(l, g) {
      assert |Factors(RosterOf(l, g))| == |LegIds(l.xml[g])|;
      assert LegIds(l'.xml[g]) == LegIds(l.xml[g]);
    }
  }

  lemma PrecheckSane(l: Line, broken: set<(Gid, Name)>)
    requires Sane(l)
    ensures Sane(Prechecked(l, broken))
  {
    var l' := Prechecked(l, broken);
    forall g | g in l.gids
      ensures |RosterOf(l', g)| == |RosterOf(l, g)| && Healthy(l', g) == Healthy(l, g)
      ensures forall i :: 0 <= i < |RosterOf(l, g)| ==> RosterOf(l', g)[i].factor == RosterOf(l, g)[i].factor
      ensures forall i :: 0 <= i < |RosterOf(l, g)| ==>
                (!RosterOf(l', g)[i].muted ==> RosterOf(l, g)[i].factor !in l.singles) &&
                (Healthy(l, g) ==> LegAt(l', g, i).dump == !RosterOf(l', g)[i].muted)
    {
      PrecheckedAt(l, broken, g);
      assert |Factors(RosterOf(l', g))| == |Factors(RosterOf(l, g))|;
      forall i | 0 <= i < |RosterOf(l, g)|
        ensures RosterOf(l', g)[i].factor == RosterOf(l, g)[i].factor
      {
        assert Factors(RosterOf(l', g))[i] == Factors(RosterOf(l, g))[i];
      }
    }
  }

  lemma AdmitSane(l: Line, e: Env, f: Name)
    requires Sane(l) && f in Pending(l, e)
    ensures Sane(Admitted(l, e, f))
  {
    var l' := Admitted(l, e, f);
    forall g, i | g in l.gids && 0 <= i < |RosterOf(l, g)|
      ensures RosterOf(l, g)[i].factor != f
    {
      assert Factors(RosterOf(l, g))[i] == RosterOf(l, g)[i].factor;
    }
    assert forall g :: RosterOf(l', g) == RosterOf(l, g) && Healthy(l', g) == Healthy(l, g);
    assert forall g, i :: LegAt(l', g, i) == LegAt(l, g, i);
  }

  /** A group just sealed is healthy: the next sync does not take it for a corrupted one. */
  lemma SealSane(l: Line, e: Env, g: Gid, members: seq<Name>)
    requires Sane(l) && g !in l.gids && !Repeats(members)
    requires forall i :: 0 <= i < |members| ==> !InSomeGroup(l, members[i])
    ensures Sane(Sealed(l, e, g, members)) && Healthy(Sealed(l, e, g, members), g)
  {
    var l' := Sealed(l, e, g, members);
    assert LegIds(l'.xml[g]) == Factors(RosterOf(l', g));
    forall h | h in l.gids
      ensures h != g && RosterOf(l', h) == RosterOf(l, h) && Healthy(l', h) == Healthy(l, h)
      ensures forall i :: LegAt(l', h, i) == LegAt(l, h, i)
    {
    }
    forall h, i, j | h in l.gids && 0 <= i < |RosterOf(l, h)| && 0 <= j < |members|
      ensures RosterOf(l, h)[i].factor != members[j]
    {
      assert Factors(RosterOf(l, h))[i] == RosterOf(l, h)[i].factor;
    }
  }

  lemma WreckSane(l: Line, e: Env, g: Gid, members: seq<Name>)
    requires Sane(l) && g !in l.gids
    ensures Sane(Wrecked(l, e, g, members))
  {
    var l' := Wrecked(l, e, g, members);
    assert forall h :: RosterOf(l', h) == RosterOf(l, h);
    forall h | h in l.gids
      ensures Healthy(l', h) == Healthy(l, h) && forall i :: LegAt(l', h, i) == LegAt(l, h, i)
    {
      assert h != g;
    }
  }
}
