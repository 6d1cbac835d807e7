// Grouped production (ops/services/produce/groups.py, ops/infra/groups/pg_store.py): what one pass of the
// reconciliation does to rosters, group.xml files and registered singles, and what every run of the line keeps.
module Groups {
  import opened Prelude

  type Name = string
  type Gid = string

  // ------------------------------------------------------------------ state

  /** The .py files of a directory by name. */
  type Pys = map<string, string>

  /** alpha_src/<name>: its .py files and whether it has an XML. */
  datatype Source = Source(py: Pys, hasXml: bool)

  /** One row of produce_group_member; its index in the roster is its ordinal. */
  datatype Member = Member(factor: Name, muted: bool)

  /** One Portfolio/Alpha leg of a group.xml; dump is @dumpAlphaFile. */
  datatype Leg = Leg(id: Name, dump: bool)

  /** xml has no entry for a group whose group.xml is missing; checkpoints: singles that have an archive to resume from. */
  datatype Line = Line(
    gids: seq<Gid>,
    roster: map<Gid, seq<Member>>,
    xml: map<Gid, seq<Leg>>,
    frozen: map<(Gid, Name), Pys>,
    singles: set<Name>,
    singleCode: map<Name, Pys>,
    checkpoints: set<Name>)

  /** The delay-1 ACTIVE set and alpha_src. */
  datatype Env = Env(active: set<Name>, live: map<Name, Source>)

  function FrozenOf(l: Line, g: Gid, f: Name): Pys {
    if (g, f) in l.frozen then l.frozen[(g, f)] else map[]
  }

  function SingleCodeOf(l: Line, f: Name): Pys {
    if f in l.singleCode then l.singleCode[f] else map[]
  }

  function LiveOf(e: Env, f: Name): Option<Pys> {
    if f in e.live then Some(e.live[f].py) else None
  }

  predicate HasXml(e: Env, f: Name) {
    f in e.live && e.live[f].hasXml
  }

  function RosterOf(l: Line, g: Gid): seq<Member> {
    if g in l.roster then l.roster[g] else []
  }

  function Factors(ms: seq<Member>): (names: seq<Name>)
    ensures |names| == |ms| && forall i :: 0 <= i < |ms| ==> names[i] == ms[i].factor
  {
    seq(|ms|, i requires 0 <= i < |ms| => ms[i].factor)
  }

  function LegIds(legs: seq<Leg>): (ids: seq<Name>)
    ensures |ids| == |legs| && forall i :: 0 <= i < |legs| ==> ids[i] == legs[i].id
  {
    seq(|legs|, i requires 0 <= i < |legs| => legs[i].id)
  }

  /** Rosters of active groups are disjoint and free of repetitions (primary keys, and the assumption of membership). */
  ghost predicate Valid(l: Line) {
    && (forall i, j :: 0 <= i < j < |l.gids| ==> l.gids[i] != l.gids[j])
    && (forall g <- l.gids :: g in l.roster)
    && (forall g, i, j :: g in l.gids && 0 <= i < j < |l.roster[g]| ==> l.roster[g][i].factor != l.roster[g][j].factor)
    && (forall g, h, i, j :: g in l.gids && h in l.gids && g != h && 0 <= i < |l.roster[g]| && 0 <= j < |l.roster[h]| ==>
          l.roster[g][i].factor != l.roster[h][j].factor)
  }

  // ------------------------------------------------------------------ drift

  /** _code_drifted: no live directory, another set of .py names, or some file that differs. */
  predicate CodeDrifted(frozen: Pys, live: Option<Pys>) {
    match live
    case None => true
    case Some(py) => frozen.Keys != py.Keys || exists n :: n in frozen.Keys && n in py.Keys && frozen[n] != py[n]
  }

  /** Comparing names and then contents is comparing the directories. */
  lemma DriftIsDifference(frozen: Pys, live: Option<Pys>)
    ensures CodeDrifted(frozen, live) <==> live != Some(frozen)
  {
    if live.Some? && !CodeDrifted(frozen, live) {
      assert forall n :: n in frozen ==> frozen[n] == live.value[n];
      assert frozen == live.value;
    }
  }

  // ------------------------------------------------------------------ one pass of sync, in closed form

  /** A group whose group.xml is there with its legs in roster order; others are reported and skipped. */
  predicate Healthy(l: Line, g: Gid) {
    g in l.xml && LegIds(l.xml[g]) == Factors(RosterOf(l, g))
  }

  predicate Drifts(l: Line, e: Env, g: Gid, f: Name) {
    f in e.active && CodeDrifted(FrozenOf(l, g, f), LiveOf(e, f))
  }

  predicate WantsMute(l: Line, e: Env, g: Gid, f: Name) {
    f !in e.active || Drifts(l, e, g, f)
  }

  function SyncedRoster(l: Line, e: Env, g: Gid): (ms: seq<Member>)
    ensures |ms| == |RosterOf(l, g)|
  {
    var before := RosterOf(l, g);
    seq(|before|, i requires 0 <= i < |before| => Member(before[i].factor, WantsMute(l, e, g, before[i].factor)))
  }

  /** Only the legs whose muted flag changes are edited. */
  function SyncedLegs(l: Line, e: Env, g: Gid): (legs: seq<Leg>)
    requires Healthy(l, g)
    ensures |legs| == |l.xml[g]|
  {
    var ms, xs := RosterOf(l, g), l.xml[g];
    assert |Factors(ms)| == |LegIds(xs)|;
    seq(|xs|, i requires 0 <= i < |xs| =>
      if WantsMute(l, e, g, ms[i].factor) == ms[i].muted then xs[i] else xs[i].(dump := !WantsMute(l, e, g, ms[i].factor)))
  }

  /** Factors of healthy groups among gs that drift and are not singles yet: they become singles. */
  function Demoted(l: Line, e: Env, gs: seq<Gid>): set<Name> {
    set g, i | g in gs && Healthy(l, g) && 0 <= i < |RosterOf(l, g)| && Drifts(l, e, g, RosterOf(l, g)[i].factor)
               && RosterOf(l, g)[i].factor !in l.singles :: RosterOf(l, g)[i].factor
  }

  /** Factors of healthy groups among gs that are muted and need not be: they go back to their group. */
  function Returning(l: Line, e: Env, gs: seq<Gid>): set<Name> {
    set g, i | g in gs && Healthy(l, g) && 0 <= i < |RosterOf(l, g)| && RosterOf(l, g)[i].muted
               && !WantsMute(l, e, g, RosterOf(l, g)[i].factor) :: RosterOf(l, g)[i].factor
  }

  function Refrozen(l: Line, e: Env): set<Name> {
    set f | f in (l.singles - Returning(l, e, l.gids)) * e.active && CodeDrifted(SingleCodeOf(l, f), LiveOf(e, f))
  }

  function LivePys(e: Env, fs: set<Name>): map<Name, Pys> {
    map f | f in fs && f in e.live :: e.live[f].py
  }

  function RostersSynced(l: Line, e: Env, gs: seq<Gid>): map<Gid, seq<Member>> {
    map g | g in l.roster :: if g in gs && Healthy(l, g) then SyncedRoster(l, e, g) else l.roster[g]
  }

  function FilesSynced(l: Line, e: Env, gs: seq<Gid>): map<Gid, seq<Leg>> {
    map g | g in l.xml :: if g in gs && Healthy(l, g) then SyncedLegs(l, e, g) else l.xml[g]
  }

  /** After the groups gs have been reconciled and before the singles are. */
  function GroupsSynced(l: Line, e: Env, gs: seq<Gid>): Line {
    var demoted := Demoted(l, e, gs);
    l.(roster := RostersSynced(l, e, gs),
       xml := FilesSynced(l, e, gs),
       singles := (l.singles + demoted) - Returning(l, e, gs),
       singleCode := l.singleCode + LivePys(e, demoted))
  }

  /** The whole pass. */
  function Synced(l: Line, e: Env): Line {
    var m, refrozen := GroupsSynced(l, e, l.gids), Refrozen(l, e);
    m.(singles := m.singles * e.active, singleCode := m.singleCode + LivePys(e, refrozen), checkpoints := l.checkpoints - refrozen)
  }

  /** Delay-1 ACTIVE factors that are in no group and not registered as singles. */
  function Pending(l: Line, e: Env): set<Name> {
    set f | f in e.active && f !in l.singles && !InSomeGroup(l, f)
  }

  predicate InSomeGroup(l: Line, f: Name) {
    exists g :: g in l.gids && f in Factors(RosterOf(l, g))
  }

  /** sync reaches its end exactly when every factor it has to admit or refreeze has an XML (_admit_single exits otherwise). */
  ghost predicate Completes(l: Line, e: Env) {
    forall f <- Demoted(l, e, l.gids) + Refrozen(l, e) :: HasXml(e, f)
  }

  // ------------------------------------------------------------------ what holds between passes

  /** One production home: nobody is both unmuted in a group and a single. */
  ghost predicate OneHome(l: Line) {
    forall g, i :: g in l.gids && 0 <= i < |RosterOf(l, g)| && !RosterOf(l, g)[i].muted ==> RosterOf(l, g)[i].factor !in l.singles
  }

  /** The dump flag of a leg is the negation of its muted flag. */
  ghost predicate FlagsAgree(l: Line) {
    forall g, i :: g in l.gids && Healthy(l, g) && 0 <= i < |RosterOf(l, g)| ==> LegAt(l, g, i).dump == !RosterOf(l, g)[i].muted
  }

  function LegAt(l: Line, g: Gid, i: nat): Leg {
    if g in l.xml && i < |l.xml[g]| then l.xml[g][i] else Leg("", false)
  }

  lemma SyncedAt(l: Line, e: Env, g: Gid, i: nat)
    requires Valid(l) && g in l.gids && i < |RosterOf(l, g)|
    ensures var l', ms := Synced(l, e), RosterOf(l, g);
            && |RosterOf(l', g)| == |ms|
            && RosterOf(l', g)[i].factor == ms[i].factor
            && RosterOf(l', g)[i].muted == (if Healthy(l, g) then WantsMute(l, e, g, ms[i].factor) else ms[i].muted)
            && (Healthy(l, g) ==>
                  LegAt(l', g, i) == (if WantsMute(l, e, g, ms[i].factor) == ms[i].muted then LegAt(l, g, i)
                                      else LegAt(l, g, i).(dump := !WantsMute(l, e, g, ms[i].factor))))
  {
    if Healthy(l, g) {
      assert |Factors(RosterOf(l, g))| == |LegIds(l.xml[g])|;
    }
  }

  /** No leg moves and no ordinal changes, so a group is healthy afterwards exactly when it was before. */
  lemma SyncKeepsOrder(l: Line, e: Env, g: Gid)
    requires Valid(l) && g in l.gids
    ensures Factors(RosterOf(Synced(l, e), g)) == Factors(RosterOf(l, g))
    ensures g in Synced(l, e).xml <==> g in l.xml
    ensures g in l.xml ==> LegIds(Synced(l, e).xml[g]) == LegIds(l.xml[g])
    ensures Healthy(Synced(l, e), g) == Healthy(l, g)
  {
    var l' := Synced(l, e);
    forall i | 0 <= i < |RosterOf(l, g)|
      ensures RosterOf(l', g)[i].factor == RosterOf(l, g)[i].factor
    {
      SyncedAt(l, e, g, i);
    }
    assert |RosterOf(l', g)| == |RosterOf(l, g)|;
    if g in l.xml && Healthy(l, g) {
      forall i | 0 <= i < |l.xml[g]|
        ensures l'.xml[g][i].id == l.xml[g][i].id
      {
        assert |Factors(RosterOf(l, g))| == |LegIds(l.xml[g])|;
        SyncedAt(l, e, g, i);
        assert LegAt(l', g, i) == l'.xml[g][i] && LegAt(l, g, i) == l.xml[g][i];
      }
    }
  }

  lemma SyncKeepsValid(l: Line, e: Env)
    requires Valid(l)
    ensures Valid(Synced(l, e))
  {
    var l' := Synced(l, e);
    forall g | g in l.gids
      ensures |l'.roster[g]| == |l.roster[g]| && forall i :: 0 <= i < |l.roster[g]| ==> l'.roster[g][i].factor == l.roster[g][i].factor
    {
      SyncKeepsOrder(l, e, g);
      assert Factors(RosterOf(l', g)) == Factors(RosterOf(l, g));
      forall i | 0 <= i < |l.roster[g]|
        ensures l'.roster[g][i].factor == l.roster[g][i].factor
      {
        assert Factors(RosterOf(l', g))[i] == Factors(RosterOf(l, g))[i];
      }
    }
  }
}
