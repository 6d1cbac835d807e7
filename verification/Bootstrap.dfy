// Sealing pending factors into new groups (scripts/bootstrap_groups.py:70-169): the pool, the plan, the build, and exactly
// when the rosters stay disjoint.
module Bootstrap {
  import opened Prelude
  import opened Groups
  import opened GroupTheorems
  import opened GroupService
  import P = Partition
  import O = Ordering

  /** Active factors as the catalog lists them; names are its primary key. */
  type Records = seq<P.Candidate>

  ghost predicate UniqueNames(records: Records) {
    forall i, j :: 0 <= i < j < |records| ==> records[i].name != records[j].name
  }

  // ------------------------------------------------------------------ the pool

  /** Delay-1 factors of no group, in catalog order. */
  function Unplaced(records: Records, l: Line): Records {
    if records == [] then []
    else
      var c := records[|records| - 1];
      Unplaced(records[..|records| - 1], l) + if P.Eligible(c) && !InSomeGroup(l, c.name) then [c] else []
  }

  /** by_name: the delay-1 record of that name. */
  function RecordOf(records: Records, f: Name): Option<P.Candidate> {
    if records == [] then None
    else
      var c := records[|records| - 1];
      if P.Eligible(c) && c.name == f then Some(c) else RecordOf(records[..|records| - 1], f)
  }

  /** --factor: the named factors, as often as they are named, without those of a group or not delay-1 ACTIVE. */
  function Named(records: Records, names: seq<Name>, l: Line): Records {
    if names == [] then []
    else
      var f := names[|names| - 1];
      Named(records, names[..|names| - 1], l) + if !InSomeGroup(l, f) && RecordOf(records, f).Some? then [RecordOf(records, f).value] else []
  }

  function Pool(records: Records, names: seq<Name>, l: Line): Records {
    if names == [] then Unplaced(records, l) else Named(records, names, l)
  }

  lemma {:induction false} RecordIsRecord(records: Records, f: Name)
    requires RecordOf(records, f).Some?
    ensures var c := RecordOf(records, f).value; c in records && c.name == f && P.Eligible(c)
  {
    var k := |records| - 1;
    if !(P.Eligible(records[k]) && records[k].name == f) {
      RecordIsRecord(records[..k], f);
    }
  }

  lemma {:induction false} UnplacedIs(records: Records, l: Line, c: P.Candidate)
    requires c in Unplaced(records, l)
    ensures c in records && P.Eligible(c) && !InSomeGroup(l, c.name)
  {
    var k := |records| - 1;
    if c in Unplaced(records[..k], l) {
      UnplacedIs(records[..k], l, c);
    }
  }

  lemma {:induction false} NamedIs(records: Records, names: seq<Name>, l: Line, c: P.Candidate)
    requires c in Named(records, names, l)
    ensures c in records && P.Eligible(c) && !InSomeGroup(l, c.name)
  {
    var k := |names| - 1;
    if c in Named(records, names[..k], l) {
      NamedIs(records, names[..k], l, c);
    } else {
      RecordIsRecord(records, names[k]);
    }
  }

  /** What the pool holds is a record of a delay-1 factor that no group has. */
  lemma PoolIs(records: Records, names: seq<Name>, l: Line, c: P.Candidate)
    requires c in Pool(records, names, l)
    ensures c in records && P.Eligible(c) && !InSomeGroup(l, c.name)
  {
    if names == [] {
      UnplacedIs(records, l, c);
    } else {
      NamedIs(records, names, l, c);
    }
  }

  /** Without --factor the pool is every delay-1 record whose factor is in no group, as often as it is listed. */
  lemma {:induction false} WholePool(records: Records, l: Line, c: P.Candidate)
    ensures multiset(Pool(records, [], l))[c] == if c.delay == Some(1) && !InSomeGroup(l, c.name) then multiset(records)[c] else 0
  {
    if records != [] {
      var k := |records| - 1;
      WholePool(records[..k], l, c);
      assert records == records[..k] + [records[k]];
    }
  }

  /** With it, every name given stands for its delay-1 record, as often as it is given, unless it is in a group or has none. */
  lemma {:induction false} NamedPool(records: Records, names: seq<Name>, l: Line, c: P.Candidate)
    requires UniqueNames(records)
    ensures multiset(Named(records, names, l))[c] == if c in records && c.delay == Some(1) && !InSomeGroup(l, c.name) then multiset(names)[c.name] else 0
  {
    if names != [] {
      var init, f := names[..|names| - 1], names[|names| - 1];
      NamedPool(records, init, l, c);
      assert multiset(names) == multiset(init) + multiset{f} by {
        assert names == init + [f];
      }
      RecordExactly(records, f, c);
      var more := if !InSomeGroup(l, f) && RecordOf(records, f).Some? then [RecordOf(records, f).value] else [];
      assert Named(records, names, l) == Named(records, init, l) + more;
      assert multiset(more)[c] == if c in records && c.delay == Some(1) && c.name == f && !InSomeGroup(l, f) then 1 else 0;
      hide InSomeGroup, RecordOf, UniqueNames, Named;
    }
  }

  lemma {:induction false} RecordExactly(records: Records, f: Name, c: P.Candidate)
    requires UniqueNames(records)
    ensures RecordOf(records, f) == Some(c) <==> c in records && c.delay == Some(1) && c.name == f
  {
    if records != [] {
      var k := |records| - 1;
      RecordExactly(records[..k], f, c);
      assert records == records[..k] + [records[k]];
      if c in records[..k] {
        var i :| 0 <= i < k && records[i] == c;
      }
    }
  }

  // ------------------------------------------------------------------ the plan

  /** A group that will be built, with its number. */
  datatype Planned = Planned(gid: Gid, members: seq<Name>)

  /** Every member has an XML, and the XMLs merge; other groups are deferred. */
  predicate Ready(e: Env, conflicted: set<seq<Name>>, members: seq<Name>) {
    (forall i :: 0 <= i < |members| ==> HasXml(e, members[i])) && members !in conflicted
  }

  function GidsOf(plan: seq<Planned>): set<Gid> {
    set i | 0 <= i < |plan| :: plan[i].gid
  }

  /** Each ready group takes the least number that neither a group nor the plan uses; a deferred one takes none. */
  function Plan(e: Env, conflicted: set<seq<Name>>, specs: seq<P.GroupSpec>, used: set<Gid>): seq<Planned> {
    if specs == [] then []
    else
      var rest, members := Plan(e, conflicted, specs[..|specs| - 1], used), specs[|specs| - 1].members;
      if Ready(e, conflicted, members) then rest + [Planned(P.NextOf(used + GidsOf(rest)), members)] else rest
  }

  ghost predicate FreshNumbers(plan: seq<Planned>, used: set<Gid>) {
    && (forall i :: 0 <= i < |plan| ==> plan[i].gid !in used)
    && forall i, j :: 0 <= i < j < |plan| ==> plan[i].gid != plan[j].gid
  }

  lemma {:induction false} PlanFresh(e: Env, conflicted: set<seq<Name>>, specs: seq<P.GroupSpec>, used: set<Gid>)
    ensures FreshNumbers(Plan(e, conflicted, specs, used), used)
  {
    if specs != [] {
      var rest := Plan(e, conflicted, specs[..|specs| - 1], used);
      PlanFresh(e, conflicted, specs[..|specs| - 1], used);
      var g := P.NextOf(used + GidsOf(rest));
      assert forall i :: 0 <= i < |rest| ==> rest[i].gid in GidsOf(rest);
    }
  }

  /** Group by group: one whose members all have an XML, and whose XMLs merge, is planned under the least number that neither the
      table nor the plan has; any other is put off. */
  lemma PlanExactly(e: Env, conflicted: set<seq<Name>>, specs: seq<P.GroupSpec>, spec: P.GroupSpec, used: set<Gid>) returns (n: nat)
    ensures var plan, more := Plan(e, conflicted, specs, used), Plan(e, conflicted, specs + [spec], used);
            if (forall f <- spec.members :: f in e.live && e.live[f].hasXml) && spec.members !in conflicted then
              && more == plan + [Planned(P.Gid(n), spec.members)] && n >= 1
              && (forall m :: 1 <= m < n ==> P.Gid(m) in used || exists i :: 0 <= i < |plan| && plan[i].gid == P.Gid(m))
              && P.Gid(n) !in used && forall i :: 0 <= i < |plan| ==> plan[i].gid != P.Gid(n)
            else more == plan
  {
    assert (specs + [spec])[..|specs|] == specs;
    var taken := used + GidsOf(Plan(e, conflicted, specs, used));
    n := P.NextIs(taken);
    assert forall i :: 0 <= i < |spec.members| ==> spec.members[i] in spec.members;
  }

  /** A planned group is a ready group of the partition. */
  lemma {:induction false} PlannedIsReady(e: Env, conflicted: set<seq<Name>>, specs: seq<P.GroupSpec>, used: set<Gid>, m: nat) returns (i: nat)
    requires m < |Plan(e, conflicted, specs, used)|
    ensures i < |specs| && Plan(e, conflicted, specs, used)[m].members == specs[i].members && Ready(e, conflicted, specs[i].members)
  {
    var k := |specs| - 1;
    if m < |Plan(e, conflicted, specs[..k], used)| {
      i := PlannedIsReady(e, conflicted, specs[..k], used, m);
    } else {
      i := k;
    }
  }

  /** Two planned groups are two ready groups of the partition, in the same order. */
  lemma {:induction false} PlannedPair(e: Env, conflicted: set<seq<Name>>, specs: seq<P.GroupSpec>, used: set<Gid>, m: nat, n: nat)
    returns (i: nat, j: nat)
    requires m < n < |Plan(e, conflicted, specs, used)|
    ensures var plan := Plan(e, conflicted, specs, used);
            && i < j < |specs| && plan[m].members == specs[i].members && plan[n].members == specs[j].members
            && Ready(e, conflicted, specs[i].members) && Ready(e, conflicted, specs[j].members)
  {
    var k := |specs| - 1;
    if n < |Plan(e, conflicted, specs[..k], used)| {
      i, j := PlannedPair(e, conflicted, specs[..k], used, m, n);
    } else {
      i := PlannedIsReady(e, conflicted, specs[..k], used, m);
      j := k;
    }
  }

  lemma {:induction false} ReadyIsPlanned(e: Env, conflicted: set<seq<Name>>, specs: seq<P.GroupSpec>, used: set<Gid>, i: nat) returns (m: nat)
    requires i < |specs| && Ready(e, conflicted, specs[i].members)
    ensures m < |Plan(e, conflicted, specs, used)| && Plan(e, conflicted, specs, used)[m].members == specs[i].members
  {
    var k := |specs| - 1;
    if i < k {
      m := ReadyIsPlanned(e, conflicted, specs[..k], used, i);
    } else {
      m := |Plan(e, conflicted, specs[..k], used)|;
    }
  }

  lemma {:induction false} ReadyPair(e: Env, conflicted: set<seq<Name>>, specs: seq<P.GroupSpec>, used: set<Gid>, i: nat, j: nat)
    returns (m: nat, n: nat)
    requires i < j < |specs| && Ready(e, conflicted, specs[i].members) && Ready(e, conflicted, specs[j].members)
    ensures var plan := Plan(e, conflicted, specs, used);
            m < n < |plan| && plan[m].members == specs[i].members && plan[n].members == specs[j].members
  {
    var k := |specs| - 1;
    if j < k {
      m, n := ReadyPair(e, conflicted, specs[..k], used, i, j);
    } else {
      m := ReadyIsPlanned(e, conflicted, specs[..k], used, i);
      n := |Plan(e, conflicted, specs[..k], used)|;
    }
  }

  // ------------------------------------------------------------------ the build

  function Built(l: Line, e: Env, x: Planned): Line {
    if Repeats(x.members) then Wrecked(l, e, x.gid, x.members) else Sealed(l, e, x.gid, x.members)
  }

  function Build(l: Line, e: Env, plan: seq<Planned>): Line {
    if plan == [] then l else Built(Build(l, e, plan[..|plan| - 1]), e, plan[|plan| - 1])
  }

  function Bootstrapped(l: Line, e: Env, records: Records, names: seq<Name>, size: int, used: set<Gid>, conflicted: set<seq<Name>>): Line
    requires size >= 1
  {
    Build(l, e, Plan(e, conflicted, P.PartitionOf(Pool(records, names, l), size), used))
  }

  predicate Share(a: seq<Name>, b: seq<Name>) {
    exists i, j :: 0 <= i < |a| && 0 <= j < |b| && a[i] == b[j]
  }

  /** No two groups that get a roster have a member in common. */
  ghost predicate Apart(plan: seq<Planned>) {
    forall m, n :: 0 <= m < n < |plan| && !Repeats(plan[m].members) && !Repeats(plan[n].members) ==> !Share(plan[m].members, plan[n].members)
  }

  ghost predicate Outside(l: Line, plan: seq<Planned>) {
    forall m, i :: 0 <= m < |plan| && 0 <= i < |plan[m].members| ==> !InSomeGroup(l, plan[m].members[i])
  }

  lemma BuiltOne(l: Line, e: Env, x: Planned)
    requires x.gid !in l.gids
    ensures var l' := Built(l, e, x);
            && (forall g <- l.gids :: RosterOf(l', g) == RosterOf(l, g))
            && l'.gids == (if Repeats(x.members) then l.gids else l.gids + [x.gid])
            && (!Repeats(x.members) ==> RosterOf(l', x.gid) == FreshRoster(x.members))
  {
  }

  /** A group of the line after a build, if it is new. */
  ghost predicate NewGroup(plan: seq<Planned>, g: Gid, m: int) {
    0 <= m < |plan| && plan[m].gid == g && !Repeats(plan[m].members)
  }

  lemma PrefixOf(plan: seq<Planned>, used: set<Gid>, l: Line)
    requires plan != []
    ensures var rest := plan[..|plan| - 1];
            && (FreshNumbers(plan, used) ==> FreshNumbers(rest, used) && plan[|plan| - 1].gid !in used + GidsOf(rest))
            && (Apart(plan) ==> Apart(rest)) && (Outside(l, plan) ==> Outside(l, rest))
            && forall g, m :: NewGroup(rest, g, m) ==> NewGroup(plan, g, m)
  {
  }

  /** After the build: the old groups as they were, and each group of the plan without repetition. */
  lemma {:induction false} BuildGroups(l: Line, e: Env, plan: seq<Planned>)
    requires FreshNumbers(plan, set g | g in l.gids)
    ensures var l' := Build(l, e, plan);
            && (forall g <- l.gids :: g in l'.gids && RosterOf(l', g) == RosterOf(l, g))
            && (forall g <- l'.gids :: g in l.gids || exists m :: NewGroup(plan, g, m))
            && (forall g, m :: NewGroup(plan, g, m) ==> g in l'.gids && RosterOf(l', g) == FreshRoster(plan[m].members))
  {
    if plan != [] {
      var k := |plan| - 1;
      var rest, last := plan[..k], plan[k];
      PrefixOf(plan, (set g | g in l.gids), l);
      BuildGroups(l, e, rest);
      var before, after := Build(l, e, rest), Build(l, e, plan);
      forall g, m | NewGroup(rest, g, m)
        ensures g != last.gid
      {
        assert g in GidsOf(rest);
      }
      hide Built, RosterOf, FreshNumbers;
      BuiltOne(before, e, last);
      forall g | g in after.gids
        ensures g in l.gids || exists m :: NewGroup(plan, g, m)
      {
        if g in before.gids && g !in l.gids {
          var m :| NewGroup(rest, g, m);
          assert NewGroup(plan, g, m);
        } else if g !in before.gids {
          assert NewGroup(plan, g, k);
        }
      }
      forall g, m | NewGroup(plan, g, m)
        ensures g in after.gids && RosterOf(after, g) == FreshRoster(plan[m].members)
      {
        if m < k {
          assert NewGroup(rest, g, m);
        }
      }
    }
  }

  /** The last group's members are in no group yet. */
  lemma LastIsOutside(l: Line, e: Env, plan: seq<Planned>, i: nat)
    requires plan != [] && FreshNumbers(plan, set g | g in l.gids) && Apart(plan) && Outside(l, plan)
    requires !Repeats(plan[|plan| - 1].members) && i < |plan[|plan| - 1].members|
    ensures !InSomeGroup(Build(l, e, plan[..|plan| - 1]), plan[|plan| - 1].members[i])
  {
    var k := |plan| - 1;
    var before, f := Build(l, e, plan[..k]), plan[k].members[i];
    BuildGroups(l, e, plan[..k]);
    forall g | g in before.gids
      ensures f !in Factors(RosterOf(before, g))
    {
      if g !in l.gids {
        var m :| NewGroup(plan[..k], g, m);
        assert !Share(plan[m].members, plan[k].members);
      } else {
        assert !InSomeGroup(l, f);
      }
    }
  }

  lemma {:induction false} BuildSane(l: Line, e: Env, plan: seq<Planned>)
    requires Sane(l) && FreshNumbers(plan, set g | g in l.gids) && Apart(plan) && Outside(l, plan)
    ensures Sane(Build(l, e, plan))
  {
    if plan != [] {
      var k := |plan| - 1;
      var before := Build(l, e, plan[..k]);
      PrefixOf(plan, (set g | g in l.gids), l);
      LastIsNew(l, e, plan);
      forall i | !Repeats(plan[k].members) && 0 <= i < |plan[k].members|
        ensures !InSomeGroup(before, plan[k].members[i])
      {
        LastIsOutside(l, e, plan, i);
      }
      hide Sane, Sealed, Wrecked, FreshNumbers, Apart, Outside, InSomeGroup;
      BuildSane(l, e, plan[..k]);
      if Repeats(plan[k].members) {
        WreckSane(before, e, plan[k].gid, plan[k].members);
      } else {
        SealSane(before, e, plan[k].gid, plan[k].members);
      }
    }
  }

  lemma LastIsNew(l: Line, e: Env, plan: seq<Planned>)
    requires plan != [] && FreshNumbers(plan, set g | g in l.gids)
    ensures plan[|plan| - 1].gid !in Build(l, e, plan[..|plan| - 1]).gids
  {
    BuildGroups(l, e, plan[..|plan| - 1]);
  }

  lemma {:induction false} ValidIsApart(l: Line, e: Env, plan: seq<Planned>)
    requires FreshNumbers(plan, set g | g in l.gids) && Valid(Build(l, e, plan))
    ensures Apart(plan)
  {
    var l' := Build(l, e, plan);
    BuildGroups(l, e, plan);
    forall m, n | 0 <= m < n < |plan| && !Repeats(plan[m].members) && !Repeats(plan[n].members)
      ensures !Share(plan[m].members, plan[n].members)
    {
      assert NewGroup(plan, plan[m].gid, m) && NewGroup(plan, plan[n].gid, n);
    }
  }

  // ------------------------------------------------------------------ exactly when

  function NamesIn(pool: Records, a: string): seq<Name> {
    O.Sort(P.NamesOf(pool, a), O.Self)
  }

  /** A group of these members gets its roster. */
  predicate Builds(e: Env, conflicted: set<seq<Name>>, members: seq<Name>) {
    Ready(e, conflicted, members) && !Repeats(members)
  }

  /** Of each author's groups, any two that are built: the last member of the earlier one is not the first of the later one. */
  ghost predicate EndsDiffer(e: Env, conflicted: set<seq<Name>>, pool: Records, size: int)
    requires size >= 1
  {
    forall a, c, d :: EndsMatter(e, conflicted, pool, size, a, c, d) ==>
      P.ChunkAt(NamesIn(pool, a), size, c)[|P.ChunkAt(NamesIn(pool, a), size, c)| - 1] != P.ChunkAt(NamesIn(pool, a), size, d)[0]
  }

  ghost predicate EndsMatter(e: Env, conflicted: set<seq<Name>>, pool: Records, size: int, a: string, c: int, d: int)
    requires size >= 1
  {
    && 0 <= c < d < |P.Chunks(NamesIn(pool, a), size)|
    && Builds(e, conflicted, P.ChunkAt(NamesIn(pool, a), size, c)) && Builds(e, conflicted, P.ChunkAt(NamesIn(pool, a), size, d))
  }

  /** An author's groups share a name only across ends. */
  lemma {:induction false} SharedAtEnds(names: seq<Name>, size: int, c: nat, d: nat)
    requires size >= 1 && O.Sorted(names, O.Self) && c < d < |P.Chunks(names, size)|
    ensures var x, y := P.ChunkAt(names, size, c), P.ChunkAt(names, size, d);
            Share(x, y) <==> x[|x| - 1] == y[0]
  {
    P.ChunkIs(names, size, c);
    P.ChunkIs(names, size, d);
    var x, y := P.ChunkAt(names, size, c), P.ChunkAt(names, size, d);
    P.ChunksApart(size, c, d);
    if Share(x, y) {
      var i, j :| 0 <= i < |x| && 0 <= j < |y| && x[i] == y[j];
      var u, v := P.Times(c, size) + i, P.Times(d, size) + j;
      assert names[u] == names[v];
      Between(names, u, P.Times(c, size) + |x| - 1, v);
      Between(names, u, P.Times(d, size), v);
    }
  }

  lemma Between(names: seq<Name>, u: nat, m: nat, v: nat)
    requires O.Sorted(names, O.Self) && u <= m <= v < |names| && names[u] == names[v]
    ensures names[m] == names[u]
  {
    if u < m < v {
      O.AtMostAntisymmetric(names[u], names[m]);
    }
  }

  lemma {:induction false} NameHasRecord(pool: Records, a: string, x: Name) returns (c: P.Candidate)
    requires x in P.NamesOf(pool, a)
    ensures c in pool && c.name == x && c.author == a
  {
    var k := |pool| - 1;
    if P.Eligible(pool[k]) && pool[k].author == a && pool[k].name == x {
      c := pool[k];
    } else {
      c := NameHasRecord(pool[..k], a, x);
    }
  }

  /** A member of a group comes from a record of the group's author. */
  lemma MemberHasRecord(pool: Records, size: int, i: nat, p: nat) returns (c: P.Candidate)
    requires size >= 1 && i < |P.PartitionOf(pool, size)| && p < |P.PartitionOf(pool, size)[i].members|
    ensures var s := P.PartitionOf(pool, size)[i]; c in pool && c.name == s.members[p] && c.author == s.author
  {
    hide O.Sort, P.NamesOf, P.Authors, P.Chunks, P.ChunkAt, P.Times;
    var s := P.PartitionOf(pool, size)[i];
    var k := P.SpecIsChunk(pool, O.Sort(P.Authors(pool), O.Self), size, i);
    P.ChunkIs(NamesIn(pool, s.author), size, k);
    assert s.members[p] in NamesIn(pool, s.author);
    P.SortMembers(P.NamesOf(pool, s.author), s.members[p]);
    c := NameHasRecord(pool, s.author, s.members[p]);
  }

  ghost predicate OneAuthorEach(pool: Records) {
    forall c, d :: c in pool && d in pool && c.name == d.name ==> c.author == d.author
  }

  lemma SharersHaveOneAuthor(pool: Records, size: int, i: nat, j: nat)
    requires size >= 1 && OneAuthorEach(pool) && i < |P.PartitionOf(pool, size)| && j < |P.PartitionOf(pool, size)|
    requires Share(P.PartitionOf(pool, size)[i].members, P.PartitionOf(pool, size)[j].members)
    ensures P.PartitionOf(pool, size)[i].author == P.PartitionOf(pool, size)[j].author
  {
    var x, y := P.PartitionOf(pool, size)[i].members, P.PartitionOf(pool, size)[j].members;
    var p, q :| 0 <= p < |x| && 0 <= q < |y| && x[p] == y[q];
    var c := MemberHasRecord(pool, size, i, p);
    var d := MemberHasRecord(pool, size, j, q);
  }

  lemma {:induction false} ApartHasEnds(e: Env, conflicted: set<seq<Name>>, pool: Records, size: int, used: set<Gid>, a: string, c: nat, d: nat)
    requires size >= 1 && Apart(Plan(e, conflicted, P.PartitionOf(pool, size), used))
    requires EndsMatter(e, conflicted, pool, size, a, c, d)
    ensures !Share(P.ChunkAt(NamesIn(pool, a), size, c), P.ChunkAt(NamesIn(pool, a), size, d))
  {
    var authors := O.Sort(P.Authors(pool), O.Self);
    if a !in P.Authors(pool) {
      P.NoNames(pool, a);
    }
    P.SortMembers(P.Authors(pool), a);
    var i, j := P.ChunkPair(pool, authors, size, a, c, d);
    var m, n := ReadyPair(e, conflicted, P.PartitionOf(pool, size), used, i, j);
  }

  lemma {:induction false} EndsHaveApart(e: Env, conflicted: set<seq<Name>>, pool: Records, size: int, used: set<Gid>, m: nat, n: nat)
    requires size >= 1 && OneAuthorEach(pool) && EndsDiffer(e, conflicted, pool, size)
    requires var plan := Plan(e, conflicted, P.PartitionOf(pool, size), used);
             m < n < |plan| && !Repeats(plan[m].members) && !Repeats(plan[n].members)
    ensures var plan := Plan(e, conflicted, P.PartitionOf(pool, size), used); !Share(plan[m].members, plan[n].members)
  {
    hide Plan, Share, Repeats, Ready, OneAuthorEach, EndsDiffer;
    var specs := P.PartitionOf(pool, size);
    var i, j := PlannedPair(e, conflicted, specs, used, m, n);
    if Share(specs[i].members, specs[j].members) {
      SharersHaveOneAuthor(pool, size, i, j);
      P.DistinctSorted(P.Authors(pool));
      var c, d := P.SpecPair(pool, O.Sort(P.Authors(pool), O.Self), size, i, j);
      assert EndsMatter(e, conflicted, pool, size, specs[i].author, c, d);
      O.SortSorted(P.NamesOf(pool, specs[i].author), O.Self);
      SharedAtEnds(NamesIn(pool, specs[i].author), size, c, d);
      EndsDifferAt(e, conflicted, pool, size, specs[i].author, c, d);
    }
  }

  lemma EndsDifferAt(e: Env, conflicted: set<seq<Name>>, pool: Records, size: int, a: string, c: nat, d: nat)
    requires size >= 1 && EndsDiffer(e, conflicted, pool, size) && EndsMatter(e, conflicted, pool, size, a, c, d)
    ensures P.ChunkAt(NamesIn(pool, a), size, c)[|P.ChunkAt(NamesIn(pool, a), size, c)| - 1] != P.ChunkAt(NamesIn(pool, a), size, d)[0]
  {
  }

  lemma {:induction false} PlanApartExactly(e: Env, conflicted: set<seq<Name>>, pool: Records, size: int, used: set<Gid>)
    requires size >= 1 && OneAuthorEach(pool)
    ensures Apart(Plan(e, conflicted, P.PartitionOf(pool, size), used)) <==> EndsDiffer(e, conflicted, pool, size)
  {
    var plan := Plan(e, conflicted, P.PartitionOf(pool, size), used);
    if Apart(plan) {
      forall a, c, d | EndsMatter(e, conflicted, pool, size, a, c, d)
        ensures P.ChunkAt(NamesIn(pool, a), size, c)[|P.ChunkAt(NamesIn(pool, a), size, c)| - 1] != P.ChunkAt(NamesIn(pool, a), size, d)[0]
      {
        ApartHasEnds(e, conflicted, pool, size, used, a, c, d);
        O.SortSorted(P.NamesOf(pool, a), O.Self);
        SharedAtEnds(NamesIn(pool, a), size, c, d);
      }
    }
    if EndsDiffer(e, conflicted, pool, size) {
      forall m, n | 0 <= m < n < |plan| && !Repeats(plan[m].members) && !Repeats(plan[n].members)
        ensures !Share(plan[m].members, plan[n].members)
      {
        EndsHaveApart(e, conflicted, pool, size, used, m, n);
      }
    }
  }

  lemma PoolHasOneAuthorEach(records: Records, names: seq<Name>, l: Line)
    requires UniqueNames(records)
    ensures OneAuthorEach(Pool(records, names, l))
  {
    forall c, d | c in Pool(records, names, l) && d in Pool(records, names, l) && c.name == d.name
      ensures c.author == d.author
    {
      PoolIs(records, names, l, c);
      PoolIs(records, names, l, d);
    }
  }

  lemma {:induction false} PlanIsOutside(l: Line, e: Env, records: Records, names: seq<Name>, size: int, used: set<Gid>, conflicted: set<seq<Name>>)
    requires size >= 1
    ensures Outside(l, Plan(e, conflicted, P.PartitionOf(Pool(records, names, l), size), used))
  {
    var pool := Pool(records, names, l);
    var plan := Plan(e, conflicted, P.PartitionOf(pool, size), used);
    forall m, p | 0 <= m < |plan| && 0 <= p < |plan[m].members|
      ensures !InSomeGroup(l, plan[m].members[p])
    {
      var i := PlannedIsReady(e, conflicted, P.PartitionOf(pool, size), used, m);
      var c := MemberHasRecord(pool, size, i, p);
      PoolIs(records, names, l, c);
    }
  }

  /** After a bootstrap no factor lies in two rosters exactly when, of every author's groups that are built, no later one
      begins with the name an earlier one ends with. */
  lemma BootstrapExactly(l: Line, e: Env, records: Records, names: seq<Name>, size: int, used: set<Gid>, conflicted: set<seq<Name>>)
    requires Sane(l) && UniqueNames(records) && size >= 1 && forall g <- l.gids :: g in used
    ensures Valid(Bootstrapped(l, e, records, names, size, used, conflicted)) <==> EndsDiffer(e, conflicted, Pool(records, names, l), size)
    ensures EndsDiffer(e, conflicted, Pool(records, names, l), size) ==> Sane(Bootstrapped(l, e, records, names, size, used, conflicted))
  {
    var pool := Pool(records, names, l);
    var plan := Plan(e, conflicted, P.PartitionOf(pool, size), used);
    PlanFresh(e, conflicted, P.PartitionOf(pool, size), used);
    assert FreshNumbers(plan, set g | g in l.gids);
    PoolHasOneAuthorEach(records, names, l);
    PlanApartExactly(e, conflicted, pool, size, used);
    PlanIsOutside(l, e, records, names, size, used, conflicted);
    if Apart(plan) {
      BuildSane(l, e, plan);
    } else if Valid(Build(l, e, plan)) {
      ValidIsApart(l, e, plan);
    }
  }

  // ------------------------------------------------------------------ on the sorted names

  /** At every cut of every author's sorted names, the names before and after the cut differ. */
  ghost predicate CutsDiffer(pool: Records, size: int)
    requires size >= 1
  {
    forall a, k: nat :: 0 < P.Times(k, size) < |NamesIn(pool, a)| ==>
      NamesIn(pool, a)[P.Times(k, size) - 1] != NamesIn(pool, a)[P.Times(k, size)]
  }

  ghost predicate AllBuild(e: Env, conflicted: set<seq<Name>>, pool: Records, size: int)
    requires size >= 1
  {
    forall a, c :: 0 <= c < |P.Chunks(NamesIn(pool, a), size)| ==> Builds(e, conflicted, P.ChunkAt(NamesIn(pool, a), size, c))
  }

  lemma {:induction false} CutsGiveEnds(e: Env, conflicted: set<seq<Name>>, pool: Records, size: int, a: string, c: nat, d: nat)
    requires size >= 1 && CutsDiffer(pool, size) && c < d < |P.Chunks(NamesIn(pool, a), size)|
    ensures P.ChunkAt(NamesIn(pool, a), size, c)[|P.ChunkAt(NamesIn(pool, a), size, c)| - 1] != P.ChunkAt(NamesIn(pool, a), size, d)[0]
  {
    var names := NamesIn(pool, a);
    P.ChunkIs(names, size, c);
    P.ChunkIs(names, size, d);
    P.ChunksApart(size, c, d);
    P.TimesNext(c, size);
    var cut := P.Times(c + 1, size);
    O.SortSorted(P.NamesOf(pool, a), O.Self);
    if names[cut - 1] == names[P.Times(d, size)] {
      Between(names, cut - 1, cut, P.Times(d, size));
    }
  }

  lemma EndsGiveCuts(e: Env, conflicted: set<seq<Name>>, pool: Records, size: int, a: string, k: nat)
    requires size >= 1 && AllBuild(e, conflicted, pool, size) && EndsDiffer(e, conflicted, pool, size)
    requires 0 < P.Times(k, size) < |NamesIn(pool, a)|
    ensures NamesIn(pool, a)[P.Times(k, size) - 1] != NamesIn(pool, a)[P.Times(k, size)]
  {
    hide NamesIn, Builds, P.Chunks, P.ChunkAt;
    var names := NamesIn(pool, a);
    P.TimesNext(0, size);
    P.TimesNext(k - 1, size);
    P.ChunkIs(names, size, k - 1);
    P.ChunkIs(names, size, k);
    assert EndsMatter(e, conflicted, pool, size, a, k - 1, k);
  }

  /** A list of names without a repetition across a cut is always safe; when all its groups are built, only such a list is. */
  lemma BootstrapByCuts(l: Line, e: Env, records: Records, names: seq<Name>, size: int, used: set<Gid>, conflicted: set<seq<Name>>)
    requires Sane(l) && UniqueNames(records) && size >= 1 && forall g <- l.gids :: g in used
    ensures CutsDiffer(Pool(records, names, l), size) ==> Sane(Bootstrapped(l, e, records, names, size, used, conflicted))
    ensures AllBuild(e, conflicted, Pool(records, names, l), size) ==>
              (Valid(Bootstrapped(l, e, records, names, size, used, conflicted)) <==> CutsDiffer(Pool(records, names, l), size))
  {
    var pool := Pool(records, names, l);
    BootstrapExactly(l, e, records, names, size, used, conflicted);
    if CutsDiffer(pool, size) {
      forall a, c, d | EndsMatter(e, conflicted, pool, size, a, c, d)
        ensures P.ChunkAt(NamesIn(pool, a), size, c)[|P.ChunkAt(NamesIn(pool, a), size, c)| - 1] != P.ChunkAt(NamesIn(pool, a), size, d)[0]
      {
        CutsGiveEnds(e, conflicted, pool, size, a, c, d);
      }
    }
    if AllBuild(e, conflicted, pool, size) && EndsDiffer(e, conflicted, pool, size) {
      forall a, k: nat | 0 < P.Times(k, size) < |NamesIn(pool, a)|
        ensures NamesIn(pool, a)[P.Times(k, size) - 1] != NamesIn(pool, a)[P.Times(k, size)]
      {
        EndsGiveCuts(e, conflicted, pool, size, a, k);
      }
    }
  }

  // ------------------------------------------------------------------ no name given twice

  lemma {:induction false} NamedUnique(records: Records, names: seq<Name>, l: Line)
    requires P.Distinct(names)
    ensures UniqueNames(Named(records, names, l)) && forall c <- Named(records, names, l) :: c.name in names
  {
    if names != [] {
      var k := |names| - 1;
      NamedUnique(records, names[..k], l);
      if RecordOf(records, names[k]).Some? {
        RecordIsRecord(records, names[k]);
      }
    }
  }

  lemma {:induction false} UnplacedUnique(records: Records, l: Line)
    requires UniqueNames(records)
    ensures UniqueNames(Unplaced(records, l)) && forall c <- Unplaced(records, l) :: c in records
  {
    if records != [] {
      var k := |records| - 1;
      UnplacedUnique(records[..k], l);
      forall c | c in Unplaced(records[..k], l)
        ensures c.name != records[k].name
      {
        var i :| 0 <= i < k && records[i] == c;
      }
    }
  }

  lemma {:induction false} NamesOfUnique(pool: Records, a: string)
    requires UniqueNames(pool)
    ensures P.Distinct(P.NamesOf(pool, a)) && forall f <- P.NamesOf(pool, a) :: exists c :: c in pool && c.name == f
  {
    if pool != [] {
      var k := |pool| - 1;
      NamesOfUnique(pool[..k], a);
      assert pool[k] in pool;
      var rest := P.NamesOf(pool[..k], a);
      forall j | 0 <= j < |rest|
        ensures rest[j] != pool[k].name
      {
        assert rest[j] in rest;
        var c :| c in pool[..k] && c.name == rest[j];
        var i :| 0 <= i < k && pool[i] == c;
      }
    }
  }

  /** The whole pool, or a list that names nobody twice, never breaks disjointness. */
  lemma DistinctListIsSafe(l: Line, e: Env, records: Records, names: seq<Name>, size: int, used: set<Gid>, conflicted: set<seq<Name>>)
    requires Sane(l) && UniqueNames(records) && size >= 1 && (forall g <- l.gids :: g in used) && P.Distinct(names)
    ensures Sane(Bootstrapped(l, e, records, names, size, used, conflicted))
  {
    var pool := Pool(records, names, l);
    NamedUnique(records, names, l);
    UnplacedUnique(records, l);
    forall a, k: nat | 0 < P.Times(k, size) < |NamesIn(pool, a)|
      ensures NamesIn(pool, a)[P.Times(k, size) - 1] != NamesIn(pool, a)[P.Times(k, size)]
    {
      NamesOfUnique(pool, a);
      P.DistinctSorted(P.NamesOf(pool, a));
    }
    BootstrapByCuts(l, e, records, names, size, used, conflicted);
  }

  // ------------------------------------------------------------------ a name given twice

  lemma NamedAgain(c: P.Candidate, names: seq<Name>)
    requires P.Eligible(c) && names != [] && forall i :: 0 <= i < |names| ==> names[i] == c.name
    ensures NamesIn(Pool([c], names, EMPTY_LINE), c.author) == names
  {
    NamedOnly(c, names);
    O.SortOfSorted(names, O.Self);
  }

  lemma {:induction false} NamedOnly(c: P.Candidate, names: seq<Name>)
    requires P.Eligible(c) && forall i :: 0 <= i < |names| ==> names[i] == c.name
    ensures P.NamesOf(Named([c], names, EMPTY_LINE), c.author) == names
  {
    var k := |names| - 1;
    NamedOnce(c, if names == [] then [] else names[..k]);
    if names != [] {
      NamedOnly(c, names[..k]);
      assert names == names[..k] + [c.name];
    }
  }

  lemma {:induction false} NamedOnce(c: P.Candidate, before: seq<Name>)
    requires P.Eligible(c)
    ensures Named([c], before + [c.name], EMPTY_LINE) == Named([c], before, EMPTY_LINE) + [c]
    ensures Named([c], [], EMPTY_LINE) == [] && P.NamesOf([], c.author) == []
    ensures P.NamesOf(Named([c], before, EMPTY_LINE) + [c], c.author) == P.NamesOf(Named([c], before, EMPTY_LINE), c.author) + [c.name]
  {
    var more, pool := before + [c.name], Named([c], before, EMPTY_LINE);
    assert more[..|more| - 1] == before && (pool + [c])[..|pool|] == pool;
    assert RecordOf([c], c.name) == Some(c);
  }

  /** One delay-1 factor with an XML, named twice, groups of one: it ends in two rosters. */
  lemma DuplicateNameBreaksDisjointness(e: Env, c: P.Candidate)
    requires P.Eligible(c) && HasXml(e, c.name)
    ensures !Valid(Bootstrapped(EMPTY_LINE, e, [c], [c.name, c.name], 1, {}, {}))
  {
    var pool := Pool([c], [c.name, c.name], EMPTY_LINE);
    NamedAgain(c, [c.name, c.name]);
    P.ChunkIs(NamesIn(pool, c.author), 1, 0);
    P.ChunkIs(NamesIn(pool, c.author), 1, 1);
    P.TimesNext(0, 1);
    assert EndsMatter(e, {}, pool, 1, c.author, 0, 1);
    EmptyIsSane();
    BootstrapExactly(EMPTY_LINE, e, [c], [c.name, c.name], 1, {}, {});
  }

  lemma EmptyIsSane()
    ensures Sane(EMPTY_LINE)
  {
  }

  /** Named three times, groups of two: the first group repeats it and gets no roster, so although the cut is between equal
      names the factor ends in one roster only. */
  lemma RepeatInsideBuildsNothing(e: Env, c: P.Candidate)
    requires P.Eligible(c)
    ensures var names := [c.name, c.name, c.name];
            && !CutsDiffer(Pool([c], names, EMPTY_LINE), 2)
            && Valid(Bootstrapped(EMPTY_LINE, e, [c], names, 2, {}, {}))
  {
    var names := [c.name, c.name, c.name];
    var pool := Pool([c], names, EMPTY_LINE);
    NamedAgain(c, [c.name, c.name, c.name]);
    P.TimesNext(0, 2);
    assert P.Times(1, 2) == 2;
    assert NamesIn(pool, c.author)[1] == NamesIn(pool, c.author)[2];
    forall a, k, d
      ensures !EndsMatter(e, {}, pool, 2, a, k, d)
    {
      FirstGroupRepeats(c, a);
      if 0 <= k < d {
        P.ChunkIs(NamesIn(pool, a), 2, d);
        P.ChunksApart(2, k, d);
        assert P.Times(k, 2) == 2 * k;
      }
    }
    EmptyIsSane();
    BootstrapExactly(EMPTY_LINE, e, [c], names, 2, {}, {});
  }

  lemma FirstGroupRepeats(c: P.Candidate, a: string)
    requires P.Eligible(c)
    ensures var names := NamesIn(Pool([c], [c.name, c.name, c.name], EMPTY_LINE), a);
            |names| <= 3 && (|names| > 2 ==> Repeats(P.ChunkAt(names, 2, 0)))
  {
    var pool := Pool([c], [c.name, c.name, c.name], EMPTY_LINE);
    var names := NamesIn(pool, a);
    NamedAgain(c, [c.name, c.name, c.name]);
    if names != [] {
      P.SortMembers(P.NamesOf(pool, a), names[0]);
      var r := NameHasRecord(pool, a, names[0]);
      PoolIs([c], [c.name, c.name, c.name], EMPTY_LINE, r);
      P.ChunkIs(names, 2, 0);
      P.TimesNext(0, 2);
      assert |names| > 2 ==> P.ChunkAt(names, 2, 0)[0] == P.ChunkAt(names, 2, 0)[1];
    }
  }

  // ------------------------------------------------------------------ the script

  method MakePool(records: Records, names: seq<Name>, l: Line) returns (pool: Records)
    ensures pool == Pool(records, names, l)
  {
    pool := [];
    var i := 0;
    if names == [] {
      while i < |records|
        invariant 0 <= i <= |records| && pool == Unplaced(records[..i], l)
      {
        assert records[..i + 1][..i] == records[..i];
        if P.Eligible(records[i]) && !InSomeGroup(l, records[i].name) {
          pool := pool + [records[i]];
        }
        i := i + 1;
      }
      assert records[..|records|] == records;
    } else {
      while i < |names|
        invariant 0 <= i <= |names| && pool == Named(records, names[..i], l)
      {
        assert names[..i + 1][..i] == names[..i];
        var record := RecordOf(records, names[i]);
        if !InSomeGroup(l, names[i]) && record.Some? {
          pool := pool + [record.value];
        }
        i := i + 1;
      }
      assert names[..|names|] == names;
    }
  }

  method MakePlan(e: Env, conflicted: set<seq<Name>>, specs: seq<P.GroupSpec>, used: set<Gid>) returns (plan: seq<Planned>)
    ensures plan == Plan(e, conflicted, specs, used)
  {
    plan := [];
    var i := 0;
    while i < |specs|
      invariant 0 <= i <= |specs| && plan == Plan(e, conflicted, specs[..i], used)
    {
      assert specs[..i + 1][..i] == specs[..i];
      var g, _ := P.NextGid(used + GidsOf(plan));
      if Ready(e, conflicted, specs[i].members) {
        plan := plan + [Planned(g, specs[i].members)];
      }
      i := i + 1;
    }
    assert specs[..|specs|] == specs;
  }

  /** The build loop; a group that fails does not stop it. */
  method BuildAll(line: ProductionLine, e: Env, plan: seq<Planned>) returns (built: nat, failed: nat)
    requires forall x <- plan :: forall f <- x.members :: f in e.live
    modifies line
    ensures line.View() == Build(old(line.View()), e, plan)
    ensures built + failed == |plan| && (failed == 0 <==> forall x <- plan :: !Repeats(x.members))
  {
    hide Sealed, Wrecked, Repeats;
    built, failed := 0, 0;
    var i := 0;
    while i < |plan|
      invariant 0 <= i <= |plan| && line.View() == Build(old(line.View()), e, plan[..i])
      invariant built + failed == i && (failed == 0 <==> forall k :: 0 <= k < i ==> !Repeats(plan[k].members))
    {
      assert plan[..i + 1][..i] == plan[..i];
      var ok := line.SealGroup(e, plan[i].gid, plan[i].members);
      built, failed := if ok then built + 1 else built, if ok then failed else failed + 1;
      i := i + 1;
    }
    assert plan[..|plan|] == plan;
  }

  /** The whole script with --apply. A group size of zero ends it with an exception as soon as somebody is to be placed, a
      negative one makes no groups. */
  method Bootstrap(line: ProductionLine, e: Env, records: Records, names: seq<Name>, size: int, used: set<Gid>, conflicted: set<seq<Name>>)
    returns (ends: bool, built: nat, failed: nat)
    modifies line
    ensures line.View() == if size >= 1 then Bootstrapped(old(line.View()), e, records, names, size, used, conflicted) else old(line.View())
    ensures ends <==> size != 0 || P.Authors(Pool(records, names, old(line.View()))) == []
  {
    var pool := MakePool(records, names, line.View());
    var specs := P.Partition(pool, size);
    if specs.None? {
      return false, 0, 0;
    }
    var plan := MakePlan(e, conflicted, specs.value, used);
    if size >= 1 {
      forall m | 0 <= m < |plan|
        ensures forall f <- plan[m].members :: f in e.live
      {
        var i := PlannedIsReady(e, conflicted, P.PartitionOf(pool, size), used, m);
      }
    }
    ends := true;
    built, failed := BuildAll(line, e, plan);
  }
}
