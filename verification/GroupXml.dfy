// Merging the archived XML of several factors into one group.xml (ops/core/prodgroup.py:137-226).
module GroupXml {
  import opened Prelude
  import opened Ordering
  import opened Rewrite

  type Name = string

  /** An XML element: attributes without their @, children by tag. */
  datatype Node = Node(attrs: map<string, string>, kids: seq<(string, Node)>)

  /** The gsim element of one factor, cut where the merge cuts it; `rest` is Portfolio without Alpha and Stats. */
  datatype Cfg = Cfg(
    constants: Option<Node>,
    universe: Option<Node>,
    data: seq<Node>,
    alphaMods: seq<Node>,
    rest: seq<(string, Node)>,
    stats: Option<Node>,
    alpha: Option<Node>)

  datatype Group = Group(
    constants: Node,
    universe: Option<Node>,
    data: seq<Node>,
    alphaMods: seq<Node>,
    rest: seq<(string, Node)>,
    stats: Node,
    legs: seq<Node>)

  datatype Params = Params(codeDir: string, checkpointDir: string, dumpRoot: string, pnlRoot: string)

  datatype Conflict = EmptyGroup | UniverseDiffers(name: Name) | DataDiffers(name: Name, id: string) | NoAlpha(name: Name)

  /** KeyMissing: the first factor has no Constants or no Portfolio/Stats, which the code does not check for. */
  datatype MergeResult = Merged(gsim: Group) | Conflicts(found: seq<Conflict>) | KeyMissing

  // ------------------------------------------------------------------ pieces

  /** str(node.get("@id")) */
  function IdOf(node: Node): string {
    if "id" in node.attrs then node.attrs["id"] else "None"
  }

  function With(node: Node, key: string, value: string): Node {
    node.(attrs := node.attrs[key := value])
  }

  /** _frozen_module: a .py module is found in the group's frozen copy under its own file name. */
  function Frozen(node: Node, factor: Name, codeDir: string): Node {
    var m := if "module" in node.attrs then node.attrs["module"] else "";
    if EndsWith(m, ".py") then With(node, "module", codeDir + "/" + factor + "/" + Basename(m)) else node
  }

  function FrozenAll(mods: seq<Node>, factor: Name, codeDir: string): (r: seq<Node>)
    ensures |r| == |mods| && forall i :: 0 <= i < |r| ==> r[i] == Frozen(mods[i], factor, codeDir)
  {
    seq(|mods|, i requires 0 <= i < |mods| => Frozen(mods[i], factor, codeDir))
  }

  /** A leg is its factor's Portfolio/Alpha with two dump attributes. */
  function Patched(node: Node, dumpRoot: string): Node {
    With(With(node, "dumpAlphaFile", "true"), "dumpAlphaDir", dumpRoot)
  }

  lemma PatchedDiffersInTwoAttributes(node: Node, dumpRoot: string)
    ensures var p := Patched(node, dumpRoot);
            && p.kids == node.kids
            && p.attrs.Keys == node.attrs.Keys + {"dumpAlphaFile", "dumpAlphaDir"}
            && (forall k :: k in node.attrs && k != "dumpAlphaFile" && k != "dumpAlphaDir" ==> p.attrs[k] == node.attrs[k])
            && p.attrs["dumpAlphaFile"] == "true" && p.attrs["dumpAlphaDir"] == dumpRoot
            && IdOf(p) == IdOf(node)
  {
    assert "dumpAlphaFile"[4] != "dumpAlphaDir"[4] || |"dumpAlphaFile"| != |"dumpAlphaDir"|;
    assert |"id"| == 2;
  }

  // ------------------------------------------------------------------ when the legs can be merged

  /** Declarations with the same id are the same. */
  ghost predicate Coherent(nodes: seq<Node>) {
    forall i, j :: 0 <= i < |nodes| && 0 <= j < |nodes| && IdOf(nodes[i]) == IdOf(nodes[j]) ==> nodes[i] == nodes[j]
  }

  function AllData(legs: seq<(Name, Cfg)>): seq<Node> {
    if legs == [] then [] else AllData(legs[..|legs| - 1]) + legs[|legs| - 1].1.data
  }

  function AllMods(legs: seq<(Name, Cfg)>, codeDir: string): seq<Node> {
    if legs == [] then []
    else AllMods(legs[..|legs| - 1], codeDir) + FrozenAll(legs[|legs| - 1].1.alphaMods, legs[|legs| - 1].0, codeDir)
  }

  ghost predicate Agree(legs: seq<(Name, Cfg)>, universe: Option<Node>) {
    && Coherent(AllData(legs))
    && forall i :: 0 <= i < |legs| ==> legs[i].1.universe == universe && legs[i].1.alpha.Some?
  }

  ghost predicate Mergeable(legs: seq<(Name, Cfg)>) {
    legs != [] && Agree(legs, legs[0].1.universe)
  }

  /** Each id's first declaration, in the order in which ids first appear. */
  function FirstOfEach(nodes: seq<Node>): seq<Node> {
    if nodes == [] then []
    else
      var before, d := FirstOfEach(nodes[..|nodes| - 1]), nodes[|nodes| - 1];
      if exists i :: 0 <= i < |before| && IdOf(before[i]) == IdOf(d) then before else before + [d]
  }

  /** Each id once, as it was first declared, and everything declared is there. */
  ghost predicate Firsts(seen: seq<Node>, first: map<string, Node>, datas: seq<Node>) {
    && datas == FirstOfEach(seen)
    && (forall i, j :: 0 <= i < j < |datas| ==> IdOf(datas[i]) != IdOf(datas[j]))
    && (forall d <- datas :: d in seen && IdOf(d) in first && first[IdOf(d)] == d)
    && (forall id <- first :: first[id] in datas && IdOf(first[id]) == id)
    && (forall d <- seen :: IdOf(d) in first)
  }

  lemma DeclareKeepsFirsts(seen: seq<Node>, first: map<string, Node>, datas: seq<Node>, d: Node)
    requires Firsts(seen, first, datas)
    ensures IdOf(d) in first ==> Firsts(seen + [d], first, datas)
    ensures IdOf(d) !in first ==> Firsts(seen + [d], first[IdOf(d) := d], datas + [d])
  {
    assert (seen + [d])[..|seen|] == seen;
    if IdOf(d) in first {
      assert first[IdOf(d)] in datas;
    } else {
      assert forall i :: 0 <= i < |datas| ==> datas[i] in datas;
    }
  }

  lemma DeclaredEarlier(seen: seq<Node>, first: map<string, Node>, datas: seq<Node>, d: Node) returns (m: nat)
    requires Firsts(seen, first, datas) && IdOf(d) in first
    ensures m < |seen| && seen[m] == first[IdOf(d)] && IdOf(seen[m]) == IdOf(d)
  {
    assert first[IdOf(d)] in datas;
    m :| 0 <= m < |seen| && seen[m] == first[IdOf(d)];
  }

  lemma DeclareClash(seen: seq<Node>, first: map<string, Node>, datas: seq<Node>, d: Node)
    requires Firsts(seen, first, datas) && Coherent(seen + [d])
    ensures Coherent(seen) && (IdOf(d) in first ==> first[IdOf(d)] == d)
  {
    var more := seen + [d];
    assert forall i :: 0 <= i < |seen| ==> more[i] == seen[i];
    if IdOf(d) in first {
      var m := DeclaredEarlier(seen, first, datas, d);
      assert more[m] == seen[m] && more[|seen|] == d;
    }
  }

  lemma DeclareSame(seen: seq<Node>, first: map<string, Node>, datas: seq<Node>, d: Node)
    requires Firsts(seen, first, datas) && Coherent(seen) && (IdOf(d) in first ==> first[IdOf(d)] == d)
    ensures Coherent(seen + [d])
  {
    var more := seen + [d];
    forall k | 0 <= k < |seen| && IdOf(seen[k]) == IdOf(d)
      ensures seen[k] == d
    {
      assert seen[k] in seen;
      var m := DeclaredEarlier(seen, first, datas, d);
    }
  }

  // ------------------------------------------------------------------ the merge

  function ByName(leg: (Name, Node)): string { leg.0 }

  function Nodes(legs: seq<(Name, Node)>): (r: seq<Node>)
    ensures |r| == |legs| && forall i :: 0 <= i < |r| ==> r[i] == legs[i].1
  {
    seq(|legs|, i requires 0 <= i < |legs| => legs[i].1)
  }

  function Legs(legs: seq<(Name, Cfg)>, dumpRoot: string): (r: seq<(Name, Node)>)
    requires forall i :: 0 <= i < |legs| ==> legs[i].1.alpha.Some?
    ensures |r| == |legs| && forall i :: 0 <= i < |r| ==> r[i] == (legs[i].0, Patched(legs[i].1.alpha.value, dumpRoot))
  {
    seq(|legs|, i requires 0 <= i < |legs| => (legs[i].0, Patched(legs[i].1.alpha.value, dumpRoot)))
  }

  /** What a merged group is. */
  ghost predicate Merges(legs: seq<(Name, Cfg)>, p: Params, g: Group)
    requires Mergeable(legs)
  {
    var head := legs[0].1;
    && g.universe == head.universe && g.rest == head.rest
    && head.constants.Some? && g.constants == With(head.constants.value, "checkpointDir", p.checkpointDir)
    && head.stats.Some? && g.stats == With(With(head.stats.value, "pnlDir", p.pnlRoot), "dumpPnl", "true")
    && (forall i, j :: 0 <= i < j < |g.data| ==> IdOf(g.data[i]) != IdOf(g.data[j]))
    && (forall d :: d in g.data <==> d in AllData(legs)) && g.data == FirstOfEach(AllData(legs))
    && g.alphaMods == AllMods(legs, p.codeDir)
    && g.legs == Nodes(Sort(Legs(legs, p.dumpRoot), ByName))
  }

  /** One Data declaration of one factor. */
  method Declare(name: Name, d: Node, first0: map<string, Node>, datas0: seq<Node>, found0: seq<Conflict>, ghost seen: seq<Node>)
    returns (first: map<string, Node>, datas: seq<Node>, found: seq<Conflict>)
    requires Firsts(seen, first0, datas0) && (found0 == [] ==> Coherent(seen))
    ensures Firsts(seen + [d], first, datas)
    ensures found == [] <==> found0 == [] && Coherent(seen + [d])
  {
    first, datas, found := first0, datas0, found0;
    DeclareKeepsFirsts(seen, first, datas, d);
    if Coherent(seen + [d]) {
      DeclareClash(seen, first, datas, d);
    }
    if IdOf(d) in first && first[IdOf(d)] != d {
      found := found + [DataDiffers(name, IdOf(d))];
    } else if found == [] {
      DeclareSame(seen, first, datas, d);
    }
    if IdOf(d) !in first {
      first, datas := first[IdOf(d) := d], datas + [d];
    }
  }

  lemma CoherentPrefix(s: seq<Node>, t: seq<Node>)
    requires Coherent(s + t)
    ensures Coherent(s)
  {
    assert forall i :: 0 <= i < |s| ==> (s + t)[i] == s[i];
  }

  method DeclareAll(name: Name, data: seq<Node>, first0: map<string, Node>, datas0: seq<Node>, found0: seq<Conflict>, ghost seen: seq<Node>)
    returns (first: map<string, Node>, datas: seq<Node>, found: seq<Conflict>)
    requires Firsts(seen, first0, datas0) && (found0 == [] ==> Coherent(seen))
    ensures Firsts(seen + data, first, datas)
    ensures found == [] <==> found0 == [] && Coherent(seen + data)
  {
    first, datas, found := first0, datas0, found0;
    ghost var sofar := seen;
    var i := 0;
    while i < |data|
      invariant 0 <= i <= |data| && sofar == seen + data[..i]
      invariant Firsts(sofar, first, datas)
      invariant found == [] <==> found0 == [] && Coherent(sofar)
    {
      Snoc(seen, data, i);
      Coherence(sofar, data[i]);
      first, datas, found := Declare(name, data[i], first, datas, found, sofar);
      sofar := sofar + [data[i]];
      i := i + 1;
    }
    assert data[..|data|] == data;
  }

  lemma Snoc(seen: seq<Node>, data: seq<Node>, i: nat)
    requires i < |data|
    ensures seen + data[..i + 1] == (seen + data[..i]) + [data[i]]
  {
  }

  lemma Coherence(seen: seq<Node>, d: Node)
    ensures Coherent(seen + [d]) ==> Coherent(seen)
  {
    if Coherent(seen + [d]) {
      CoherentPrefix(seen, [d]);
    }
  }

  /** One factor of the loop: universe, data, modules, leg. */
  method MergeOne(name: Name, cfg: Cfg, universe: Option<Node>, first0: map<string, Node>, datas0: seq<Node>, found0: seq<Conflict>, ghost seen: seq<Node>)
    returns (first: map<string, Node>, datas: seq<Node>, found: seq<Conflict>)
    requires Firsts(seen, first0, datas0) && (found0 == [] ==> Coherent(seen))
    ensures Firsts(seen + cfg.data, first, datas)
    ensures found == [] <==> found0 == [] && Coherent(seen + cfg.data) && cfg.universe == universe && cfg.alpha.Some?
  {
    found := found0;
    if cfg.universe != universe {
      found := found + [UniverseDiffers(name)];
    }
    first, datas, found := DeclareAll(name, cfg.data, first0, datas0, found, seen);
    if cfg.alpha.None? {
      found := found + [NoAlpha(name)];
    }
  }

  /** The loop over the factors. */
  method MergeAll(legs: seq<(Name, Cfg)>, p: Params)
    returns (datas: seq<Node>, mods: seq<Node>, nodes: seq<(Name, Node)>, found: seq<Conflict>, ghost first: map<string, Node>)
    requires legs != []
    ensures found == [] <==> Mergeable(legs)
    ensures Firsts(AllData(legs), first, datas) && mods == AllMods(legs, p.codeDir)
    ensures found == [] ==> nodes == Legs(legs, p.dumpRoot)
  {
    hide Firsts, Coherent, Patched;
    var universe := legs[0].1.universe;
    NothingDeclared();
    var declared: map<string, Node> := map[];
    datas, mods, nodes, found := [], [], [], [];
    var i := 0;
    assert AllData(legs[..0]) == [] && AllMods(legs[..0], p.codeDir) == [];
    while i < |legs|
      invariant 0 <= i <= |legs|
      invariant Firsts(AllData(legs[..i]), declared, datas)
      invariant found == [] <==> Agree(legs[..i], universe)
      invariant mods == AllMods(legs[..i], p.codeDir)
      invariant found == [] ==> nodes == Legs(legs[..i], p.dumpRoot)
    {
      var name, cfg := legs[i].0, legs[i].1;
      assert legs[..i + 1][..i] == legs[..i] && legs[..i + 1][i] == legs[i];
      AgreeNext(legs, i, universe);
      declared, datas, found := MergeOne(name, cfg, universe, declared, datas, found, AllData(legs[..i]));
      mods := mods + FrozenAll(cfg.alphaMods, name, p.codeDir);
      if cfg.alpha.Some? {
        nodes := nodes + [(name, Patched(cfg.alpha.value, p.dumpRoot))];
      }
      if found == [] {
        assert forall j :: 0 <= j <= i ==> legs[j] == legs[..i + 1][j];
      }
      i := i + 1;
    }
    assert legs[..|legs|] == legs;
    first := declared;
  }

  /** build_group_xml. It reports no conflict exactly when the factors can be merged, and then, if the first one has the
      two elements whose absence the code does not check, the group is what Merges says. */
  method BuildGroupXml(legs: seq<(Name, Cfg)>, p: Params) returns (r: MergeResult)
    ensures r.Conflicts? <==> !Mergeable(legs)
    ensures r.Conflicts? ==> r.found != []
    ensures Mergeable(legs) ==> (r.Merged? <==> legs[0].1.constants.Some? && legs[0].1.stats.Some?)
    ensures r.Merged? ==> Merges(legs, p, r.gsim)
  {
    if legs == [] {
      return Conflicts([EmptyGroup]);
    }
    var head := legs[0].1;
    ghost var first;
    var datas, mods, nodes, found;
    datas, mods, nodes, found, first := MergeAll(legs, p);
    if found != [] {
      return Conflicts(found);
    }
    if head.constants.None? || head.stats.None? {
      return KeyMissing;
    }
    r := Merged(Group(With(head.constants.value, "checkpointDir", p.checkpointDir), head.universe, datas, mods, head.rest,
                      With(With(head.stats.value, "pnlDir", p.pnlRoot), "dumpPnl", "true"), Nodes(Sort(nodes, ByName))));
  }

  lemma NothingDeclared()
    ensures Firsts([], map[], []) && Coherent([])
  {
  }

  lemma AgreeNext(legs: seq<(Name, Cfg)>, i: nat, universe: Option<Node>)
    requires i < |legs|
    ensures var cfg := legs[i].1;
            && AllData(legs[..i + 1]) == AllData(legs[..i]) + cfg.data
            && (Agree(legs[..i + 1], universe) <==>
                  Agree(legs[..i], universe) && Coherent(AllData(legs[..i]) + cfg.data) && cfg.universe == universe && cfg.alpha.Some?)
  {
    assert legs[..i + 1][..i] == legs[..i] && legs[..i + 1][i] == legs[i];
    if Coherent(AllData(legs[..i]) + legs[i].1.data) {
      CoherentPrefix(AllData(legs[..i]), legs[i].1.data);
    }
  }

  // ------------------------------------------------------------------ a fresh group is healthy

  /** group_legs */
  function LegIds(legs: seq<Node>): (ids: seq<Name>)
    ensures |ids| == |legs| && forall i :: 0 <= i < |ids| ==> ids[i] == IdOf(legs[i])
  {
    seq(|legs|, i requires 0 <= i < |legs| => IdOf(legs[i]))
  }

  function NamesOf(legs: seq<(Name, Cfg)>): (names: seq<Name>)
    ensures |names| == |legs| && forall i :: 0 <= i < |names| ==> names[i] == legs[i].0
  {
    seq(|legs|, i requires 0 <= i < |legs| => legs[i].0)
  }

  /** When every archived XML carries its factor's name as @id, the legs of the group are its members in sorted order;
      the roster that bootstrap stores is that sorted list, so sync never takes a fresh group for a corrupted one. */
  lemma FreshGroupIsHealthy(legs: seq<(Name, Cfg)>, p: Params, g: Group)
    requires Mergeable(legs) && Merges(legs, p, g) && Sorted(NamesOf(legs), Self)
    requires forall leg <- legs :: IdOf(leg.1.alpha.value) == leg.0
    ensures LegIds(g.legs) == NamesOf(legs)
  {
    var nodes := Legs(legs, p.dumpRoot);
    forall i, j | 0 <= i < j < |nodes|
      ensures AtMost(ByName(nodes[i]), ByName(nodes[j]))
    {
      assert AtMost(Self(NamesOf(legs)[i]), Self(NamesOf(legs)[j]));
    }
    SortOfSorted(nodes, ByName);
    forall i | 0 <= i < |legs|
      ensures LegIds(g.legs)[i] == legs[i].0
    {
      PatchedDiffersInTwoAttributes(legs[i].1.alpha.value, p.dumpRoot);
    }
  }

  // ------------------------------------------------------------------ what is in a merged group

  /** A module that is a Python file points into the frozen copy, under its own file name; other modules and all other attributes
      stay. An element without id goes by None. */
  lemma FrozenModule(node: Node, factor: Name, codeDir: string, file: string)
    requires '/' !in file
    ensures var r, m := Frozen(node, factor, codeDir), if "module" in node.attrs then node.attrs["module"] else "";
            && r.kids == node.kids
            && (EndsWith(m, ".py") && LeadsTo(m, file) ==> r.attrs == node.attrs["module" := codeDir + "/" + factor + "/" + file])
            && (!EndsWith(m, ".py") ==> r == node)
    ensures IdOf(Node(map[], [])) == "None" && IdOf(Node(map["id" := file], [])) == file
  {
    if LeadsTo(if "module" in node.attrs then node.attrs["module"] else "", file) {
      BasenameIs(if "module" in node.attrs then node.attrs["module"] else "", file);
    }
  }

  /** The modules of the group are those of the factors, in order, each frozen for its factor. */
  lemma {:induction false} ModsOfLeg(legs: seq<(Name, Cfg)>, codeDir: string, i: nat, j: nat) returns (k: nat)
    requires i < |legs| && j < |legs[i].1.alphaMods|
    ensures k < |AllMods(legs, codeDir)| && AllMods(legs, codeDir)[k] == Frozen(legs[i].1.alphaMods[j], legs[i].0, codeDir)
    ensures k == |AllMods(legs[..i], codeDir)| + j
  {
    var last := |legs| - 1;
    if i == last {
      k := |AllMods(legs[..last], codeDir)| + j;
    } else {
      k := ModsOfLeg(legs[..last], codeDir, i, j);
      assert legs[..last][..i] == legs[..i];
    }
  }

  /** No earlier declaration has the id of declaration k. */
  predicate IsFirst(nodes: seq<Node>, k: nat) {
    k < |nodes| && forall j :: 0 <= j < k ==> IdOf(nodes[j]) != IdOf(nodes[k])
  }

  predicate Declares(nodes: seq<Node>, id: string) {
    exists i :: 0 <= i < |nodes| && IdOf(nodes[i]) == id
  }

  lemma {:induction false} DeclaresWith(nodes: seq<Node>, d: Node, id: string)
    ensures Declares(nodes + [d], id) <==> Declares(nodes, id) || IdOf(d) == id
  {
    if i :| 0 <= i < |nodes| && IdOf(nodes[i]) == id {
      assert (nodes + [d])[i] == nodes[i];
    }
    assert (nodes + [d])[|nodes|] == d;
  }

  /** The group declares the ids that the factors declare. */
  lemma {:induction false} SameIds(nodes: seq<Node>, id: string)
    ensures Declares(FirstOfEach(nodes), id) <==> Declares(nodes, id)
  {
    if nodes != [] {
      var k := |nodes| - 1;
      var before := FirstOfEach(nodes[..k]);
      SameIds(nodes[..k], id);
      assert nodes == nodes[..k] + [nodes[k]];
      DeclaresWith(nodes[..k], nodes[k], id);
      DeclaresWith(before, nodes[k], id);
      assert FirstOfEach(nodes) == if Declares(before, IdOf(nodes[k])) then before else before + [nodes[k]];
      hide FirstOfEach, IdOf;
    }
  }

  lemma FirstBefore(nodes: seq<Node>, last: nat, k: nat)
    requires last < |nodes|
    ensures IsFirst(nodes[..last], k) <==> k < last && IsFirst(nodes, k)
    ensures Declares(nodes[..last], IdOf(nodes[last])) <==> !IsFirst(nodes, last)
  {
    hide IdOf;
    var init := nodes[..last];
    assert forall i :: 0 <= i < last ==> init[i] == nodes[i];
  }

  lemma {:induction false} FirstNext(nodes: seq<Node>, k: nat)
    requires nodes != []
    ensures var last := |nodes| - 1;
            && FirstOfEach(nodes) == FirstOfEach(nodes[..last]) + (if IsFirst(nodes, last) then [nodes[last]] else [])
            && (IsFirst(nodes, k) <==> IsFirst(nodes[..last], k) || (k == last && IsFirst(nodes, last)))
  {
    var last := |nodes| - 1;
    var before, d := FirstOfEach(nodes[..last]), nodes[last];
    assert FirstOfEach(nodes) == if Declares(before, IdOf(d)) then before else before + [d];
    SameIds(nodes[..last], IdOf(d));
    FirstBefore(nodes, last, k);
    assert k >= |nodes| ==> !IsFirst(nodes, k);
    hide IdOf, IsFirst, Declares, FirstOfEach;
  }

  /** The declarations of the group are those that are the first with their id, in the order of declaration. */
  lemma {:induction false} DataInOrder(nodes: seq<Node>) returns (at: seq<nat>)
    ensures |at| == |FirstOfEach(nodes)| && forall i, j :: 0 <= i < j < |at| ==> at[i] < at[j]
    ensures forall i :: 0 <= i < |at| ==> at[i] < |nodes| && FirstOfEach(nodes)[i] == nodes[at[i]]
    ensures forall k: nat :: k in at <==> IsFirst(nodes, k)
  {
    at := [];
    if nodes != [] {
      var last := |nodes| - 1;
      at := DataInOrder(nodes[..last]);
      forall k: nat
        ensures IsFirst(nodes, k) <==> IsFirst(nodes[..last], k) || (k == last && IsFirst(nodes, last))
      {
        FirstNext(nodes, k);
      }
      FirstNext(nodes, last);
      hide IsFirst, FirstOfEach;
      at := at + if IsFirst(nodes, last) then [last] else [];
    }
  }

  lemma {:induction false} DataOfLeg(legs: seq<(Name, Cfg)>, i: nat, j: nat) returns (k: nat)
    requires i < |legs| && j < |legs[i].1.data|
    ensures k == |AllData(legs[..i])| + j && k < |AllData(legs)| && AllData(legs)[k] == legs[i].1.data[j]
  {
    var last := |legs| - 1;
    if i == last {
      k := |AllData(legs[..last])| + j;
    } else {
      k := DataOfLeg(legs[..last], i, j);
      assert legs[..last][..i] == legs[..i];
    }
  }

  lemma {:induction false} AllModsCount(legs: seq<(Name, Cfg)>, codeDir: string)
    ensures |AllMods(legs, codeDir)| == ModCount(legs)
  {
    if legs != [] {
      AllModsCount(legs[..|legs| - 1], codeDir);
    }
  }

  function ModCount(legs: seq<(Name, Cfg)>): nat {
    if legs == [] then 0 else ModCount(legs[..|legs| - 1]) + |legs[|legs| - 1].1.alphaMods|
  }

  /** The group's own places and switches are set; the rest of Constants, Stats, Universe and Portfolio is the first factor's. */
  lemma {:induction false} MergedValues(legs: seq<(Name, Cfg)>, p: Params, g: Group)
    requires Mergeable(legs) && Merges(legs, p, g)
    ensures legs[0].1.constants.Some? && g.constants.attrs == legs[0].1.constants.value.attrs["checkpointDir" := p.checkpointDir]
    ensures g.constants.kids == legs[0].1.constants.value.kids && g.universe == legs[0].1.universe && g.rest == legs[0].1.rest
    ensures legs[0].1.stats.Some? && g.stats.kids == legs[0].1.stats.value.kids
    ensures g.stats.attrs == legs[0].1.stats.value.attrs["pnlDir" := p.pnlRoot]["dumpPnl" := "true"]
    ensures g.data == FirstOfEach(AllData(legs)) && g.alphaMods == AllMods(legs, p.codeDir) && |g.alphaMods| == ModCount(legs)
  {
    AllModsCount(legs, p.codeDir);
  }

  /** The legs are the factors' own Portfolio/Alpha elements, one for each, made to dump into the group's place and put in order
      of the factors' names. */
  lemma MergedLegs(legs: seq<(Name, Cfg)>, p: Params, g: Group, given: seq<(Name, Node)>) returns (sorted: seq<(Name, Node)>)
    requires Mergeable(legs) && Merges(legs, p, g)
    requires |given| == |legs| && forall i :: 0 <= i < |given| ==> given[i].0 == legs[i].0 && LegOf(legs, p, i, given[i].1)
    ensures multiset(sorted) == multiset(given) && |g.legs| == |sorted| && forall i :: 0 <= i < |sorted| ==> g.legs[i] == sorted[i].1
    ensures forall i, j :: 0 <= i < j < |sorted| ==> AtMost(sorted[i].0, sorted[j].0)
  {
    var named := Legs(legs, p.dumpRoot);
    assert named == given;
    sorted := Sort(named, ByName);
    SortElements(named, ByName);
    SortSorted(named, ByName);
    forall i, j | 0 <= i < j < |sorted|
      ensures AtMost(sorted[i].0, sorted[j].0)
    {
      assert AtMost(ByName(sorted[i]), ByName(sorted[j]));
    }
  }

  ghost predicate LegOf(legs: seq<(Name, Cfg)>, p: Params, i: int, leg: Node) {
    0 <= i < |legs| && legs[i].1.alpha.Some? && leg.kids == legs[i].1.alpha.value.kids
    && leg.attrs == legs[i].1.alpha.value.attrs["dumpAlphaFile" := "true"]["dumpAlphaDir" := p.dumpRoot]
  }
}
