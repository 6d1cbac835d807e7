// Productionising a whole XML document (ops/core/prodxml.py:95-222): SET, then REPLACE, then STRIP, over an attribute
// tree; what is written into the modules; and when a second run changes nothing.
module ProdXml {
  import opened Prelude
  import opened Rewrite
  import opened ProdRules

  type Attrs = map<string, string>

  /** An element: its attributes, and its children of every tag. */
  datatype Xml = Xml(attrs: Attrs, kids: seq<Xml>)

  datatype Modules = NoModules | Modules(attrs: Attrs, alphas: seq<Xml>, datas: seq<Xml>, others: seq<Xml>)

  datatype Portfolio = Portfolio(attrs: Attrs, stats: Xml, alpha: Xml, others: seq<Xml>)

  /** The gsim element with the nodes that the rules name. */
  datatype Gsim = Gsim(attrs: Attrs, constants: Xml, universe: Xml, modules: Modules, portfolio: Portfolio, others: seq<Xml>)

  datatype Params = Params(
    nioDataPath: string, enddate: string, startdate: string, backdays: string, checkpointRoot: string, dumpRoot: string, pnlRoot: string,
    datasvcPrefix: string, modulePrefix: string)

  // ------------------------------------------------------------------ SET

  function Set1(x: Xml, key: string, value: string): Xml {
    x.(attrs := x.attrs[key := value])
  }

  function TrimSlash(s: string): string {
    if s != [] && s[|s| - 1] == '/' then TrimSlash(s[..|s| - 1]) else s
  }

  const PY := ".py"

  function ModuleOf(x: Xml): string {
    if "module" in x.attrs then x.attrs["module"] else ""
  }

  /** First node among nodes[i..] that satisfies the two tests; |nodes| if none does. */
  function FirstPy(nodes: seq<Xml>, i: nat): (k: nat)
    requires i <= |nodes|
    ensures i <= k <= |nodes| && (forall j :: i <= j < k ==> !EndsWith(ModuleOf(nodes[j]), PY))
    ensures k < |nodes| ==> EndsWith(ModuleOf(nodes[k]), PY)
    decreases |nodes| - i
  {
    if i == |nodes| || EndsWith(ModuleOf(nodes[i]), PY) then i else FirstPy(nodes, i + 1)
  }

  predicate IsOwn(x: Xml, name: string) {
    EndsWith(ModuleOf(x), PY) && Basename(ModuleOf(x)) == name + PY
  }

  function FirstOwn(nodes: seq<Xml>, name: string, i: nat): (k: nat)
    requires i <= |nodes|
    ensures i <= k <= |nodes| && (forall j :: i <= j < k ==> !IsOwn(nodes[j], name))
    ensures k < |nodes| ==> IsOwn(nodes[k], name)
    decreases |nodes| - i
  {
    if i == |nodes| || IsOwn(nodes[i], name) then i else FirstOwn(nodes, name, i + 1)
  }

  /** _alpha_module_node: the only node; else the one whose file is the factor's; else the first .py; else the first. */
  function ModuleIndex(nodes: seq<Xml>, name: string): (k: nat)
    requires nodes != []
    ensures k < |nodes|
  {
    var own, py := FirstOwn(nodes, name, 0), FirstPy(nodes, 0);
    if |nodes| == 1 then 0
    else if own < |nodes| then own
    else if py < |nodes| then py
    else 0
  }

  method AlphaModuleNode(nodes: seq<Xml>, name: string) returns (k: Option<nat>)
    ensures k == if nodes == [] then None else Some(ModuleIndex(nodes, name))
  {
    if nodes == [] {
      return None;
    }
    if |nodes| == 1 {
      return Some(0);
    }
    var py: Option<nat> := None;
    var i := 0;
    while i < |nodes|
      invariant 0 <= i <= |nodes|
      invariant FirstOwn(nodes, name, 0) == FirstOwn(nodes, name, i)
      invariant FirstPy(nodes, 0) == if py.Some? then py.value else FirstPy(nodes, i)
      invariant py.Some? ==> py.value < |nodes|
    {
      if EndsWith(ModuleOf(nodes[i]), PY) {
        if Basename(ModuleOf(nodes[i])) == name + PY {
          return Some(i);
        }
        if py.None? {
          py := Some(i);
        }
      }
      i := i + 1;
    }
    return if py.Some? then py else Some(0);
  }

  /** The frozen place of the factor's file, under the file name it already has. */
  function ModuleSet(x: Xml, name: string, p: Params): Xml {
    var m := ModuleOf(x);
    var file := if EndsWith(m, PY) then Basename(m) else name + PY;
    Set1(x, "module", TrimSlash(p.modulePrefix) + "/" + name + "/" + file)
  }

  function AlphasSet(alphas: seq<Xml>, name: string, p: Params): (r: seq<Xml>)
    ensures |r| == |alphas|
  {
    if alphas == [] then []
    else
      var k := ModuleIndex(alphas, name);
      alphas[k := ModuleSet(alphas[k], name, p)]
  }

  function SetAll(x: Xml, settings: Attrs): Xml {
    x.(attrs := x.attrs + settings)
  }

  function ConstantsSettings(name: string, p: Params): Attrs {
    map["niodatapath" := p.nioDataPath, "backdays" := p.backdays,
        "checkpointDir" := TrimSlash(p.checkpointRoot) + "/" + name + "/", "checkpointDays" := "5"]
  }

  function UniverseSettings(p: Params): Attrs {
    map["startdate" := p.startdate, "enddate" := p.enddate]
  }

  function StatsSettings(p: Params): Attrs {
    map["pnlDir" := p.pnlRoot, "dumpPnl" := "true"]
  }

  function LegSettings(p: Params): Attrs {
    map["dumpAlphaFile" := "true", "dumpAlphaDir" := p.dumpRoot]
  }

  function ApplySet(g: Gsim, name: string, p: Params): Gsim {
    g.(constants := SetAll(g.constants, ConstantsSettings(name, p)),
       universe := SetAll(g.universe, UniverseSettings(p)),
       portfolio := g.portfolio.(stats := SetAll(g.portfolio.stats, StatsSettings(p)), alpha := SetAll(g.portfolio.alpha, LegSettings(p))),
       modules := if g.modules.NoModules? then NoModules else g.modules.(alphas := AlphasSet(g.modules.alphas, name, p)))
  }

  // ------------------------------------------------------------------ REPLACE: the walker and its three passes

  /** The callbacks of the three walks; Whole is the three together, with the prefix or without. */
  datatype Pass = LegacyPass | MigratePass(prefix: string) | StatsPass | Whole(outside: bool, prefix: string)

  function Rule(pass: Pass, key: string, value: string): string {
    match pass
    case LegacyPass => ApplyRules(LEGACY_RULES, key, value)
    case MigratePass(prefix) => Migrate(value, prefix)
    case StatsPass => StatsUpgrade(key, value)
    case Whole(outside, prefix) => if outside then Elsewhere(key, value, prefix) else InUniverse(key, value)
  }

  function WalkAttrs(attrs: Attrs, pass: Pass): (r: Attrs)
    ensures r.Keys == attrs.Keys
  {
    map k | k in attrs :: Rule(pass, k, attrs[k])
  }

  /** _walk_attrs: every attribute of the element and of everything below it. */
  function Walk(x: Xml, pass: Pass): (r: Xml)
    ensures |r.kids| == |x.kids|
  {
    Xml(WalkAttrs(x.attrs, pass), WalkAll(x.kids, pass))
  }

  function WalkAll(xs: seq<Xml>, pass: Pass): (r: seq<Xml>)
    ensures |r| == |xs| && forall i :: 0 <= i < |r| ==> r[i] == Walk(xs[i], pass)
  {
    if xs == [] then [] else [Walk(xs[0], pass)] + WalkAll(xs[1..], pass)
  }

  function WalkModules(m: Modules, pass: Pass): Modules {
    match m
    case NoModules => NoModules
    case Modules(attrs, alphas, datas, others) =>
      Modules(WalkAttrs(attrs, pass), WalkAll(alphas, pass), WalkAll(datas, pass), WalkAll(others, pass))
  }

  function WalkPortfolio(m: Portfolio, pass: Pass): Portfolio {
    Portfolio(WalkAttrs(m.attrs, pass), Walk(m.stats, pass), Walk(m.alpha, pass), WalkAll(m.others, pass))
  }

  /** A walk over gsim itself, with one pass for Universe and gsim's own attributes and one for the rest. */
  function WalkGsim(g: Gsim, inside: Pass, rest: Pass): Gsim {
    Gsim(WalkAttrs(g.attrs, inside), Walk(g.constants, rest), Walk(g.universe, inside), WalkModules(g.modules, rest),
         WalkPortfolio(g.portfolio, rest), WalkAll(g.others, rest))
  }

  /** Legacy paths everywhere, then the prefix below gsim except in Universe, then the Stats upgrade everywhere. */
  function ApplyReplace(g: Gsim, prefix: string): Gsim {
    var legacy := WalkGsim(g, LegacyPass, LegacyPass);
    var migrated := legacy.(constants := Walk(legacy.constants, MigratePass(prefix)),
                            modules := WalkModules(legacy.modules, MigratePass(prefix)),
                            portfolio := WalkPortfolio(legacy.portfolio, MigratePass(prefix)),
                            others := WalkAll(legacy.others, MigratePass(prefix)));
    WalkGsim(migrated, StatsPass, StatsPass)
  }

  lemma {:induction false} WalkFusesOutside(x: Xml, prefix: string)
    ensures Walk(Walk(Walk(x, LegacyPass), MigratePass(prefix)), StatsPass) == Walk(x, Whole(true, prefix))
  {
    AttrsFuse(x.attrs, prefix);
    WalkAllFusesOutside(x.kids, prefix);
  }

  lemma {:induction false} WalkAllFusesOutside(xs: seq<Xml>, prefix: string)
    ensures WalkAll(WalkAll(WalkAll(xs, LegacyPass), MigratePass(prefix)), StatsPass) == WalkAll(xs, Whole(true, prefix))
  {
    if xs != [] {
      WalkFusesOutside(xs[0], prefix);
      WalkAllFusesOutside(xs[1..], prefix);
    }
  }

  lemma {:induction false} WalkFusesInside(x: Xml, prefix: string)
    ensures Walk(Walk(x, LegacyPass), StatsPass) == Walk(x, Whole(false, prefix))
  {
    AttrsFuse(x.attrs, prefix);
    WalkAllFusesInside(x.kids, prefix);
  }

  lemma {:induction false} WalkAllFusesInside(xs: seq<Xml>, prefix: string)
    ensures WalkAll(WalkAll(xs, LegacyPass), StatsPass) == WalkAll(xs, Whole(false, prefix))
  {
    if xs != [] {
      WalkFusesInside(xs[0], prefix);
      WalkAllFusesInside(xs[1..], prefix);
    }
  }

  lemma AttrsFuse(attrs: Attrs, prefix: string)
    ensures WalkAttrs(WalkAttrs(WalkAttrs(attrs, LegacyPass), MigratePass(prefix)), StatsPass) == WalkAttrs(attrs, Whole(true, prefix))
    ensures WalkAttrs(WalkAttrs(attrs, LegacyPass), StatsPass) == WalkAttrs(attrs, Whole(false, prefix))
  {
    forall k | k in attrs
      ensures ApplyRules(LEGACY_RULES, k, attrs[k]) == Legacy(k, attrs[k])
    {
      LegacyIsTable(k, attrs[k]);
    }
  }

  /** The three walks are one walk, attribute by attribute. */
  lemma ReplaceIsOneWalk(g: Gsim, prefix: string)
    ensures ApplyReplace(g, prefix) == WalkGsim(g, Whole(false, prefix), Whole(true, prefix))
  {
    AttrsFuse(g.attrs, prefix);
    WalkFusesOutside(g.constants, prefix);
    WalkFusesInside(g.universe, prefix);
    if g.modules.Modules? {
      AttrsFuse(g.modules.attrs, prefix);
      WalkAllFusesOutside(g.modules.alphas, prefix);
      WalkAllFusesOutside(g.modules.datas, prefix);
      WalkAllFusesOutside(g.modules.others, prefix);
    }
    AttrsFuse(g.portfolio.attrs, prefix);
    WalkFusesOutside(g.portfolio.stats, prefix);
    WalkFusesOutside(g.portfolio.alpha, prefix);
    WalkAllFusesOutside(g.portfolio.others, prefix);
    WalkAllFusesOutside(g.others, prefix);
  }

  // ------------------------------------------------------------------ STRIP

  const MOD := "Mod"

  function Strip(v: string): string {
    if EndsWith(v, MOD) then v[..|v| - 3] else v
  }

  function Stripped(x: Xml): Xml {
    if "id" in x.attrs then Set1(x, "id", Strip(x.attrs["id"])) else x
  }

  function StripAll(datas: seq<Xml>): (r: seq<Xml>)
    ensures |r| == |datas| && forall i :: 0 <= i < |r| ==> r[i] == Stripped(datas[i])
  {
    seq(|datas|, i requires 0 <= i < |datas| => Stripped(datas[i]))
  }

  /** _apply_strip's loop. */
  method ApplyStrip(datas: seq<Xml>) returns (r: seq<Xml>)
    ensures r == StripAll(datas)
  {
    r := datas;
    var i := 0;
    while i < |datas|
      invariant 0 <= i <= |datas| == |r|
      invariant forall j :: 0 <= j < |r| ==> r[j] == if j < i then Stripped(datas[j]) else datas[j]
    {
      if "id" in r[i].attrs && EndsWith(r[i].attrs["id"], MOD) {
        r := r[i := Set1(r[i], "id", r[i].attrs["id"][..|r[i].attrs["id"]| - 3])];
      } else if "id" in r[i].attrs {
        assert Set1(r[i], "id", r[i].attrs["id"]) == r[i];
      }
      i := i + 1;
    }
  }

  // ------------------------------------------------------------------ productionize

  function Productionized(g: Gsim, name: string, p: Params): Gsim {
    var r := ApplyReplace(ApplySet(g, name, p), p.datasvcPrefix);
    r.(modules := if r.modules.NoModules? then NoModules else r.modules.(datas := StripAll(r.modules.datas)))
  }

  method Productionize(g: Gsim, name: string, p: Params) returns (r: Gsim)
    ensures r == Productionized(g, name, p)
  {
    r := g.(constants := SetAll(g.constants, ConstantsSettings(name, p)), universe := SetAll(g.universe, UniverseSettings(p)));
    r := r.(portfolio := r.portfolio.(stats := SetAll(r.portfolio.stats, StatsSettings(p)), alpha := SetAll(r.portfolio.alpha, LegSettings(p))));
    if r.modules.Modules? {
      var k := AlphaModuleNode(r.modules.alphas, name);
      if k.Some? {
        r := r.(modules := r.modules.(alphas := r.modules.alphas[k.value := ModuleSet(r.modules.alphas[k.value], name, p)]));
      }
    }
    assert r == ApplySet(g, name, p);
    r := ApplyReplace(r, p.datasvcPrefix);
    if r.modules.Modules? {
      var datas := ApplyStrip(r.modules.datas);
      r := r.(modules := r.modules.(datas := datas));
    }
  }
}
