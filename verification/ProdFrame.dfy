// What productionising leaves alone: on the whole document, everything but the settings, the chosen module, the Data ids and
// the values that a rewrite rule matches (ops/core/prodxml.py:136-222).
module ProdFrame {
  import opened Prelude
  import opened Rewrite
  import opened ProdRules
  import opened ProdXml

  /** No rewrite rule matches: neither a legacy path in a path attribute, nor the old Stats in a module, nor - outside Universe
      and below gsim - a datasvc path to be given the prefix. */
  ghost predicate Unmatched(key: string, value: string, outside: bool) {
    && (key == "niodatapath" ==> !StartsWith(value, CC_2025) && !StartsWith(value, CACHE) && Absent(value, HOME))
    && (key == "dataPath" ==> Absent(value, HOME))
    && (key == "module" ==> Absent(value, V5))
    && (outside ==> !StartsWith(value, SVC))
  }

  lemma UnmatchedStays(key: string, value: string, outside: bool, prefix: string)
    requires Unmatched(key, value, outside)
    ensures Rule(Whole(outside, prefix), key, value) == value
  {
    Names();
    if key == "niodatapath" || key == "dataPath" {
      ReplaceAbsent(value, HOME, FIVE);
    } else if key == "module" {
      ReplaceAbsent(value, V5, V6);
    }
  }

  /** The attributes of one element before and after: those set are set, those with special treatment are there, and of the
      others none appears, none goes, and none changes unless a rule matches it. */
  ghost predicate AttrsFrame(before: Attrs, after: Attrs, touched: set<string>, outside: bool) {
    && after.Keys == before.Keys + touched
    && forall k :: k in before && k !in touched && Unmatched(k, before[k], outside) ==> after[k] == before[k]
  }

  ghost predicate ElementFrame(before: Xml, after: Xml, touched: set<string>, outside: bool) {
    AttrsFrame(before.attrs, after.attrs, touched, outside) && TreesFrame(before.kids, after.kids, outside)
  }

  ghost predicate TreeFrame(before: Xml, after: Xml, outside: bool) {
    AttrsFrame(before.attrs, after.attrs, {}, outside) && TreesFrame(before.kids, after.kids, outside)
  }

  ghost predicate TreesFrame(before: seq<Xml>, after: seq<Xml>, outside: bool) {
    if before == [] || after == [] then before == after == []
    else TreeFrame(before[0], after[0], outside) && TreesFrame(before[1..], after[1..], outside)
  }

  /** The keys that are set get the setting, rewritten like any other value. */
  ghost predicate SetTo(after: Attrs, settings: Attrs, outside: bool, prefix: string) {
    forall k :: k in settings ==> k in after && after[k] == Rule(Whole(outside, prefix), k, settings[k])
  }

  ghost predicate ModulesFrame(before: Modules, after: Modules, name: string)
    requires before.Modules?
  {
    && after.Modules? && AttrsFrame(before.attrs, after.attrs, {}, true) && TreesFrame(before.others, after.others, true)
    && |after.alphas| == |before.alphas| && |after.datas| == |before.datas|
    && (forall i :: 0 <= i < |before.alphas| ==>
          ElementFrame(before.alphas[i], after.alphas[i], if i == ModuleIndex(before.alphas, name) then {"module"} else {}, true))
    && (forall i :: 0 <= i < |before.datas| ==> DataFrame(before.datas[i], after.datas[i]))
  }

  /** A Data element: only its id is treated, and an id that no rule matches loses a Mod at its end and nothing else. */
  ghost predicate DataFrame(before: Xml, after: Xml) {
    && ElementFrame(before, after, if "id" in before.attrs then {"id"} else {}, true)
    && ("id" in before.attrs && !StartsWith(before.attrs["id"], SVC) ==> after.attrs["id"] == Strip(before.attrs["id"]))
  }

  ghost predicate Frame(g: Gsim, r: Gsim, name: string, p: Params) {
    var prefix := p.datasvcPrefix;
    && AttrsFrame(g.attrs, r.attrs, {}, false)
    && ElementFrame(g.constants, r.constants, ConstantsSettings(name, p).Keys, true)
    && SetTo(r.constants.attrs, ConstantsSettings(name, p), true, prefix)
    && ElementFrame(g.universe, r.universe, {"startdate", "enddate"}, false)
    && SetTo(r.universe.attrs, UniverseSettings(p), false, prefix)
    && (if g.modules.Modules? then ModulesFrame(g.modules, r.modules, name) else r.modules.NoModules?)
    && AttrsFrame(g.portfolio.attrs, r.portfolio.attrs, {}, true)
    && ElementFrame(g.portfolio.stats, r.portfolio.stats, StatsSettings(p).Keys, true)
    && SetTo(r.portfolio.stats.attrs, StatsSettings(p), true, prefix)
    && ElementFrame(g.portfolio.alpha, r.portfolio.alpha, LegSettings(p).Keys, true)
    && SetTo(r.portfolio.alpha.attrs, LegSettings(p), true, prefix)
    && TreesFrame(g.portfolio.others, r.portfolio.others, true) && TreesFrame(g.others, r.others, true)
  }

  lemma WalkAttrsFrame(attrs: Attrs, outside: bool, prefix: string)
    ensures AttrsFrame(attrs, WalkAttrs(attrs, Whole(outside, prefix)), {}, outside)
  {
    forall k | k in attrs && Unmatched(k, attrs[k], outside)
      ensures Rule(Whole(outside, prefix), k, attrs[k]) == attrs[k]
    {
      UnmatchedStays(k, attrs[k], outside, prefix);
    }
  }

  lemma {:induction false} WalkFrame(x: Xml, outside: bool, prefix: string)
    ensures TreeFrame(x, Walk(x, Whole(outside, prefix)), outside)
  {
    WalkAttrsFrame(x.attrs, outside, prefix);
    WalkAllFrame(x.kids, outside, prefix);
  }

  lemma {:induction false} WalkAllFrame(xs: seq<Xml>, outside: bool, prefix: string)
    ensures TreesFrame(xs, WalkAll(xs, Whole(outside, prefix)), outside)
  {
    if xs != [] {
      WalkFrame(xs[0], outside, prefix);
      WalkAllFrame(xs[1..], outside, prefix);
    }
  }

  lemma SetFrame(x: Xml, settings: Attrs, outside: bool, prefix: string)
    ensures var r := Walk(SetAll(x, settings), Whole(outside, prefix));
            ElementFrame(x, r, settings.Keys, outside) && SetTo(r.attrs, settings, outside, prefix)
  {
    WalkAttrsFrame(x.attrs + settings, outside, prefix);
    WalkAllFrame(x.kids, outside, prefix);
  }

  lemma {:induction false} AlphaFrame(x: Xml, chosen: bool, name: string, p: Params)
    ensures ElementFrame(x, Walk(if chosen then ModuleSet(x, name, p) else x, Whole(true, p.datasvcPrefix)), if chosen then {"module"} else {}, true)
  {
    var y := if chosen then ModuleSet(x, name, p) else x;
    WalkAttrsFrame(y.attrs, true, p.datasvcPrefix);
    WalkAllFrame(x.kids, true, p.datasvcPrefix);
  }

  lemma {:induction false} StripFrame(d: Xml, prefix: string)
    ensures DataFrame(d, Stripped(Walk(d, Whole(true, prefix))))
  {
    IdName();
    WalkAttrsFrame(d.attrs, true, prefix);
    WalkAllFrame(d.kids, true, prefix);
  }

  lemma AllModulesFrame(m: Modules, name: string, p: Params)
    requires m.Modules?
    ensures var w := Whole(true, p.datasvcPrefix);
            ModulesFrame(m, Modules(WalkAttrs(m.attrs, w), WalkAll(AlphasSet(m.alphas, name, p), w), StripAll(WalkAll(m.datas, w)), WalkAll(m.others, w)), name)
  {
    var w := Whole(true, p.datasvcPrefix);
    WalkAttrsFrame(m.attrs, true, p.datasvcPrefix);
    WalkAllFrame(m.others, true, p.datasvcPrefix);
    var alphas := WalkAll(AlphasSet(m.alphas, name, p), w);
    hide ElementFrame, DataFrame, Walk, ModuleSet;
    forall i | 0 <= i < |m.alphas|
      ensures ElementFrame(m.alphas[i], alphas[i], if i == ModuleIndex(m.alphas, name) then {"module"} else {}, true)
    {
      AlphaFrame(m.alphas[i], i == ModuleIndex(m.alphas, name), name, p);
    }
    forall i | 0 <= i < |m.datas|
      ensures DataFrame(m.datas[i], StripAll(WalkAll(m.datas, w))[i])
    {
      StripFrame(m.datas[i], p.datasvcPrefix);
    }
  }

  /** productionize keeps the shape of the document; an attribute changes only if it is one of the settings, the chosen @module or
      a Data id, or if a rule matches its value. In Universe no attribute that begins with /datasvc is given the prefix, so
      there only startdate, enddate, legacy paths and old Stats modules change. */
  lemma ProductionizeFrame(g: Gsim, name: string, p: Params)
    ensures Frame(g, Productionized(g, name, p), name, p)
  {
    var prefix := p.datasvcPrefix;
    ReplaceIsOneWalk(ApplySet(g, name, p), prefix);
    hide AttrsFrame, ElementFrame, TreesFrame, SetTo, ModulesFrame, Walk, WalkAll, WalkAttrs, SetAll, AlphasSet, StripAll;
    WalkAttrsFrame(g.attrs, false, prefix);
    SetFrame(g.constants, ConstantsSettings(name, p), true, prefix);
    SetFrame(g.universe, UniverseSettings(p), false, prefix);
    assert UniverseSettings(p).Keys == {"startdate", "enddate"};
    if g.modules.Modules? {
      AllModulesFrame(g.modules, name, p);
    }
    WalkAttrsFrame(g.portfolio.attrs, true, prefix);
    SetFrame(g.portfolio.stats, StatsSettings(p), true, prefix);
    SetFrame(g.portfolio.alpha, LegSettings(p), true, prefix);
    WalkAllFrame(g.portfolio.others, true, prefix);
    WalkAllFrame(g.others, true, prefix);
  }

  /** The rule about Universe by itself: whatever a value there begins with, an attribute that is neither set nor a path nor a
      module keeps it. */
  lemma UniverseKeepsDatasvc(g: Gsim, name: string, p: Params, k: string)
    requires k in g.universe.attrs && k !in {"startdate", "enddate", "niodatapath", "dataPath", "module"}
    ensures k in Productionized(g, name, p).universe.attrs && Productionized(g, name, p).universe.attrs[k] == g.universe.attrs[k]
  {
    ProductionizeFrame(g, name, p);
    assert Unmatched(k, g.universe.attrs[k], false);
  }
}
