// When productionising twice is productionising once (ops/core/prodxml.py:14-15): exactly on which documents, names and
// prefixes, each condition being about what is there before the call.
module ProdTwice {
  import opened Prelude
  import opened Rewrite
  import opened ProdRules
  import opened ProdXml

  // ------------------------------------------------------------------ conditions

  /** @niodatapath values that a second pass would rewrite again. */
  predicate PathOk(key: string, value: string, outside: bool) {
    key == "niodatapath" ==> !StartsWith(value, CACHE_HOME) && (outside || !StartsWith(value, CACHE_CC_2025))
  }

  ghost predicate AttrsOk(attrs: Attrs, outside: bool) {
    forall k :: k in attrs ==> PathOk(k, attrs[k], outside)
  }

  ghost predicate TreeOk(x: Xml, outside: bool) {
    AttrsOk(x.attrs, outside) && TreesOk(x.kids, outside)
  }

  ghost predicate TreesOk(xs: seq<Xml>, outside: bool) {
    xs == [] || (TreeOk(xs[0], outside) && TreesOk(xs[1..], outside))
  }

  /** As TreeOk, but the attributes that SET overwrites do not matter. */
  ghost predicate SetOk(x: Xml, settings: Attrs, outside: bool) {
    (forall k :: k in x.attrs && k !in settings ==> PathOk(k, x.attrs[k], outside)) && TreesOk(x.kids, outside)
  }

  ghost predicate IdOk(x: Xml) {
    "id" in x.attrs ==> !EndsWith(x.attrs["id"], MOD + MOD)
  }

  /** The name of a factor's directory, not to be mistaken for an upgraded or an upgradable file name. */
  ghost predicate NameOk(name: string) {
    '/' !in name && Absent(name, V5) && Absent(name, V6)
  }

  /** The conditions on the document: its paths and its Data ids. */
  ghost predicate DocumentOk(g: Gsim, name: string, p: Params) {
    && AttrsOk(g.attrs, false)
    && SetOk(g.constants, ConstantsSettings(name, p), true)
    && SetOk(g.universe, UniverseSettings(p), false)
    && (g.modules.Modules? ==> ModulesOk(g.modules))
    && AttrsOk(g.portfolio.attrs, true) && SetOk(g.portfolio.stats, StatsSettings(p), true)
    && SetOk(g.portfolio.alpha, LegSettings(p), true) && TreesOk(g.portfolio.others, true)
    && TreesOk(g.others, true)
  }

  ghost predicate ModulesOk(m: Modules)
    requires m.Modules?
  {
    AttrsOk(m.attrs, true) && TreesOk(m.alphas, true) && TreesOk(m.datas, true) && TreesOk(m.others, true) && forall d <- m.datas :: IdOk(d)
  }

  // ------------------------------------------------------------------ walking twice

  lemma RuleExactly(key: string, value: string, outside: bool, prefix: string)
    requires PrefixOk(prefix)
    ensures var w := Whole(outside, prefix); Rule(w, key, Rule(w, key, value)) == Rule(w, key, value) <==> PathOk(key, value, outside)
  {
    Names();
    if key == "niodatapath" {
      UniverseExactly(value);
      ElsewhereExactly(value, prefix);
    } else {
      OthersTwice(key, value, prefix);
    }
  }

  lemma AttrsExactly(attrs: Attrs, outside: bool, prefix: string)
    requires PrefixOk(prefix)
    ensures var w := Whole(outside, prefix); WalkAttrs(WalkAttrs(attrs, w), w) == WalkAttrs(attrs, w) <==> AttrsOk(attrs, outside)
  {
    var w := Whole(outside, prefix);
    var once := WalkAttrs(attrs, w);
    var twice := WalkAttrs(once, w);
    hide PathOk, Rule;
    forall k | k in attrs
      ensures twice[k] == once[k] <==> PathOk(k, attrs[k], outside)
    {
      RuleExactly(k, attrs[k], outside, prefix);
    }
    SameMap(twice, once);
  }

  lemma SameMap(a: Attrs, b: Attrs)
    requires a.Keys == b.Keys
    ensures a == b <==> forall k :: k in a ==> a[k] == b[k]
  {
  }

  lemma {:induction false} WalkExactly(x: Xml, outside: bool, prefix: string)
    requires PrefixOk(prefix)
    ensures var w := Whole(outside, prefix); Walk(Walk(x, w), w) == Walk(x, w) <==> TreeOk(x, outside)
  {
    AttrsExactly(x.attrs, outside, prefix);
    WalkAllExactly(x.kids, outside, prefix);
  }

  lemma {:induction false} WalkAllExactly(xs: seq<Xml>, outside: bool, prefix: string)
    requires PrefixOk(prefix)
    ensures var w := Whole(outside, prefix); WalkAll(WalkAll(xs, w), w) == WalkAll(xs, w) <==> TreesOk(xs, outside)
  {
    if xs != [] {
      WalkExactly(xs[0], outside, prefix);
      WalkAllExactly(xs[1..], outside, prefix);
    }
  }

  /** SET and REPLACE on a node whose attributes SET overwrites. */
  lemma SetExactly(x: Xml, settings: Attrs, outside: bool, prefix: string)
    requires PrefixOk(prefix)
    ensures var w := Whole(outside, prefix);
            Walk(SetAll(Walk(SetAll(x, settings), w), settings), w) == Walk(SetAll(x, settings), w) <==> SetOk(x, settings, outside)
  {
    SetAttrsExactly(x.attrs, settings, outside, prefix);
    WalkAllExactly(x.kids, outside, prefix);
  }

  lemma SetAttrsExactly(attrs: Attrs, settings: Attrs, outside: bool, prefix: string)
    requires PrefixOk(prefix)
    ensures var w := Whole(outside, prefix);
            var once := WalkAttrs(attrs + settings, w);
            WalkAttrs(once + settings, w) == once <==> forall k :: k in attrs && k !in settings ==> PathOk(k, attrs[k], outside)
  {
    var w := Whole(outside, prefix);
    var once := WalkAttrs(attrs + settings, w);
    var twice := WalkAttrs(once + settings, w);
    hide PathOk, Rule;
    forall k | k in once
      ensures if k in settings then twice[k] == once[k] else twice[k] == once[k] <==> PathOk(k, attrs[k], outside)
    {
      if k !in settings {
        RuleExactly(k, attrs[k], outside, prefix);
      }
    }
    SameMap(twice, once);
  }

  // ------------------------------------------------------------------ STRIP

  /** On a Data id, with the prefix migration between the two strips: stable exactly when it does not end in ModMod. */
  lemma IdExactly(v: string, prefix: string)
    requires PrefixOk(prefix)
    ensures Strip(Migrate(Strip(Migrate(v, prefix)), prefix)) == Strip(Migrate(v, prefix)) <==> !EndsWith(v, MOD + MOD)
  {
    assert |MOD| == 3 && |MOD + MOD| == 6 && |SVC| == 8;
    MigrateKeepsEnd(v, prefix, MOD + MOD);
    NotMigratedAgain(v, prefix);
    StripExactly(Migrate(v, prefix));
  }

  /** An id is stable under a second strip exactly when it does not end in ModMod. */
  lemma StripExactly(v: string)
    ensures Strip(Strip(v)) == Strip(v) <==> !EndsWith(v, MOD + MOD)
  {
    assert |MOD| == 3 && |MOD + MOD| == 6;
    if EndsWith(v, MOD + MOD) {
      assert v[|v| - 3..] == v[|v| - 6..][3..] == MOD;
      var s := v[..|v| - 3];
      assert s[|s| - 3..] == v[|v| - 6..][..3] == MOD;
    } else if EndsWith(v, MOD) {
      StripOnce(v);
    }
  }

  lemma StripOnce(u: string)
    requires EndsWith(u, MOD) && !EndsWith(u, MOD + MOD)
    ensures !EndsWith(Strip(u), MOD)
  {
    var s := Strip(u);
    if |s| >= 3 {
      assert u[|u| - 6..] == s[|s| - 3..] + u[|u| - 3..];
    }
  }

  lemma MigrateKeepsEnd(v: string, prefix: string, end: string)
    requires |end| <= 8
    ensures EndsWith(Migrate(v, prefix), end) <==> EndsWith(v, end)
  {
    if StartsWith(v, SVC) {
      assert (prefix + v)[|prefix + v| - |end|..] == v[|v| - |end|..];
    }
  }

  lemma NotMigratedAgain(v: string, prefix: string)
    requires PrefixOk(prefix)
    ensures !StartsWith(Strip(Migrate(v, prefix)), SVC)
  {
    var u := Migrate(v, prefix);
    if StartsWith(v, SVC) {
      MigratedIsSafe(prefix, v);
    }
    if |Strip(u)| >= 8 {
      assert Strip(u)[..8] == u[..8];
    }
  }

  /** REPLACE and STRIP on one attribute of a Data node. */
  function DataRule(k: string, v: string, prefix: string): string {
    if k == "id" then Strip(Elsewhere(k, v, prefix)) else Elsewhere(k, v, prefix)
  }

  lemma {:induction false} StrippedAttrs(d: Xml, prefix: string)
    ensures var r := Stripped(Walk(d, Whole(true, prefix)));
            r.attrs.Keys == d.attrs.Keys && forall k :: k in d.attrs ==> r.attrs[k] == DataRule(k, d.attrs[k], prefix)
  {
  }

  lemma DataRuleExactly(k: string, v: string, prefix: string)
    requires PrefixOk(prefix)
    ensures DataRule(k, DataRule(k, v, prefix), prefix) == DataRule(k, v, prefix)
            <==> PathOk(k, v, true) && (k == "id" ==> !EndsWith(v, MOD + MOD))
  {
    IdName();
    if k == "id" {
      IdExactly(v, prefix);
    } else {
      RuleExactly(k, v, true, prefix);
    }
  }

  lemma {:induction false} DataExactly(d: Xml, prefix: string)
    requires PrefixOk(prefix)
    ensures var w := Whole(true, prefix);
            Stripped(Walk(Stripped(Walk(d, w)), w)) == Stripped(Walk(d, w)) <==> TreeOk(d, true) && IdOk(d)
  {
    var once := Stripped(Walk(d, Whole(true, prefix)));
    DataAttrsExactly(d, once, Stripped(Walk(once, Whole(true, prefix))), prefix);
    WalkAllExactly(d.kids, true, prefix);
  }

  lemma {:induction false} DataAttrsExactly(d: Xml, once: Xml, twice: Xml, prefix: string)
    requires PrefixOk(prefix)
    requires once == Stripped(Walk(d, Whole(true, prefix))) && twice == Stripped(Walk(once, Whole(true, prefix)))
    ensures twice.attrs == once.attrs <==> AttrsOk(d.attrs, true) && IdOk(d)
  {
    hide Walk, Stripped, DataRule, EndsWith;
    StrippedAttrs(d, prefix);
    StrippedAttrs(once, prefix);
    forall k | k in d.attrs
      ensures twice.attrs[k] == once.attrs[k] <==> PathOk(k, d.attrs[k], true) && (k == "id" ==> !EndsWith(d.attrs[k], MOD + MOD))
    {
      DataRuleExactly(k, d.attrs[k], prefix);
    }
    SameMap(twice.attrs, once.attrs);
  }

  lemma {:induction false} TreesOkIs(xs: seq<Xml>, outside: bool)
    ensures TreesOk(xs, outside) <==> forall i :: 0 <= i < |xs| ==> TreeOk(xs[i], outside)
  {
    if xs != [] {
      TreesOkIs(xs[1..], outside);
      assert forall i :: 0 < i < |xs| ==> xs[i] == xs[1..][i - 1];
    }
  }

  lemma {:induction false} DatasExactly(ds: seq<Xml>, prefix: string)
    requires PrefixOk(prefix)
    ensures var w := Whole(true, prefix);
            StripAll(WalkAll(StripAll(WalkAll(ds, w)), w)) == StripAll(WalkAll(ds, w)) <==> TreesOk(ds, true) && forall d <- ds :: IdOk(d)
  {
    var w := Whole(true, prefix);
    var once := StripAll(WalkAll(ds, w));
    var twice := StripAll(WalkAll(once, w));
    TreesOkIs(ds, true);
    forall i | 0 <= i < |ds|
      ensures twice[i] == once[i] <==> TreeOk(ds[i], true) && IdOk(ds[i])
    {
      DataExactly(ds[i], prefix);
    }
  }

  // ------------------------------------------------------------------ the factor's own module

  function Upgrade(s: string): string { ReplaceAll(s, V5, V6) }

  lemma V5IsPlain()
    ensures |V5| == 13 && forall i :: 0 <= i < 13 ==> V5[i] != '/'
  {
    assert V5[0] == 'S' && V5[1] == 't' && V5[2] == 'a' && V5[3] == 't' && V5[4] == 's' && V5[5] == 'S' && V5[6] == 'i';
    assert V5[7] == 'm' && V5[8] == 'p' && V5[9] == 'l' && V5[10] == 'e' && V5[11] == 'V' && V5[12] == '5';
  }

  lemma {:induction false} UpgradeAcross(a: string, b: string)
    ensures Upgrade(a + "/" + b) == Upgrade(a) + "/" + Upgrade(b)
  {
    var s := a + "/" + b;
    V5IsPlain();
    hide Upgrade, StartsWith;
    if |s| < 13 {
      UpgradeShort(s);
      UpgradeShort(a);
      UpgradeShort(b);
    } else if a == [] {
      UpgradeSlash(b);
    } else if StartsWith(s, V5) {
      V5BeforeSlash(a, b);
      UpgradeAcross(a[13..], b);
      UpgradeHit(a, a[13..]);
      UpgradeHit(s, a[13..] + "/" + b);
    } else {
      UpgradeAcross(a[1..], b);
      UpgradeMiss(s);
      UpgradeFirst(a, b);
      assert s[0] == a[0] && s[1..] == a[1..] + "/" + b;
    }
  }

  lemma UpgradeHit(s: string, rest: string)
    requires s == V5 + rest
    ensures Upgrade(s) == V6 + Upgrade(rest)
  {
    assert s[..13] == V5 && s[13..] == rest;
  }

  lemma UpgradeMiss(s: string)
    requires |s| >= 13 && !StartsWith(s, V5)
    ensures Upgrade(s) == [s[0]] + Upgrade(s[1..])
  {
    V5IsPlain();
  }

  lemma UpgradeSlash(b: string)
    ensures |b| >= 12 ==> Upgrade("/" + b) == "/" + Upgrade(b)
    ensures [] + "/" + b == "/" + b && Upgrade([]) == []
  {
    V5IsPlain();
    var s := "/" + b;
    assert s[0] == '/' && s[1..] == b;
    if |s| >= 13 {
      assert s[..13][0] == '/';
    }
  }

  lemma V5BeforeSlash(a: string, b: string)
    requires StartsWith(a + "/" + b, V5)
    ensures |a| >= 13 && a == V5 + a[13..] && a + "/" + b == V5 + (a[13..] + "/" + b)
  {
    V5IsPlain();
    SlashInside(a, b);
    assert a[..13] == (a + "/" + b)[..13];
  }

  lemma SlashInside(a: string, b: string)
    ensures |a| < 13 <= |a + "/" + b| ==> (a + "/" + b)[..13][|a|] == '/'
  {
  }

  lemma UpgradeShort(s: string)
    ensures |s| < 13 ==> Upgrade(s) == s
  {
    assert |V5| == 13;
  }

  lemma UpgradeFirst(a: string, b: string)
    requires a != [] && !StartsWith(a + "/" + b, V5)
    ensures Upgrade(a) == [a[0]] + Upgrade(a[1..])
  {
    assert |V5| == 13;
    if |a| >= 13 {
      assert (a + "/" + b)[..13] == a[..13];
    } else {
      UpgradeShort(a);
      UpgradeShort(a[1..]);
    }
  }

  /** The file name of a rewritten module path is the upgraded file name. */
  lemma {:induction false} BasenameOfRewritten(m: string, prefix: string)
    ensures Basename(Elsewhere("module", m, prefix)) == Upgrade(Basename(m))
  {
    Names();
    BasenameIsPlain(m);
    var u := Migrate(m, prefix);
    if Basename(m) == m && !StartsWith(m, SVC) {
      UpgradePlain(m);
      BasenameSelf(Upgrade(m));
    } else {
      SvcHasSlash(m);
      var a :| m == a + "/" + Basename(m);
      var a' := if StartsWith(m, SVC) then prefix + a else a;
      assert u == a' + "/" + Basename(m);
      UpgradeAcross(a', Basename(m));
      UpgradePlain(Basename(m));
      BasenameOfPath(Upgrade(a'), Upgrade(Basename(m)));
    }
  }

  lemma {:induction false} SvcHasSlash(m: string)
    ensures StartsWith(m, SVC) ==> Basename(m) != m
  {
    BasenameIsPlain(m);
    if StartsWith(m, SVC) {
      assert SVC[0] == '/' && m[0] == m[..8][0];
      assert m[0] in m;
    }
  }

  lemma UpgradePlain(s: string)
    requires '/' !in s
    ensures '/' !in Upgrade(s)
  {
    UpgradePointwise(s);
  }

  lemma UpgradeKeepsPy(s: string)
    ensures EndsWith(Upgrade(s), PY) <==> EndsWith(s, PY)
  {
    UpgradePointwise(s);
    var r := Upgrade(s);
    assert |PY| == 3 && PY[0] == '.' && PY[1] == 'p' && PY[2] == 'y';
    if |s| >= 3 {
      var a, b := s[|s| - 3..], r[|s| - 3..];
      assert forall i :: 0 <= i < 3 ==> a[i] == s[|s| - 3 + i] && b[i] == r[|s| - 3 + i];
      assert a == PY <==> a[0] == '.' && a[1] == 'p' && a[2] == 'y';
      assert b == PY <==> b[0] == '.' && b[1] == 'p' && b[2] == 'y';
    }
  }

  lemma RewrittenKeepsPy(m: string, prefix: string)
    ensures EndsWith(Elsewhere("module", m, prefix), PY) <==> EndsWith(m, PY)
  {
    Names();
    MigrateKeepsEnd(m, prefix, PY);
    UpgradeKeepsPy(Migrate(m, prefix));
  }

  /** Upgrading makes an occurrence of V6 of each occurrence of V5. */
  lemma {:induction false} UpgradeMakesV6(s: string, i: nat) returns (j: nat)
    requires OccursAt(s, V5, i)
    ensures OccursAt(Upgrade(s), V6, j)
  {
    V5IsPlain();
    assert |V6| == 13 && s[0..0 + 13] == s[..13];
    if StartsWith(s, V5) {
      j := 0;
      UpgradeHit(s, s[13..]);
      assert Upgrade(s)[0..0 + 13] == V6;
    } else {
      OccursLater(s, V5, i - 1);
      j := UpgradeMakesV6(s[1..], i - 1);
      UpgradeMiss(s);
      OccursLater(Upgrade(s), V6, j);
      assert Upgrade(s)[1..] == Upgrade(s[1..]);
      j := j + 1;
    }
  }

  /** Neither pattern reaches into ".py". */
  lemma AbsentWithPy(name: string, q: string)
    requires q == V5 || q == V6
    ensures Absent(name + PY, q) <==> Absent(name, q)
  {
    V5IsPlain();
    var s := name + PY;
    assert |q| == 13 && |PY| == 3 && PY[0] == '.' && s[|name|] == '.';
    NoDot();
    forall i
      ensures OccursAt(s, q, i) <==> OccursAt(name, q, i)
    {
      if 0 <= i && i + 13 <= |s| {
        if i + 13 <= |name| {
          assert s[i..i + 13] == name[i..i + 13];
        } else {
          assert s[i..i + 13][|name| - i] == '.';
        }
      }
    }
  }

  lemma NoDot()
    ensures forall i :: 0 <= i < |V5| ==> V5[i] != '.'
    ensures forall i :: 0 <= i < |V6| ==> V6[i] != '.'
  {
    assert V5[0] == 'S' && V5[1] == 't' && V5[2] == 'a' && V5[3] == 't' && V5[4] == 's' && V5[5] == 'S' && V5[6] == 'i';
    assert V5[7] == 'm' && V5[8] == 'p' && V5[9] == 'l' && V5[10] == 'e' && V5[11] == 'V' && V5[12] == '5';
    assert V6[0] == 'S' && V6[1] == 't' && V6[2] == 'a' && V6[3] == 't' && V6[4] == 's' && V6[5] == 'S' && V6[6] == 'i';
    assert V6[7] == 'm' && V6[8] == 'p' && V6[9] == 'l' && V6[10] == 'e' && V6[11] == 'V' && V6[12] == '6';
  }

  /** A file name is upgraded to the factor's own file name only if it was that name already. */
  lemma OwnFileIsStable(b: string, name: string)
    requires NameOk(name)
    ensures Upgrade(b) == name + PY <==> b == name + PY
  {
    AbsentWithPy(name, V5);
    AbsentWithPy(name, V6);
    ReplaceAbsent(name + PY, V5, V6);
    if Upgrade(b) == name + PY && !Absent(b, V5) {
      var i :| OccursAt(b, V5, i);
      var j := UpgradeMakesV6(b, i);
    }
    if Absent(b, V5) {
      ReplaceAbsent(b, V5, V6);
    }
  }

  lemma {:induction false} OwnIsStable(x: Xml, name: string, prefix: string)
    requires NameOk(name)
    ensures IsOwn(Walk(x, Whole(true, prefix)), name) <==> IsOwn(x, name)
    ensures EndsWith(ModuleOf(Walk(x, Whole(true, prefix))), PY) <==> EndsWith(ModuleOf(x), PY)
  {
    var m := ModuleOf(x);
    if "module" in x.attrs {
      RewrittenKeepsPy(m, prefix);
      BasenameOfRewritten(m, prefix);
      OwnFileIsStable(Basename(m), name);
    }
  }

  function FileOf(x: Xml, name: string): string {
    if EndsWith(ModuleOf(x), PY) then Basename(ModuleOf(x)) else name + PY
  }

  function Place(name: string, p: Params): string {
    TrimSlash(p.modulePrefix) + "/" + name
  }

  /** The chosen module after SET and REPLACE has the upgraded file name. */
  lemma ChosenFile(x: Xml, name: string, p: Params)
    requires '/' !in name
    ensures var once := Walk(ModuleSet(x, name, p), Whole(true, p.datasvcPrefix));
            EndsWith(ModuleOf(once), PY) && Basename(ModuleOf(once)) == Upgrade(FileOf(x, name))
            && ModuleOf(once) == Elsewhere("module", Place(name, p) + "/" + FileOf(x, name), p.datasvcPrefix)
  {
    var d, file := Place(name, p), FileOf(x, name);
    assert ModuleSet(x, name, p).attrs["module"] == d + "/" + file;
    FileIsPlain(x, name);
    PathEndsInPy(d, file);
    RewrittenKeepsPy(d + "/" + file, p.datasvcPrefix);
    BasenameOfRewritten(d + "/" + file, p.datasvcPrefix);
    BasenameOfPath(d, file);
  }

  /** A second SET and REPLACE on the chosen module. */
  lemma {:induction false} ChosenExactly(x: Xml, name: string, p: Params)
    requires PrefixOk(p.datasvcPrefix) && NameOk(name)
    ensures var w := Whole(true, p.datasvcPrefix);
            var once := Walk(ModuleSet(x, name, p), w);
            Walk(ModuleSet(once, name, p), w) == once <==> TreeOk(x, true)
  {
    var w := Whole(true, p.datasvcPrefix);
    var once := Walk(ModuleSet(x, name, p), w);
    ChosenFile(x, name, p);
    SamePlace(Place(name, p), FileOf(x, name), p.datasvcPrefix);
    ChosenAttrs(x, once, name, p);
    WalkAllExactly(x.kids, true, p.datasvcPrefix);
  }

  /** Setting @module to something that is rewritten to the same value. */
  lemma OneAttrAgain(attrs: Attrs, first: string, second: string, prefix: string)
    requires PrefixOk(prefix) && Elsewhere("module", second, prefix) == Elsewhere("module", first, prefix)
    ensures var w := Whole(true, prefix);
            var once := WalkAttrs(attrs["module" := first], w);
            WalkAttrs(once["module" := second], w) == once <==> AttrsOk(attrs, true)
  {
    var w := Whole(true, prefix);
    var once := WalkAttrs(attrs["module" := first], w);
    var twice := WalkAttrs(once["module" := second], w);
    Names();
    assert Rule(w, "module", second) == Rule(w, "module", first);
    assert forall v :: PathOk("module", v, true);
    hide PathOk, Rule;
    forall k | k in once && k != "module"
      ensures twice[k] == once[k] <==> PathOk(k, attrs[k], true)
    {
      RuleExactly(k, attrs[k], true, prefix);
    }
    SameMap(twice, once);
  }

  lemma ChosenAttrs(x: Xml, once: Xml, name: string, p: Params)
    requires PrefixOk(p.datasvcPrefix) && once == Walk(ModuleSet(x, name, p), Whole(true, p.datasvcPrefix))
    requires Elsewhere("module", Place(name, p) + "/" + FileOf(once, name), p.datasvcPrefix) == ModuleOf(once)
    ensures WalkAttrs(ModuleSet(once, name, p).attrs, Whole(true, p.datasvcPrefix)) == once.attrs <==> AttrsOk(x.attrs, true)
  {
    var first, second := Place(name, p) + "/" + FileOf(x, name), Place(name, p) + "/" + FileOf(once, name);
    assert ModuleSet(x, name, p).attrs == x.attrs["module" := first];
    assert ModuleSet(once, name, p).attrs == once.attrs["module" := second];
    assert ModuleOf(once) == Elsewhere("module", first, p.datasvcPrefix);
    OneAttrAgain(x.attrs, first, second, p.datasvcPrefix);
  }

  lemma FileIsPlain(x: Xml, name: string)
    requires '/' !in name
    ensures '/' !in FileOf(x, name) && EndsWith(FileOf(x, name), PY)
  {
    var m := ModuleOf(x);
    BasenameIsPlain(m);
    if EndsWith(m, PY) {
      BasenameEndsInPy(m);
    } else {
      assert (name + PY)[|name|..] == PY;
      assert '/' !in PY;
    }
  }

  lemma {:induction false} BasenameEndsInPy(m: string)
    requires EndsWith(m, PY)
    ensures EndsWith(Basename(m), PY)
  {
    BasenameIsPlain(m);
    assert |PY| == 3 && PY[0] == '.' && PY[1] == 'p' && PY[2] == 'y';
    var t := m[|m| - 3..];
    assert t[0] == m[|m| - 3] && t[1] == m[|m| - 2] && t[2] == m[|m| - 1];
    if Basename(m) != m {
      var a :| m == a + "/" + Basename(m);
      var b := Basename(m);
      assert m[|a|] == '/';
      assert |m| == |a| + 1 + |b|;
      assert m[|m| - 3..] == b[|b| - 3..];
    }
  }

  lemma PathEndsInPy(d: string, file: string)
    requires EndsWith(file, PY)
    ensures EndsWith(d + "/" + file, PY)
  {
    var s := d + "/" + file;
    assert s[|s| - 3..] == file[|file| - 3..];
  }

  lemma SameUpgrade(d: string, file: string)
    ensures Upgrade(d + "/" + Upgrade(file)) == Upgrade(d + "/" + file)
  {
    V5Settles();
    UpgradeAcross(d, file);
    UpgradeAcross(d, Upgrade(file));
    ReplaceIdempotent(file, V5, V6);
  }

  lemma SameStart(d: string, file: string)
    ensures StartsWith(d + "/" + Upgrade(file), SVC) <==> StartsWith(d + "/" + file, SVC)
  {
    UpgradeKeepsSvc(d + "/" + file);
    UpgradeKeepsSvc(d + "/" + Upgrade(file));
    SameUpgrade(d, file);
    hide ReplaceAll, StartsWith;
  }

  /** Upgrading the file name first makes no difference to the rewritten path. */
  lemma SamePlace(d: string, file: string, prefix: string)
    ensures Elsewhere("module", d + "/" + Upgrade(file), prefix) == Elsewhere("module", d + "/" + file, prefix)
  {
    Names();
    SameStart(d, file);
    SameUpgrade(d, file);
    SameUpgrade(prefix + d, file);
    var s, s' := d + "/" + file, d + "/" + Upgrade(file);
    assert prefix + s == (prefix + d) + "/" + file && prefix + s' == (prefix + d) + "/" + Upgrade(file);
    hide ReplaceAll, StartsWith;
  }

  /** The choice depends on two tests per node only. */
  lemma ChoiceByTests(a: seq<Xml>, b: seq<Xml>, name: string, k: nat)
    requires a != [] && |a| == |b| && k == ModuleIndex(a, name)
    requires forall j :: 0 <= j < |a| && j != k ==>
               (IsOwn(b[j], name) <==> IsOwn(a[j], name)) && (EndsWith(ModuleOf(b[j]), PY) <==> EndsWith(ModuleOf(a[j]), PY))
    requires EndsWith(ModuleOf(b[k]), PY) && (IsOwn(b[k], name) <==> FileOf(a[k], name) == name + PY)
    ensures ModuleIndex(b, name) == k
  {
    var own, py := FirstOwn(a, name, 0), FirstPy(a, 0);
    var own', py' := FirstOwn(b, name, 0), FirstPy(b, 0);
    if |a| > 1 {
      if own < |a| {
        assert own' == k;
      } else {
        assert py' == k || py == |a|;
      }
    }
  }

  /** The second run chooses the same module node as the first. */
  lemma ChoiceIsStable(alphas: seq<Xml>, name: string, p: Params)
    requires NameOk(name) && alphas != []
    ensures ModuleIndex(WalkAll(AlphasSet(alphas, name, p), Whole(true, p.datasvcPrefix)), name) == ModuleIndex(alphas, name)
  {
    var w, k := Whole(true, p.datasvcPrefix), ModuleIndex(alphas, name);
    var once := WalkAll(AlphasSet(alphas, name, p), w);
    ChosenFile(alphas[k], name, p);
    OwnFileIsStable(FileOf(alphas[k], name), name);
    forall j | 0 <= j < |alphas| && j != k
      ensures (IsOwn(once[j], name) <==> IsOwn(alphas[j], name)) && (EndsWith(ModuleOf(once[j]), PY) <==> EndsWith(ModuleOf(alphas[j]), PY))
    {
      OwnIsStable(alphas[j], name, p.datasvcPrefix);
    }
    ChoiceByTests(alphas, once, name, k);
  }

  lemma AlphaExactly(alphas: seq<Xml>, name: string, p: Params, j: nat)
    requires PrefixOk(p.datasvcPrefix) && NameOk(name) && j < |alphas|
    ensures var w := Whole(true, p.datasvcPrefix);
            var once := WalkAll(AlphasSet(alphas, name, p), w);
            WalkAll(AlphasSet(once, name, p), w)[j] == once[j] <==> TreeOk(alphas[j], true)
  {
    ChoiceIsStable(alphas, name, p);
    hide ModuleSet, TreeOk, ModuleIndex, Walk, PrefixOk, NameOk;
    if j == ModuleIndex(alphas, name) {
      ChosenExactly(alphas[j], name, p);
    } else {
      WalkExactly(alphas[j], true, p.datasvcPrefix);
    }
  }

  lemma {:induction false} AlphasExactly(alphas: seq<Xml>, name: string, p: Params)
    requires PrefixOk(p.datasvcPrefix) && NameOk(name)
    ensures var w := Whole(true, p.datasvcPrefix);
            WalkAll(AlphasSet(WalkAll(AlphasSet(alphas, name, p), w), name, p), w) == WalkAll(AlphasSet(alphas, name, p), w)
            <==> TreesOk(alphas, true)
  {
    var w := Whole(true, p.datasvcPrefix);
    var once := WalkAll(AlphasSet(alphas, name, p), w);
    var twice := WalkAll(AlphasSet(once, name, p), w);
    hide ModuleSet, TreeOk, ModuleIndex, Walk, PrefixOk, NameOk;
    TreesOkIs(alphas, true);
    assert |twice| == |once| == |alphas|;
    hide WalkAll, AlphasSet;
    forall j | 0 <= j < |alphas|
      ensures twice[j] == once[j] <==> TreeOk(alphas[j], true)
    {
      AlphaExactly(alphas, name, p, j);
    }
  }

  // ------------------------------------------------------------------ the document

  lemma ModulesExactly(m: Modules, name: string, p: Params)
    requires PrefixOk(p.datasvcPrefix) && NameOk(name) && m.Modules?
    ensures ModulesDone(ModulesDone(m, name, p), name, p) == ModulesDone(m, name, p) <==> ModulesOk(m)
  {
    AttrsExactly(m.attrs, true, p.datasvcPrefix);
    AlphasExactly(m.alphas, name, p);
    DatasExactly(m.datas, p.datasvcPrefix);
    WalkAllExactly(m.others, true, p.datasvcPrefix);
  }

  function ModulesDone(m: Modules, name: string, p: Params): Modules
    requires m.Modules?
    ensures ModulesDone(m, name, p).Modules?
  {
    var w := Whole(true, p.datasvcPrefix);
    Modules(WalkAttrs(m.attrs, w), WalkAll(AlphasSet(m.alphas, name, p), w), StripAll(WalkAll(m.datas, w)), WalkAll(m.others, w))
  }

  /** Productionizing node by node. */
  function Done(g: Gsim, name: string, p: Params): Gsim {
    var i, o := Whole(false, p.datasvcPrefix), Whole(true, p.datasvcPrefix);
    Gsim(WalkAttrs(g.attrs, i),
         Walk(SetAll(g.constants, ConstantsSettings(name, p)), o),
         Walk(SetAll(g.universe, UniverseSettings(p)), i),
         if g.modules.NoModules? then NoModules else ModulesDone(g.modules, name, p),
         Portfolio(WalkAttrs(g.portfolio.attrs, o), Walk(SetAll(g.portfolio.stats, StatsSettings(p)), o),
                   Walk(SetAll(g.portfolio.alpha, LegSettings(p)), o), WalkAll(g.portfolio.others, o)),
         WalkAll(g.others, o))
  }

  lemma ProductionizedIsDone(g: Gsim, name: string, p: Params)
    ensures Productionized(g, name, p) == Done(g, name, p)
  {
    ReplaceIsOneWalk(ApplySet(g, name, p), p.datasvcPrefix);
  }

  predicate Idempotent(g: Gsim, name: string, p: Params) {
    Productionized(Productionized(g, name, p), name, p) == Productionized(g, name, p)
  }

  lemma DoneExactly(g: Gsim, name: string, p: Params)
    requires PrefixOk(p.datasvcPrefix) && NameOk(name)
    ensures Done(Done(g, name, p), name, p) == Done(g, name, p) <==> DocumentOk(g, name, p)
  {
    hide Walk, WalkAttrs, ModulesDone, SetOk, AttrsOk, TreesOk, ModulesOk;
    var prefix := p.datasvcPrefix;
    AttrsExactly(g.attrs, false, prefix);
    SetExactly(g.constants, ConstantsSettings(name, p), true, prefix);
    SetExactly(g.universe, UniverseSettings(p), false, prefix);
    if g.modules.Modules? {
      ModulesExactly(g.modules, name, p);
    }
    AttrsExactly(g.portfolio.attrs, true, prefix);
    SetExactly(g.portfolio.stats, StatsSettings(p), true, prefix);
    SetExactly(g.portfolio.alpha, LegSettings(p), true, prefix);
    WalkAllExactly(g.portfolio.others, true, prefix);
    WalkAllExactly(g.others, true, prefix);
  }

  /** With a proper prefix and name, archiving an already productionised XML again, or running the migration twice, changes
      nothing exactly when the document's paths and Data ids are as DocumentOk says. */
  lemma ProductionizeExactly(g: Gsim, name: string, p: Params)
    requires PrefixOk(p.datasvcPrefix) && NameOk(name)
    ensures Idempotent(g, name, p) <==> DocumentOk(g, name, p)
  {
    ProductionizedIsDone(g, name, p);
    ProductionizedIsDone(Productionized(g, name, p), name, p);
    DoneExactly(g, name, p);
  }

  // ------------------------------------------------------------------ which prefixes and names

  const BLANK := Xml(map[], [])

  function Document(attrs: Attrs, alphas: seq<Xml>): Gsim {
    Gsim(map[], BLANK, BLANK, Modules(map[], alphas, [], []), Portfolio(attrs, BLANK, BLANK, []), [])
  }

  lemma {:induction false} DocumentIsOk(attrs: Attrs, alphas: seq<Xml>, name: string, p: Params)
    requires AttrsOk(attrs, true) && TreesOk(alphas, true)
    ensures DocumentOk(Document(attrs, alphas), name, p)
  {
  }

  lemma PortfolioAttrs(g: Gsim, name: string, p: Params)
    ensures Productionized(g, name, p).portfolio.attrs == WalkAttrs(g.portfolio.attrs, Whole(true, p.datasvcPrefix))
  {
    ProductionizedIsDone(g, name, p);
  }

  /** An attribute that does not settle shows in a document that has it. */
  lemma BadPrefixShows(name: string, p: Params) returns (g: Gsim)
    requires !PrefixOk(p.datasvcPrefix)
    ensures DocumentOk(g, name, p) && !Idempotent(g, name, p)
  {
    var attr, v := BadPrefixFails(p.datasvcPrefix);
    g := Document(map[attr := v], []);
    DocumentIsOk(map[attr := v], [], name, p);
    hide Productionized, Elsewhere, DocumentOk, PrefixOk;
    var once := Productionized(g, name, p);
    PortfolioAttrs(g, name, p);
    PortfolioAttrs(once, name, p);
    assert once.portfolio.attrs[attr] == Elsewhere(attr, v, p.datasvcPrefix);
    assert Productionized(once, name, p).portfolio.attrs[attr] == Elsewhere(attr, once.portfolio.attrs[attr], p.datasvcPrefix);
  }

  function ModuleNode(m: string): Xml {
    Xml(map["module" := m], [])
  }

  lemma {:induction false} PlainModule(m: string, prefix: string)
    requires '/' !in m
    ensures Elsewhere("module", m, prefix) == Upgrade(m) && '/' !in Upgrade(m) && Basename(m) == m
    ensures ModuleOf(Walk(ModuleNode(m), Whole(true, prefix))) == Upgrade(m)
  {
    Names();
    SvcHasSlash(m);
    UpgradePlain(m);
    BasenameSelf(m);
  }

  /** If the second run chooses another node, it gives that node a path. */
  lemma ChoiceMoves(alphas: seq<Xml>, name: string, p: Params, k: nat, m: string)
    requires '/' !in name && k < |alphas| && alphas[k] == ModuleNode(m) && '/' !in m && EndsWith(m, PY) && k != ModuleIndex(alphas, name)
    requires ModuleIndex(WalkAll(AlphasSet(alphas, name, p), Whole(true, p.datasvcPrefix)), name) == k
    ensures var w := Whole(true, p.datasvcPrefix);
            WalkAll(AlphasSet(WalkAll(AlphasSet(alphas, name, p), w), name, p), w) != WalkAll(AlphasSet(alphas, name, p), w)
  {
    var w := Whole(true, p.datasvcPrefix);
    var once := WalkAll(AlphasSet(alphas, name, p), w);
    var twice := WalkAll(AlphasSet(once, name, p), w);
    PlainModule(m, p.datasvcPrefix);
    assert ModuleOf(once[k]) == Upgrade(m);
    ChosenFile(once[k], name, p);
    UpgradeKeepsPy(m);
    BasenameSelf(Upgrade(m));
    var path := Place(name, p) + "/" + Upgrade(m);
    assert ModuleOf(twice[k]) == Elsewhere("module", path, p.datasvcPrefix);
    RewriteNeverShrinks(path, p.datasvcPrefix);
    assert |path| > |Upgrade(m)|;
  }

  lemma RewriteNeverShrinks(m: string, prefix: string)
    ensures |Elsewhere("module", m, prefix)| >= |m|
  {
    Names();
    UpgradePointwise(Migrate(m, prefix));
  }

  const OTHER := "a.py"

  lemma OtherIsPy()
    ensures '/' !in OTHER && EndsWith(OTHER, PY) && Upgrade(OTHER) == OTHER && |OTHER| == 4
  {
    UpgradeShort(OTHER);
    assert OTHER[1..] == PY;
  }

  lemma OtherIsNotOwn(x: Xml, name: string)
    requires |name| >= 13 && (ModuleOf(x) == OTHER || Basename(ModuleOf(x)) == OTHER)
    ensures !IsOwn(x, name)
  {
    OtherIsPy();
    BasenameSelf(OTHER);
  }

  lemma UpgradedIsNot(b: string, name: string, i: nat)
    requires b == name + PY && OccursAt(name, V5, i)
    ensures Upgrade(b) != b
  {
    V5Settles();
    ReplaceLeavesNone(b, V5, V6);
    assert b[i..i + |V5|] == name[i..i + |V5|];
    assert OccursAt(b, V5, i);
  }

  lemma TwoNodes(x: Xml, y: Xml, name: string)
    requires !IsOwn(x, name) && EndsWith(ModuleOf(x), PY)
    ensures ModuleIndex([x, y], name) == if IsOwn(y, name) then 1 else 0
  {
    hide IsOwn;
    var nodes := [x, y];
    assert FirstOwn(nodes, name, 2) == 2;
    assert FirstOwn(nodes, name, 1) == if IsOwn(y, name) then 1 else 2;
    assert FirstPy(nodes, 0) == 0;
  }

  /** A name that an upgrade changes: the factor's own file is not recognised the second time. */
  lemma UpgradableNameFails(name: string, p: Params, i: nat)
    requires '/' !in name && OccursAt(name, V5, i)
    ensures var alphas, w := [ModuleNode(OTHER), ModuleNode(name + PY)], Whole(true, p.datasvcPrefix);
            WalkAll(AlphasSet(WalkAll(AlphasSet(alphas, name, p), w), name, p), w) != WalkAll(AlphasSet(alphas, name, p), w)
  {
    var b, w := name + PY, Whole(true, p.datasvcPrefix);
    var alphas := [ModuleNode(OTHER), ModuleNode(b)];
    V5IsPlain();
    OtherIsPy();
    assert '/' !in PY && b[|b| - 3..] == PY;
    PlainModule(b, p.datasvcPrefix);
    PlainModule(OTHER, p.datasvcPrefix);
    OtherIsNotOwn(alphas[0], name);
    TwoNodes(alphas[0], alphas[1], name);
    var chosen := ModuleSet(alphas[1], name, p);
    assert AlphasSet(alphas, name, p) == [alphas[0], chosen];
    var once := [Walk(alphas[0], w), Walk(chosen, w)];
    assert once == WalkAll([alphas[0], chosen], w);
    OtherIsNotOwn(once[0], name);
    ChosenFile(alphas[1], name, p);
    UpgradedIsNot(b, name, i);
    TwoNodes(once[0], once[1], name);
    ChoiceMoves(alphas, name, p, 0, OTHER);
  }

  lemma NoEarlierHit(t: string, i: nat, b: string)
    requires OccursAt(t, V6, i) && Absent(t, V5) && b == t[..i] + V5 + t[i + 13..]
    ensures forall j :: 0 <= j < i ==> !OccursAt(b, V5, j)
  {
    forall j | 0 <= j < i
      ensures !OccursAt(b, V5, j)
    {
      DowngradedEarlier(t, i, j);
    }
  }

  lemma UpgradeOne(rest: string)
    requires Absent(rest, V5)
    ensures Upgrade(V5 + rest) == V6 + rest
  {
    V5IsPlain();
    ReplaceAbsent(rest, V5, V6);
    UpgradeHit(V5 + rest, rest);
  }

  /** Undoing one upgrade in a text without V5 gives a text that upgrades to it. */
  lemma DowngradedUpgrades(t: string, i: nat)
    requires OccursAt(t, V6, i) && Absent(t, V5)
    ensures Upgrade(t[..i] + V5 + t[i + 13..]) == t
  {
    SplitAround(t, i);
    RestIsAbsent(t, i + 13);
    var a, rest := t[..i], t[i + 13..];
    NoEarlierHit(t, i, a + V5 + rest);
    assert a + V5 + rest == a + (V5 + rest);
    UpgradeOne(rest);
    V5IsPlain();
    hide ReplaceAll, OccursAt, Absent;
    ReplaceSkips(a, V5 + rest, V5, V6);
    assert a + V6 + rest == a + (V6 + rest);
  }

  lemma SplitAround(t: string, i: nat)
    requires OccursAt(t, V6, i)
    ensures |V6| == 13 && t == t[..i] + V6 + t[i + 13..]
  {
    assert |V6| == 13 && t[i..i + 13] == V6;
  }

  lemma RestIsAbsent(t: string, n: nat)
    requires Absent(t, V5) && n <= |t|
    ensures Absent(t[n..], V5)
  {
    forall j
      ensures !OccursAt(t[n..], V5, j)
    {
      if 0 <= j && j + |V5| <= |t[n..]| {
        assert t[n + j..n + j + |V5|] == t[n..][j..j + |V5|] && !OccursAt(t, V5, n + j);
      }
    }
  }

  lemma V5Once()
    ensures |V5| == 13 && V5[12] == '5' && V5 != V6 && forall j :: 0 <= j < 12 ==> V5[j] != '5'
  {
    assert V5[0] == 'S' && V5[1] == 't' && V5[2] == 'a' && V5[3] == 't' && V5[4] == 's' && V5[5] == 'S' && V5[6] == 'i';
    assert V5[7] == 'm' && V5[8] == 'p' && V5[9] == 'l' && V5[10] == 'e' && V5[11] == 'V' && V5[12] == '5' && V6[12] == '6';
  }

  lemma DowngradedEarlier(t: string, i: nat, j: nat)
    requires OccursAt(t, V6, i) && Absent(t, V5) && j < i
    ensures !OccursAt(t[..i] + V5 + t[i + 13..], V5, j)
  {
    V5Once();
    var b := t[..i] + V5 + t[i + 13..];
    assert |V6| == 13 && b[i + 12] == '5' && |b| == |t|;
    if j + 13 <= i {
      assert b[j..j + 13] == t[j..j + 13] && !OccursAt(t, V5, j);
    } else {
      assert b[j..j + 13][12] == b[j + 12] == V5[j + 12 - i];
    }
  }

  lemma DowngradedName(name: string, i: nat)
    requires '/' !in name && Absent(name, V5) && OccursAt(name, V6, i)
    ensures |name| >= 13 && '/' !in name + PY && EndsWith(name + PY, PY)
    ensures var t := name + PY;
            var b := t[..i] + V5 + t[i + 13..];
            Upgrade(b) == t && b != t && '/' !in b && EndsWith(b, PY)
  {
    var t := name + PY;
    V5Once();
    V5IsPlain();
    AbsentWithPy(name, V5);
    assert |V6| == 13 && '/' !in PY && t[|t| - 3..] == PY && |PY| == 3;
    assert OccursAt(t, V6, i) by {
      assert t[i..i + 13] == name[i..i + 13];
    }
    var b := t[..i] + V5 + t[i + 13..];
    DowngradedUpgrades(t, i);
    assert b != t by {
      assert b[i + 12] == V5[12] == '5' && t[i + 12] == t[i..i + 13][12] == V6[12] == '6';
    }
    UpgradeKeepsPy(b);
  }

  lemma OtherBecomesOwn(name: string, p: Params, b: string)
    requires '/' !in name && |name| >= 13 && '/' !in b && EndsWith(b, PY) && b != name + PY
    requires Upgrade(b) == name + PY && '/' !in name + PY && EndsWith(name + PY, PY)
    ensures var alphas, w := [ModuleNode(OTHER), ModuleNode(b)], Whole(true, p.datasvcPrefix);
            WalkAll(AlphasSet(WalkAll(AlphasSet(alphas, name, p), w), name, p), w) != WalkAll(AlphasSet(alphas, name, p), w)
  {
    hide Upgrade;
    var w := Whole(true, p.datasvcPrefix);
    var alphas := [ModuleNode(OTHER), ModuleNode(b)];
    OtherIsPy();
    PlainModule(b, p.datasvcPrefix);
    OtherIsNotOwn(alphas[0], name);
    TwoNodes(alphas[0], alphas[1], name);
    var chosen := ModuleSet(alphas[0], name, p);
    assert AlphasSet(alphas, name, p) == [chosen, alphas[1]];
    var once := [Walk(chosen, w), Walk(alphas[1], w)];
    assert once == WalkAll([chosen, alphas[1]], w);
    OtherStaysOther(name, p);
    BasenameSelf(name + PY);
    TwoNodes(once[0], once[1], name);
    ChoiceMoves(alphas, name, p, 1, b);
  }

  lemma OtherStaysOther(name: string, p: Params)
    requires '/' !in name && |name| >= 13
    ensures var once := Walk(ModuleSet(ModuleNode(OTHER), name, p), Whole(true, p.datasvcPrefix));
            !IsOwn(once, name) && EndsWith(ModuleOf(once), PY)
  {
    OtherIsPy();
    BasenameSelf(OTHER);
    ChosenFile(ModuleNode(OTHER), name, p);
    OtherIsNotOwn(Walk(ModuleSet(ModuleNode(OTHER), name, p), Whole(true, p.datasvcPrefix)), name);
  }

  /** A name that is an upgraded one: some other file becomes the factor's own by the first run. */
  lemma UpgradedNameFails(name: string, p: Params, i: nat)
    requires '/' !in name && Absent(name, V5) && OccursAt(name, V6, i)
    ensures |V6| == 13
    ensures var t := name + PY;
            var alphas, w := [ModuleNode(OTHER), ModuleNode(t[..i] + V5 + t[i + 13..])], Whole(true, p.datasvcPrefix);
            WalkAll(AlphasSet(WalkAll(AlphasSet(alphas, name, p), w), name, p), w) != WalkAll(AlphasSet(alphas, name, p), w)
  {
    hide Upgrade, WalkAll, AlphasSet;
    DowngradedName(name, i);
    OtherBecomesOwn(name, p, (name + PY)[..i] + V5 + (name + PY)[i + 13..]);
  }

  lemma {:induction false} ModulesShow(alphas: seq<Xml>, name: string, p: Params)
    requires TreesOk(alphas, true)
    requires var w := Whole(true, p.datasvcPrefix);
             WalkAll(AlphasSet(WalkAll(AlphasSet(alphas, name, p), w), name, p), w) != WalkAll(AlphasSet(alphas, name, p), w)
    ensures DocumentOk(Document(map[], alphas), name, p) && !Idempotent(Document(map[], alphas), name, p)
  {
    var g := Document(map[], alphas);
    DocumentIsOk(map[], alphas, name, p);
    ProductionizedIsDone(g, name, p);
    ProductionizedIsDone(Productionized(g, name, p), name, p);
    assert Done(Done(g, name, p), name, p).modules.alphas != Done(g, name, p).modules.alphas;
  }

  lemma ModuleNodesOk(a: string, b: string)
    ensures TreesOk([ModuleNode(a), ModuleNode(b)], true)
  {
    Names();
    assert TreesOk([], true);
    assert AttrsOk(ModuleNode(a).attrs, true) && AttrsOk(ModuleNode(b).attrs, true);
    TreesOkIs([ModuleNode(a), ModuleNode(b)], true);
  }

  lemma BadNameShows(name: string, p: Params) returns (g: Gsim)
    requires '/' !in name && !NameOk(name)
    ensures DocumentOk(g, name, p) && !Idempotent(g, name, p)
  {
    if !Absent(name, V5) {
      var i :| OccursAt(name, V5, i);
      UpgradableNameFails(name, p, i);
      ModuleNodesOk(OTHER, name + PY);
      ModulesShow([ModuleNode(OTHER), ModuleNode(name + PY)], name, p);
      g := Document(map[], [ModuleNode(OTHER), ModuleNode(name + PY)]);
    } else {
      var i :| OccursAt(name, V6, i);
      var t := name + PY;
      assert |V6| == 13;
      UpgradedNameFails(name, p, i);
      ModuleNodesOk(OTHER, t[..i] + V5 + t[i + 13..]);
      ModulesShow([ModuleNode(OTHER), ModuleNode(t[..i] + V5 + t[i + 13..])], name, p);
      g := Document(map[], [ModuleNode(OTHER), ModuleNode(t[..i] + V5 + t[i + 13..])]);
    }
  }

  /** Of a directory name and a prefix: every document that is in order settles after one run exactly when both are proper. */
  lemma ConditionsExactly(name: string, p: Params)
    requires '/' !in name
    ensures (forall g :: DocumentOk(g, name, p) ==> Idempotent(g, name, p)) <==> PrefixOk(p.datasvcPrefix) && NameOk(name)
  {
    if !PrefixOk(p.datasvcPrefix) {
      var g := BadPrefixShows(name, p);
    } else if !NameOk(name) {
      var g := BadNameShows(name, p);
    } else {
      forall g | DocumentOk(g, name, p)
        ensures Idempotent(g, name, p)
      {
        ProductionizeExactly(g, name, p);
      }
    }
  }
}
