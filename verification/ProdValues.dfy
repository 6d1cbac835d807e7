// What productionising writes, key by key, in the texts of the configuration and of the document
// (ops/core/prodxml.py:119-222).
module ProdValues {
  import opened Prelude
  import opened Rewrite
  import opened ProdRules
  import opened ProdXml
  import opened ProdTwice

  /** r is root without the slashes at its end. */
  predicate Trims(root: string, r: string) {
    r <= root && (forall i :: |r| <= i < |root| ==> root[i] == '/') && (r == [] || r[|r| - 1] != '/')
  }

  lemma {:induction false} TrimIs(root: string, r: string)
    requires Trims(root, r)
    ensures TrimSlash(root) == r
  {
    if root != r {
      assert root[..|root| - 1][..|r|] == r;
      TrimIs(root[..|root| - 1], r);
    } else {
      assert root[..|r|] == r;
    }
  }

  /** A written text under /datasvc gets the prefix of the production host. */
  predicate Lands(was: string, now: string, prefix: string) {
    if |was| >= 8 && was[..8] == "/datasvc" then now == prefix + was else now == was
  }

  lemma PlainRule(key: string, v: string, prefix: string)
    requires key !in {"niodatapath", "dataPath", "module"}
    ensures Lands(v, Rule(Whole(true, prefix), key, v), prefix) && Rule(Whole(false, prefix), key, v) == v
  {
    assert |"/datasvc"| == 8;
  }

  lemma Keys()
    ensures {"startdate", "enddate", "backdays", "checkpointDir", "checkpointDays", "pnlDir", "dumpPnl", "dumpAlphaFile", "dumpAlphaDir", "id"}
            !! {"niodatapath", "dataPath", "module"}
  {
    assert |"niodatapath"| == 11 && |"dataPath"| == 8 && |"module"| == 6;
    assert |"startdate"| == 9 && |"enddate"| == 7 && |"backdays"| == 8 && |"checkpointDir"| == 13 && |"checkpointDays"| == 14;
    assert |"pnlDir"| == 6 && |"dumpPnl"| == 7 && |"dumpAlphaFile"| == 13 && |"dumpAlphaDir"| == 12 && |"id"| == 2;
    assert "backdays"[0] == 'b' && "dataPath"[0] == 'd' && "pnlDir"[0] == 'p' && "module"[0] == 'm';
  }

  lemma Parts(g: Gsim, name: string, p: Params)
    ensures var r, o := Productionized(g, name, p), Whole(true, p.datasvcPrefix);
            && r.universe == Walk(SetAll(g.universe, UniverseSettings(p)), Whole(false, p.datasvcPrefix))
            && r.constants == Walk(SetAll(g.constants, ConstantsSettings(name, p)), o)
            && r.portfolio.stats == Walk(SetAll(g.portfolio.stats, StatsSettings(p)), o)
            && r.portfolio.alpha == Walk(SetAll(g.portfolio.alpha, LegSettings(p)), o)
            && r.portfolio.attrs == WalkAttrs(g.portfolio.attrs, o)
            && (g.modules.Modules? ==> r.modules == ModulesDone(g.modules, name, p))
  {
    hide Walk, WalkAttrs, SetAll, ModulesDone;
    ProductionizedIsDone(g, name, p);
  }

  lemma {:induction false} SetKey(x: Xml, settings: Attrs, pass: Pass, k: string)
    requires k in settings
    ensures var attrs := Walk(SetAll(x, settings), pass).attrs; k in attrs && attrs[k] == Rule(pass, k, settings[k])
  {
  }

  /** Universe gets the two dates of the configuration, whatever they are. */
  lemma Dates(g: Gsim, name: string, p: Params)
    ensures var attrs := Productionized(g, name, p).universe.attrs;
            "startdate" in attrs && attrs["startdate"] == p.startdate && "enddate" in attrs && attrs["enddate"] == p.enddate
  {
    hide Productionized, Walk, SetAll, Rule;
    Keys();
    Parts(g, name, p);
    assert |"startdate"| == 9 && |"enddate"| == 7;
    var inside := Whole(false, p.datasvcPrefix);
    SetKey(g.universe, UniverseSettings(p), inside, "startdate");
    SetKey(g.universe, UniverseSettings(p), inside, "enddate");
    PlainRule("startdate", p.startdate, p.datasvcPrefix);
    PlainRule("enddate", p.enddate, p.datasvcPrefix);
  }

  /** Constants: backdays, the factor's own checkpoint directory, and five days of checkpoints. */
  lemma Checkpoints(g: Gsim, name: string, p: Params, root: string)
    requires Trims(p.checkpointRoot, root)
    ensures var attrs := Productionized(g, name, p).constants.attrs;
            && "backdays" in attrs && Lands(p.backdays, attrs["backdays"], p.datasvcPrefix)
            && "checkpointDir" in attrs && Lands(root + "/" + name + "/", attrs["checkpointDir"], p.datasvcPrefix)
            && "checkpointDays" in attrs && attrs["checkpointDays"] == "5"
  {
    hide Productionized, Walk, SetAll, Rule;
    Keys();
    Parts(g, name, p);
    TrimIs(p.checkpointRoot, root);
    assert |"backdays"| == 8 && |"checkpointDir"| == 13 && |"checkpointDays"| == 14 && |"niodatapath"| == 11 && |"5"| == 1;
    var rest := Whole(true, p.datasvcPrefix);
    SetKey(g.constants, ConstantsSettings(name, p), rest, "backdays");
    SetKey(g.constants, ConstantsSettings(name, p), rest, "checkpointDir");
    SetKey(g.constants, ConstantsSettings(name, p), rest, "checkpointDays");
    PlainRule("backdays", p.backdays, p.datasvcPrefix);
    PlainRule("checkpointDir", root + "/" + name + "/", p.datasvcPrefix);
    PlainRule("checkpointDays", "5", p.datasvcPrefix);
  }

  /** Stats and the leg: where pnl and dump go, and that both are written. */
  lemma Outputs(g: Gsim, name: string, p: Params)
    ensures var stats, leg := Productionized(g, name, p).portfolio.stats.attrs, Productionized(g, name, p).portfolio.alpha.attrs;
            && "pnlDir" in stats && Lands(p.pnlRoot, stats["pnlDir"], p.datasvcPrefix) && "dumpPnl" in stats && stats["dumpPnl"] == "true"
            && "dumpAlphaDir" in leg && Lands(p.dumpRoot, leg["dumpAlphaDir"], p.datasvcPrefix)
            && "dumpAlphaFile" in leg && leg["dumpAlphaFile"] == "true"
  {
    hide Productionized, Walk, SetAll, Rule;
    Keys();
    Parts(g, name, p);
    assert |"pnlDir"| == 6 && |"dumpPnl"| == 7 && |"dumpAlphaFile"| == 13 && |"dumpAlphaDir"| == 12 && |"true"| == 4;
    var rest := Whole(true, p.datasvcPrefix);
    SetKey(g.portfolio.stats, StatsSettings(p), rest, "pnlDir");
    SetKey(g.portfolio.stats, StatsSettings(p), rest, "dumpPnl");
    SetKey(g.portfolio.alpha, LegSettings(p), rest, "dumpAlphaDir");
    SetKey(g.portfolio.alpha, LegSettings(p), rest, "dumpAlphaFile");
    PlainRule("pnlDir", p.pnlRoot, p.datasvcPrefix);
    PlainRule("dumpPnl", "true", p.datasvcPrefix);
    PlainRule("dumpAlphaDir", p.dumpRoot, p.datasvcPrefix);
    PlainRule("dumpAlphaFile", "true", p.datasvcPrefix);
  }

  // ------------------------------------------------------------------ texts in an old form

  /** v holds an old path or the old statistics module, and w is v with the new one; rest, and start for the two forms that may
      stand anywhere, have none. */
  ghost predicate Renews(k: string, v: string, w: string, start: string, rest: string) {
    || (k == "niodatapath" && v == "/datasvc/data/cc_2025" + rest && w == "/datasvc/data/cc_all" + rest && Absent(w, "/home/fguo/data_local"))
    || (k == "niodatapath" && v == "/cache/data" + rest && w == "/datasvc/data" + rest && Absent(w, "/home/fguo/data_local"))
    || (k in {"niodatapath", "dataPath"} && HoldsOne(v, w, start, "/home/fguo/data_local", "/datasvc/data/cc_all/cn_equity_feature_5min", rest)
        && (k == "niodatapath" ==> !StartsWith(v, "/datasvc/data/cc_2025") && !StartsWith(v, "/cache/data")))
    || (k == "module" && HoldsOne(v, w, start, "StatsSimpleV5", "StatsSimpleV6", rest) && !StartsWith(v, "/datasvc"))
  }

  ghost predicate HoldsOne(v: string, w: string, start: string, was: string, now: string, rest: string) {
    && v == start + (was + rest) && w == start + (now + rest) && Absent(rest, was)
    && forall i :: 0 <= i < |start| ==> !OccursAt(v, was, i)
  }

  lemma {:induction false} ReplacesOne(v: string, w: string, start: string, was: string, now: string, rest: string)
    requires was != "" && HoldsOne(v, w, start, was, now, rest)
    ensures ReplaceAll(v, was, now) == w
  {
    ReplaceSkips(start, was + rest, was, now);
    ReplaceAbsent(rest, was, now);
    assert (was + rest)[..|was|] == was && (was + rest)[|was|..] == rest;
  }

  lemma RenewedLegacy(k: string, v: string, w: string, start: string, rest: string)
    requires Renews(k, v, w, start, rest) && k != "module"
    ensures Legacy(k, v) == w
  {
    Names();
    Literals();
    hide ReplaceAll, Absent;
    if k == "niodatapath" && v == "/datasvc/data/cc_2025" + rest && w == "/datasvc/data/cc_all" + rest && Absent(w, HOME) {
      assert v[..21] == CC_2025 && v[21..] == rest && w[1] == 'd';
      ReplaceAbsent(w, HOME, FIVE);
    } else if k == "niodatapath" && v == "/cache/data" + rest && w == "/datasvc/data" + rest && Absent(w, HOME) {
      assert v[1] == 'c' && v[..11] == CACHE && v[11..] == rest;
      NotStart(v, CC_2025, 1);
      ReplaceAbsent(w, HOME, FIVE);
    } else {
      ReplacesOne(v, w, start, HOME, FIVE, rest);
    }
  }

  /** Old forms anywhere outside Universe become new ones with the prefix, in Universe without it. */
  lemma Renewed(k: string, v: string, w: string, start: string, rest: string, prefix: string)
    requires Renews(k, v, w, start, rest)
    ensures k != "module" ==> Lands(w, Rule(Whole(true, prefix), k, v), prefix)
    ensures k == "module" ==> Rule(Whole(true, prefix), k, v) == w
    ensures Rule(Whole(false, prefix), k, v) == w
  {
    Names();
    assert |"/datasvc"| == 8;
    if k == "module" {
      ReplacesOne(v, w, start, V5, V6, rest);
    } else {
      RenewedLegacy(k, v, w, start, rest);
    }
  }

  /** In the document: attributes of Portfolio stand for all elements outside Universe. */
  lemma RenewedInDocument(g: Gsim, name: string, p: Params, k: string, v: string, w: string, start: string, rest: string)
    requires Renews(k, v, w, start, rest)
    ensures var r := Productionized(g, name, p);
            && (k in g.portfolio.attrs && g.portfolio.attrs[k] == v ==>
                  k in r.portfolio.attrs && if k == "module" then r.portfolio.attrs[k] == w else Lands(w, r.portfolio.attrs[k], p.datasvcPrefix))
            && (k in g.universe.attrs && g.universe.attrs[k] == v ==> k in r.universe.attrs && r.universe.attrs[k] == w)
  {
    hide Productionized, Renews, Rule;
    Names();
    Renewed(k, v, w, start, rest, p.datasvcPrefix);
    Parts(g, name, p);
    NotDates(k, v, w, start, rest);
  }

  lemma NotDates(k: string, v: string, w: string, start: string, rest: string)
    requires Renews(k, v, w, start, rest)
    ensures k !in {"startdate", "enddate"}
  {
    Keys();
  }

  /** The data path of the configuration is treated like one in the document. */
  lemma DataPath(g: Gsim, name: string, p: Params, w: string, start: string, rest: string)
    ensures var attrs := Productionized(g, name, p).constants.attrs;
            && "niodatapath" in attrs
            && (Renews("niodatapath", p.nioDataPath, w, start, rest) ==> Lands(w, attrs["niodatapath"], p.datasvcPrefix))
            && ((!StartsWith(p.nioDataPath, "/datasvc/data/cc_2025") && !StartsWith(p.nioDataPath, "/cache/data")
                 && Absent(p.nioDataPath, "/home/fguo/data_local")) ==> Lands(p.nioDataPath, attrs["niodatapath"], p.datasvcPrefix))
  {
    hide Productionized, Walk, SetAll, Renews, ReplaceAll;
    Parts(g, name, p);
    Names();
    assert |"backdays"| == 8 && |"checkpointDir"| == 13 && |"checkpointDays"| == 14 && |"niodatapath"| == 11 && |"/datasvc"| == 8;
    SetKey(g.constants, ConstantsSettings(name, p), Whole(true, p.datasvcPrefix), "niodatapath");
    if Renews("niodatapath", p.nioDataPath, w, start, rest) {
      Renewed("niodatapath", p.nioDataPath, w, start, rest, p.datasvcPrefix);
    }
    if Absent(p.nioDataPath, HOME) {
      ReplaceAbsent(p.nioDataPath, HOME, FIVE);
    }
  }

  // ------------------------------------------------------------------ the factor's module

  /** A path to a .py file ends in .py. */
  lemma LeadsToPy(m: string, name: string)
    requires LeadsTo(m, name + ".py")
    ensures EndsWith(m, ".py")
  {
    var own := name + ".py";
    assert own[|own| - 3..] == ".py";
    if m != own {
      assert m[|m| - 3..] == m[|m| - |own| - 1..][|own| + 1 - 3..];
      assert ("/" + own)[|own| + 1 - 3..] == ".py";
    }
  }

  lemma OwnExactly(x: Xml, name: string)
    requires '/' !in name
    ensures IsOwn(x, name) <==> LeadsTo(ModuleOf(x), name + ".py")
  {
    var m, own := ModuleOf(x), name + ".py";
    assert '/' !in own by {
      assert forall i :: 0 <= i < |own| ==> own[i] != '/';
    }
    LeadsToBasename(m);
    if LeadsTo(m, own) {
      BasenameIs(m, own);
      LeadsToPy(m, name);
    }
    hide Basename, LeadsTo, EndsWith;
  }

  /** The only node; else the first whose module is the factor's file; else the first .py; else the first. */
  ghost predicate IsChosen(alphas: seq<Xml>, name: string, k: nat) {
    k < |alphas| &&
    if |alphas| == 1 then k == 0
    else if exists j :: 0 <= j < |alphas| && LeadsTo(ModuleOf(alphas[j]), name + ".py") then
      LeadsTo(ModuleOf(alphas[k]), name + ".py") && forall j :: 0 <= j < k ==> !LeadsTo(ModuleOf(alphas[j]), name + ".py")
    else if exists j :: 0 <= j < |alphas| && EndsWith(ModuleOf(alphas[j]), ".py") then
      EndsWith(ModuleOf(alphas[k]), ".py") && forall j :: 0 <= j < k ==> !EndsWith(ModuleOf(alphas[j]), ".py")
    else k == 0
  }

  lemma ChosenIs(alphas: seq<Xml>, name: string, k: nat)
    requires '/' !in name && alphas != [] && IsChosen(alphas, name, k)
    ensures ModuleIndex(alphas, name) == k
  {
    forall j | 0 <= j < |alphas|
      ensures IsOwn(alphas[j], name) <==> LeadsTo(ModuleOf(alphas[j]), name + ".py")
    {
      OwnExactly(alphas[j], name);
    }
    var own, py := FirstOwn(alphas, name, 0), FirstPy(alphas, 0);
    hide IsOwn, LeadsTo;
  }

  /** The chosen node points to the factor's place under the module prefix, with the file name it had, or with the factor's name
      when it had no Python file. */
  lemma ChosenModule(g: Gsim, name: string, p: Params, k: nat, root: string, file: string)
    requires '/' !in name && g.modules.Modules? && IsChosen(g.modules.alphas, name, k) && Trims(p.modulePrefix, root)
    requires var m := ModuleOf(g.modules.alphas[k]);
             if EndsWith(m, ".py") then LeadsTo(m, file) && '/' !in file else file == name + ".py"
    ensures var r, t := Productionized(g, name, p), root + "/" + name + "/" + file;
            && r.modules.Modules? && |r.modules.alphas| == |g.modules.alphas|
            && "module" in r.modules.alphas[k].attrs
            && (Absent(t, "StatsSimpleV5") && Absent(p.datasvcPrefix + t, "StatsSimpleV5") ==> Lands(t, r.modules.alphas[k].attrs["module"], p.datasvcPrefix))
  {
    assert g.modules.alphas != [];
    hide Productionized, IsChosen, Walk, Rule;
    Parts(g, name, p);
    ChosenIs(g.modules.alphas, name, k);
    TrimIs(p.modulePrefix, root);
    if EndsWith(ModuleOf(g.modules.alphas[k]), PY) {
      BasenameIs(ModuleOf(g.modules.alphas[k]), file);
    }
    var t := root + "/" + name + "/" + file;
    ModuleRule(t, p.datasvcPrefix);
    assert ModuleSet(g.modules.alphas[k], name, p).attrs["module"] == t;
  }

  lemma ModuleRule(t: string, prefix: string)
    ensures Absent(t, "StatsSimpleV5") && Absent(prefix + t, "StatsSimpleV5") ==> Lands(t, Rule(Whole(true, prefix), "module", t), prefix)
  {
    Names();
    assert |"/datasvc"| == 8;
    if Absent(t, V5) && Absent(prefix + t, V5) {
      ReplaceAbsent(t, V5, V6);
      ReplaceAbsent(prefix + t, V5, V6);
    }
  }

  /** An id of a Data element loses a Mod at its end, and nothing else. */
  lemma DataIds(g: Gsim, name: string, p: Params, i: nat, id: string, s: string)
    requires g.modules.Modules? && i < |g.modules.datas| && "id" in g.modules.datas[i].attrs && g.modules.datas[i].attrs["id"] == id
    requires !StartsWith(id, "/datasvc")
    ensures var r := Productionized(g, name, p);
            && r.modules.Modules? && |r.modules.datas| == |g.modules.datas| && "id" in r.modules.datas[i].attrs
            && (id == s + "Mod" ==> r.modules.datas[i].attrs["id"] == s)
            && (!EndsWith(id, "Mod") ==> r.modules.datas[i].attrs["id"] == id)
  {
    hide Productionized;
    Parts(g, name, p);
    Keys();
    PlainRule("id", id, p.datasvcPrefix);
    assert |"/datasvc"| == 8 && |"Mod"| == 3;
    if id == s + "Mod" {
      assert id[|id| - 3..] == "Mod" && id[..|id| - 3] == s;
    }
  }
}
