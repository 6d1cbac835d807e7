// What productionising does to one attribute value (ops/core/prodxml.py:156-202): legacy paths, the datasvc prefix,
// the Stats upgrade - and exactly when doing it twice is doing it once.
module ProdRules {
  import opened Rewrite

  const HOME := "/home/fguo/data_local"
  const FIVE := "/datasvc/data/cc_all/cn_equity_feature_5min"
  const DATA := "/datasvc/data"
  const CC := "/cc_2025"
  const CC_2025 := DATA + CC  // "/datasvc/data/cc_2025"
  const CC_ALL := "/datasvc/data/cc_all"
  const CACHE := "/cache/data"
  const CACHE_CC_2025 := CACHE + CC
  const CACHE_HOME := "/cache" + HOME
  const SVC := "/datasvc"
  const V5 := "StatsSimpleV5"
  const V6 := "StatsSimpleV6"

  // ------------------------------------------------------------------ the rule table

  datatype LegacyRule = LegacyRule(attr: string, was: string, now: string, isPrefix: bool)

  const LEGACY_RULES: seq<LegacyRule> := [
    LegacyRule("niodatapath", CC_2025, CC_ALL, true),
    LegacyRule("niodatapath", CACHE, DATA, true),
    LegacyRule("niodatapath", HOME, FIVE, false),
    LegacyRule("dataPath", HOME, FIVE, false)
  ]

  function ApplyRule(r: LegacyRule, attr: string, v: string): string {
    if attr != r.attr || r.was == "" then v
    else if !r.isPrefix then ReplaceAll(v, r.was, r.now)
    else if StartsWith(v, r.was) then r.now + v[|r.was|..]
    else v
  }

  function ApplyRules(rules: seq<LegacyRule>, attr: string, v: string): string {
    if rules == [] then v else ApplyRules(rules[1..], attr, ApplyRule(rules[0], attr, v))
  }

  /** The walker's first callback: the rules in table order, each on what the ones before made of the value. */
  method LegacyLoop(attr: string, v: string) returns (r: string)
    ensures r == Legacy(attr, v)
  {
    LegacyIsTable(attr, v);
    r := v;
    var i := 0;
    while i < |LEGACY_RULES|
      invariant 0 <= i <= |LEGACY_RULES|
      invariant ApplyRules(LEGACY_RULES[i..], attr, r) == ApplyRules(LEGACY_RULES, attr, v)
    {
      assert LEGACY_RULES[i..][1..] == LEGACY_RULES[i + 1..];
      r := ApplyRule(LEGACY_RULES[i], attr, r);
      i := i + 1;
    }
  }

  /** was at the start of the value becomes now. */
  function Swap(v: string, was: string, now: string): string {
    if StartsWith(v, was) then now + v[|was|..] else v
  }

  /** A @niodatapath goes through both prefixes and then the old home, a @dataPath through the old home only. */
  function Legacy(attr: string, v: string): string {
    if attr == "niodatapath" then ReplaceAll(Swap(Swap(v, CC_2025, CC_ALL), CACHE, DATA), HOME, FIVE)
    else if attr == "dataPath" then ReplaceAll(v, HOME, FIVE)
    else v
  }

  /** The four rules, each applied to what the ones before it left, are that composition. */
  lemma {:induction false} LegacyIsTable(attr: string, v: string)
    ensures ApplyRules(LEGACY_RULES, attr, v) == Legacy(attr, v)
  {
    var v1 := ApplyRule(LEGACY_RULES[0], attr, v);
    var v2 := ApplyRule(LEGACY_RULES[1], attr, v1);
    var v3 := ApplyRule(LEGACY_RULES[2], attr, v2);
    var v4 := ApplyRule(LEGACY_RULES[3], attr, v3);
    assert ApplyRules(LEGACY_RULES[4..], attr, v4) == v4;
    assert LEGACY_RULES[3..][1..] == LEGACY_RULES[4..];
    assert ApplyRules(LEGACY_RULES[3..], attr, v3) == v4;
    assert LEGACY_RULES[2..][1..] == LEGACY_RULES[3..];
    assert ApplyRules(LEGACY_RULES[2..], attr, v2) == v4;
    assert LEGACY_RULES[1..][1..] == LEGACY_RULES[2..];
    assert ApplyRules(LEGACY_RULES[1..], attr, v1) == v4;
    assert "niodatapath" != "dataPath" by { assert |"niodatapath"| != |"dataPath"|; }
  }

  function Migrate(v: string, prefix: string): string {
    if StartsWith(v, SVC) then prefix + v else v
  }

  function StatsUpgrade(attr: string, v: string): string {
    if attr == "module" then ReplaceAll(v, V5, V6) else v
  }

  /** An attribute inside Universe, or of gsim itself: no prefix. */
  function InUniverse(attr: string, v: string): string {
    StatsUpgrade(attr, Legacy(attr, v))
  }

  /** Any other attribute. */
  function Elsewhere(attr: string, v: string, prefix: string): string {
    StatsUpgrade(attr, Migrate(Legacy(attr, v), prefix))
  }

  // ------------------------------------------------------------------ replacing settles

  lemma V5Settles()
    ensures Settles(V5, V6)
  {
    forall i
      ensures !OccursAt(V6, V5, i)
    {
      assert V6[12] != V5[12] && |V5| == |V6| == 13;
      assert V6[0..0 + |V5|] == V6;
    }
    forall k | 1 <= k < |V5|
      ensures V6[|V6| - k..] != V5[..k]
    {
      assert V6[|V6| - k..][k - 1] == '6';
      assert forall i :: 0 <= i < |V5| ==> V5[i] != '6';
    }
    forall k | 1 <= k <= |V5|
      ensures V6[..k] != V5[|V5| - k..]
    {
      assert V5[|V5| - k..][k - 1] == '5';
      assert forall i :: 0 <= i < |V6| ==> V6[i] != '5';
    }
  }

  lemma FiveHasNoH()
    ensures forall i :: 0 <= i < |FIVE| ==> FIVE[i] != 'h'
  {
  }

  lemma HomeSettlesInside(i: int)
    ensures !OccursAt(FIVE, HOME, i)
  {
    FiveHasNoH();
    assert HOME[1] == 'h' && |HOME| == 21;
    if 0 <= i && i + 21 <= |FIVE| {
      assert FIVE[i..i + 21][1] == FIVE[i + 1];
    }
  }

  lemma HomeSettlesAfter(k: nat)
    requires 1 <= k < |HOME|
    ensures FIVE[|FIVE| - k..] != HOME[..k]
  {
    FiveHasNoH();
    if k == 1 {
      assert FIVE[|FIVE| - 1] != HOME[0];
    } else {
      assert HOME[..k][1] == 'h';
    }
  }

  lemma HomeSettlesBefore(k: nat)
    requires 1 <= k <= |HOME|
    ensures FIVE[..k] != HOME[|HOME| - k..]
  {
    assert FIVE[0] == '/' && FIVE[1] == 'd' && FIVE[5] == 's' && |HOME| == 21;
    assert HOME[1] == 'h' && HOME[6] == 'f' && HOME[15] == '_';
    var a, b := FIVE[..k], HOME[21 - k..];
    assert a[0] == FIVE[0] && b[0] == HOME[21 - k];
    if k == 21 || k == 16 {
      assert a[1] == FIVE[1] && b[1] == HOME[22 - k];
    } else if k == 11 {
      assert a[5] == FIVE[5] && b[5] == HOME[15];
    } else {
      assert HOME[21 - k] != '/';
    }
  }

  lemma HomeSettles()
    ensures Settles(HOME, FIVE)
  {
    forall i
      ensures !OccursAt(FIVE, HOME, i)
    {
      HomeSettlesInside(i);
    }
    forall k | 1 <= k < |HOME|
      ensures FIVE[|FIVE| - k..] != HOME[..k]
    {
      HomeSettlesAfter(k);
    }
    forall k | 1 <= k <= |HOME|
      ensures FIVE[..k] != HOME[|HOME| - k..]
    {
      HomeSettlesBefore(k);
    }
  }

  // ------------------------------------------------------------------ beginnings of values

  /** Replacing HOME leaves alone any beginning in which HOME cannot start: every '/' of it is followed by something
      other than 'h'. */
  ghost predicate Plain(q: string) {
    q != "" && forall i :: 0 <= i < |q| ==> q[i] != '/' || (i + 1 < |q| && q[i + 1] != 'h')
  }

  lemma NoHomeIn(s: string, q: string, i: int)
    requires StartsWith(s, q) && Plain(q) && 0 <= i < |q|
    ensures !OccursAt(s, HOME, i)
  {
    assert HOME[0] == '/' && HOME[1] == 'h' && |HOME| == 21;
    assert q[i] != '/' || (i + 1 < |q| && q[i + 1] != 'h');
    assert s[..|q|][i] == s[i] == q[i];
    if i + 1 < |q| {
      assert s[..|q|][i + 1] == s[i + 1] == q[i + 1];
    }
    if i + |HOME| <= |s| {
      var t := s[i..i + |HOME|];
      assert t[0] == s[i] && t[1] == s[i + 1];
      assert t[0] != HOME[0] || t[1] != HOME[1];
    }
  }

  lemma {:induction false} PlainStays(s: string, q: string)
    requires StartsWith(s, q) && Plain(q)
    ensures StartsWith(ReplaceAll(s, HOME, FIVE), q)
    ensures ReplaceAll(s, HOME, FIVE) == q + ReplaceAll(s[|q|..], HOME, FIVE)
  {
    forall i | 0 <= i < |q|
      ensures !OccursAt(s, HOME, i)
    {
      NoHomeIn(s, q, i);
    }
    ReplaceKeepsStart(s, HOME, FIVE, |q|);
  }

  lemma Literals()
    ensures Plain(DATA) && Plain(CC_2025) && Plain(CC_ALL) && Plain(SVC)
    ensures DATA[1] == 'd' && CACHE[1] == 'c' && CC_2025[1] == 'd' && CC_ALL[1] == 'd' && SVC[1] == 'd' && CC_2025[17] == '2' && CC_ALL[17] == 'a'
    ensures |DATA| == 13 && |CACHE| == 11 && |CC_2025| == 21 && |CC_ALL| == 20 && |SVC| == 8
  {
  }

  lemma {:induction false} ReplaceNeverShrinks(s: string)
    ensures |ReplaceAll(s, HOME, FIVE)| >= |s|
  {
    if |s| >= |HOME| {
      if StartsWith(s, HOME) {
        ReplaceNeverShrinks(s[|HOME|..]);
      } else {
        ReplaceNeverShrinks(s[1..]);
      }
    }
  }

  // ------------------------------------------------------------------ @niodatapath

  function Swapped(v: string): string {
    Swap(Swap(v, CC_2025, CC_ALL), CACHE, DATA)
  }

  function Pathed(v: string): string {
    ReplaceAll(Swapped(v), HOME, FIVE)
  }

  lemma NotStart(s: string, q: string, i: nat)
    requires i < |s| && i < |q| && s[i] != q[i]
    ensures !StartsWith(s, q)
  {
    if |s| >= |q| {
      assert s[..|q|][i] == s[i];
    }
  }

  /** What the two prefix rules make of a value. */
  lemma SwappedCases(v: string)
    ensures StartsWith(v, CC_2025) ==> Swapped(v) == CC_ALL + v[21..] && StartsWith(Swapped(v), CC_ALL)
    ensures StartsWith(v, CACHE) ==> Swapped(v) == DATA + v[11..] && StartsWith(Swapped(v), DATA)
    ensures !StartsWith(v, CC_2025) && !StartsWith(v, CACHE) ==> Swapped(v) == v
  {
    Literals();
    if StartsWith(v, CC_2025) {
      var v1 := CC_ALL + v[21..];
      assert v1[1] == CC_ALL[1];
      NotStart(v1, CACHE, 1);
      assert v1[..20] == CC_ALL;
    } else if StartsWith(v, CACHE) {
      assert (DATA + v[11..])[..13] == DATA;
    }
  }

  lemma PathedSettled(v: string)
    ensures Absent(Pathed(v), HOME) && ReplaceAll(Pathed(v), HOME, FIVE) == Pathed(v)
  {
    HomeSettles();
    ReplaceLeavesNone(Swapped(v), HOME, FIVE);
    ReplaceAbsent(Pathed(v), HOME, FIVE);
  }

  /** A second time changes nothing exactly when neither prefix rule applies to the result. */
  lemma PathedTwice(v: string)
    ensures Pathed(Pathed(v)) == Pathed(v) <==> !StartsWith(Pathed(v), CC_2025) && !StartsWith(Pathed(v), CACHE)
  {
    var w := Pathed(v);
    PathedSettled(v);
    SwappedCases(w);
    Literals();
    if StartsWith(w, CC_2025) {
      PlainStays(Swapped(w), CC_ALL);
      assert Pathed(w)[..20][17] == 'a' && w[..21][17] == '2';
    } else if StartsWith(w, CACHE) {
      PlainStays(Swapped(w), DATA);
      assert Pathed(w)[..13][1] == 'd' && w[..11][1] == 'c';
    }
  }

  lemma FitsNowhere(q: string, i: nat, j: nat)
    requires j < |FIVE| && i + j < |q| && q[i + j] != FIVE[j]
    ensures !Fits(FIVE, q, i)
  {
  }

  lemma FivePlaces()
    ensures |FIVE| == 43 && FIVE[0] == '/' && FIVE[1] == 'd' && FIVE[5] == 's' && FIVE[17] == 'a'
  {
  }

  lemma Cc2025FitsNowhere(i: nat)
    requires i < |CC_2025|
    ensures !Fits(FIVE, CC_2025, i)
  {
    FivePlaces();
    if CC_2025[i] != '/' {
      FitsNowhere(CC_2025, i, 0);
    } else if i == 0 {
      FitsNowhere(CC_2025, 0, 17);
    } else if i == 8 {
      FitsNowhere(CC_2025, 8, 5);
    } else {
      FitsNowhere(CC_2025, 13, 1);
    }
  }

  /** In CACHE it fits only after "/cache". */
  lemma CacheFitsOnce(i: nat)
    requires i < |CACHE| && i != 6
    ensures !Fits(FIVE, CACHE, i)
  {
    FivePlaces();
    if CACHE[i] != '/' {
      FitsNowhere(CACHE, i, 0);
    } else {
      FitsNowhere(CACHE, 0, 1);
    }
  }

  lemma CacheWords()
    ensures CACHE[..6] == "/cache" && CACHE[6..] == "/data" == FIVE[..5] && |CC| == 8
    ensures CACHE_HOME[1] == 'c' && CACHE_HOME[7] == 'h' && CACHE[7] == 'd' && CACHE_CC_2025[1] == 'c' && |CACHE_CC_2025| == 19 && |CACHE_HOME| == 27
    ensures CC_2025[13..] == CC && CC_2025[..13] == DATA && CACHE_CC_2025[..11] == CACHE && CACHE_CC_2025[11..] == CC
    ensures CACHE_HOME[..6] == "/cache" && CACHE_HOME[6..] == HOME
  {
    assert HOME[1] == 'h' && |HOME| == 21 && |"/cache"| == 6;
    FiveBegins();
    assert FIVE[..8][..5] == SVC[..5];
    assert CACHE_HOME[7] == HOME[1];
  }

  /** The result is a 2025 path exactly when the value was one under the old cache mount. */
  lemma BecomesCc2025(v: string)
    ensures StartsWith(Pathed(v), CC_2025) <==> StartsWith(v, CACHE_CC_2025)
  {
    var u := Swapped(v);
    Literals();
    CacheWords();
    SwappedCases(v);
    if StartsWith(Pathed(v), CC_2025) {
      forall i | 0 <= i < |CC_2025|
        ensures !Fits(FIVE, CC_2025, i)
      {
        Cc2025FitsNowhere(i);
      }
      StartedBefore(u, HOME, FIVE, CC_2025, |CC_2025|);
      Cc2025Before(v);
    }
    if StartsWith(v, CACHE_CC_2025) {
      assert v[..11] == v[..19][..11];
      assert u[..21] == DATA + v[11..][..8];
      assert v[11..][..8] == v[..19][11..];
      PlainStays(u, CC_2025);
    }
  }

  lemma SwappedSeventeenth(v: string)
    ensures StartsWith(v, CC_2025) ==> |Swapped(v)| > 17 && Swapped(v)[17] == 'a'
  {
    Literals();
    SwappedCases(v);
    if StartsWith(v, CC_2025) {
      assert Swapped(v)[17] == Swapped(v)[..20][17];
    }
  }

  lemma Cc2025Before(v: string)
    requires StartsWith(Swapped(v), CC_2025)
    ensures StartsWith(v, CACHE_CC_2025)
  {
    var u := Swapped(v);
    Literals();
    CacheWords();
    SwappedCases(v);
    SwappedSeventeenth(v);
    assert u[17] == u[..21][17] == '2';
    assert StartsWith(v, CACHE);
    assert v[11..] == u[13..];
    assert v[11..][..8] == u[..21][13..] == CC;
    assert v[..19] == v[..11] + v[11..][..8];
  }

  /** The result is under the old cache mount exactly when the value had HOME right after "/cache". */
  lemma BecomesCache(v: string)
    ensures StartsWith(Pathed(v), CACHE) <==> StartsWith(v, CACHE_HOME)
  {
    if StartsWith(Pathed(v), CACHE) {
      CacheBefore(v);
    }
    if StartsWith(v, CACHE_HOME) {
      CacheAfter(v);
    }
  }

  lemma CacheAfter(v: string)
    requires StartsWith(v, CACHE_HOME)
    ensures StartsWith(Pathed(v), CACHE)
  {
    Literals();
    CacheWords();
    assert v[1] == v[..27][1] == 'c' && v[7] == v[..27][7] == 'h';
    NotStart(v, CC_2025, 1);
    NotStart(v, CACHE, 7);
    SwappedCases(v);
    assert v[..6] == v[..27][..6] && v[6..][..21] == v[..27][6..];
    forall i | 0 <= i < 6
      ensures !OccursAt(v, HOME, i)
    {
      assert v[i] == v[..27][i] && v[1] == 'c';
      if i + |HOME| <= |v| {
        assert v[i..i + |HOME|][0] == v[i] && v[i..i + |HOME|][1] == v[i + 1];
      }
    }
    ReplaceKeepsStart(v, HOME, FIVE, 6);
    assert ReplaceAll(v[6..], HOME, FIVE) == FIVE + ReplaceAll(v[6..][21..], HOME, FIVE);
    assert Pathed(v)[..11] == v[..6] + FIVE[..5];
  }

  /** A value that a prefix rule rewrote has 'd' as its second character. */
  lemma SwappedSecond(v: string)
    ensures StartsWith(v, CC_2025) || StartsWith(v, CACHE) ==> |Swapped(v)| > 1 && Swapped(v)[1] == 'd'
  {
    Literals();
    SwappedCases(v);
    var u := Swapped(v);
    if StartsWith(v, CC_2025) {
      assert u[1] == u[..20][1];
    } else if StartsWith(v, CACHE) {
      assert u[1] == u[..13][1];
    }
  }

  lemma CacheBefore(v: string)
    requires StartsWith(Pathed(v), CACHE)
    ensures StartsWith(v, CACHE_HOME)
  {
    var u := Swapped(v);
    Literals();
    CacheWords();
    SwappedCases(v);
    forall i | 0 <= i < 6
      ensures !Fits(FIVE, CACHE, i)
    {
      CacheFitsOnce(i);
    }
    StartedBefore(u, HOME, FIVE, CACHE, 6);
    assert u[1] == u[..6][1] == 'c';
    SwappedSecond(v);
    assert v[..6] == "/cache" && v == v[..6] + v[6..];
    if !StartsWith(v[6..], HOME) {
      CacheWithoutHome(v, v[6..]);
      assert false;
    }
    assert v[..27] == v[..6] + v[6..][..21];
  }

  lemma DataFitsNowhere(i: nat)
    requires i < 4
    ensures !Fits(FIVE, "data", i)
  {
    FivePlaces();
    FitsNowhere("data", i, 0);
  }

  lemma {:induction false} SlashData(rest: string)
    requires StartsWith(ReplaceAll(rest, HOME, FIVE), "/data") && !StartsWith(rest, HOME)
    ensures StartsWith(rest, "/data")
  {
    if |rest| >= |HOME| {
      var r, tail := ReplaceAll(rest, HOME, FIVE), ReplaceAll(rest[1..], HOME, FIVE);
      assert r == [rest[0]] + tail;
      assert tail[..4] == r[..5][1..] == "data";
      forall i | 0 <= i < 4
        ensures !Fits(FIVE, "data", i)
      {
        DataFitsNowhere(i);
      }
      StartedBefore(rest[1..], HOME, FIVE, "data", 4);
      assert rest[..5] == [rest[0]] + rest[1..][..4];
      assert rest[0] == r[..5][0];
    }
  }

  /** When "/cache" is followed by something else than HOME, the value began with CACHE itself. */
  lemma {:induction false} CacheWithoutHome(v: string, rest: string)
    requires StartsWith("/cache" + ReplaceAll(rest, HOME, FIVE), CACHE) && v == "/cache" + rest && !StartsWith(rest, HOME)
    ensures StartsWith(v, CACHE)
  {
    CacheWords();
    var r, tail := "/cache" + ReplaceAll(rest, HOME, FIVE), ReplaceAll(rest, HOME, FIVE);
    assert |CACHE| == 11;
    assert tail[..5] == r[..11][6..];
    SlashData(rest);
    assert v[..11] == "/cache" + rest[..5];
    assert CACHE == CACHE[..6] + CACHE[6..];
  }

  // ------------------------------------------------------------------ twice is once: exactly when

  /** In Universe, and on gsim itself: a second pass keeps the value of a @niodatapath exactly when it was neither a 2025
      path under the old cache mount nor "/cache" followed by HOME. */
  lemma UniverseExactly(v: string)
    ensures Pathed(Pathed(v)) == Pathed(v) <==> !StartsWith(v, CACHE_CC_2025) && !StartsWith(v, CACHE_HOME)
  {
    PathedTwice(v);
    BecomesCc2025(v);
    BecomesCache(v);
  }

  /** What the datasvc prefix must be like. */
  ghost predicate PrefixOk(prefix: string) {
    prefix != "" && !StartsWith(prefix + SVC, SVC) && !StartsWith(prefix + SVC, CACHE) && Absent(prefix, HOME)
  }

  /** A migrated path does not look like one still to be migrated, nor like an old cache path. */
  lemma MigratedIsSafe(prefix: string, w: string)
    requires PrefixOk(prefix) && StartsWith(w, SVC)
    ensures !StartsWith(prefix + w, SVC) && !StartsWith(prefix + w, CACHE) && !StartsWith(prefix + w, CC_2025)
  {
    Literals();
    var r, q := prefix + w, prefix + SVC;
    assert r[..8] == q[..8] by {
      assert r[..|prefix| + 8] == prefix + w[..8] == q;
      assert r[..8] == r[..|prefix| + 8][..8];
    }
    if |prefix| >= 3 {
      assert r[..11] == r[..|prefix| + 8][..11] && r[..|prefix| + 8] == prefix + w[..8] == q;
    } else {
      assert r[|prefix|] == w[0] == w[..8][0] == '/';
      assert CACHE[1] == 'c' && CACHE[2] == 'a';
      NotStart(r, CACHE, |prefix|);
    }
    if |r| >= 21 {
      assert r[..21][..8] == r[..8];
      assert CC_2025[..8] == SVC;
    }
  }

  lemma MigratedHasNoHome(prefix: string, w: string)
    requires Absent(prefix, HOME) && Absent(w, HOME) && StartsWith(w, SVC)
    ensures Absent(prefix + w, HOME)
  {
    forall i
      ensures !OccursAt(prefix + w, HOME, i)
    {
      NoStraddle(prefix, w, i);
    }
  }

  lemma NoStraddle(prefix: string, w: string, i: int)
    requires Absent(prefix, HOME) && Absent(w, HOME) && StartsWith(w, SVC)
    ensures !OccursAt(prefix + w, HOME, i)
  {
    if OccursAt(prefix + w, HOME, i) {
      OccursInConcat(prefix, w, HOME, i);
      var t := |prefix| - i;
      HomeTailIsNotSvc(w, t);
    }
  }

  /** No proper tail of HOME begins like SVC. */
  lemma HomeTailIsNotSvc(w: string, t: int)
    requires 1 <= t < |HOME| && StartsWith(w, SVC) && |w| >= |HOME| - t
    ensures w[..|HOME| - t] != HOME[t..]
  {
    var a, b := w[..|HOME| - t], HOME[t..];
    assert |HOME| == 21 && |SVC| == 8 && SVC[0] == '/' && SVC[1] == 'd' && SVC[5] == 's';
    assert HOME[6] == 'f' && HOME[15] == '_';
    assert a[0] == w[0] == w[..8][0] && b[0] == HOME[t];
    if t == 5 {
      assert a[1] == w[1] == w[..8][1] && b[1] == HOME[6];
    } else if t == 10 {
      assert a[5] == w[5] == w[..8][5] && b[5] == HOME[15];
    } else {
      assert HOME[t] != '/';
    }
  }

  /** A value to which neither prefix rule nor HOME applies stays as it is. */
  lemma PathedKeeps(w: string)
    requires Absent(w, HOME) && !StartsWith(w, CC_2025) && !StartsWith(w, CACHE)
    ensures Pathed(w) == w
  {
    SwappedCases(w);
    ReplaceAbsent(w, HOME, FIVE);
  }

  /** Outside Universe, with a proper prefix: a second pass keeps the value of a @niodatapath exactly when it was not
      "/cache" followed by HOME. */
  lemma ElsewhereExactly(v: string, prefix: string)
    requires PrefixOk(prefix)
    ensures var once := Elsewhere("niodatapath", v, prefix);
            Elsewhere("niodatapath", once, prefix) == once <==> !StartsWith(v, CACHE_HOME)
  {
    Names();
    var w := Pathed(v);
    BecomesCache(v);
    PathedSettled(v);
    if StartsWith(w, SVC) {
      MigratedIsSafe(prefix, w);
      MigratedHasNoHome(prefix, w);
      PathedKeeps(prefix + w);
      SvcIsNotCache(w);
    } else {
      Cc2025IsSvc(w);
      if StartsWith(w, CACHE) {
        CacheGrows(w, prefix);
      } else {
        PathedKeeps(w);
      }
    }
  }

  lemma Names()
    ensures "niodatapath" != "dataPath" && "niodatapath" != "module" && "dataPath" != "module"
  {
    assert |"niodatapath"| == 11 && |"dataPath"| == 8 && |"module"| == 6;
  }

  lemma SvcIsNotCache(w: string)
    requires StartsWith(w, SVC)
    ensures !StartsWith(w, CACHE)
  {
    Literals();
    assert w[1] == w[..8][1];
    NotStart(w, CACHE, 1);
  }

  lemma Cc2025IsSvc(w: string)
    ensures StartsWith(w, CC_2025) ==> StartsWith(w, SVC)
    ensures StartsWith(w, DATA) ==> StartsWith(w, SVC)
  {
    Literals();
    if StartsWith(w, CC_2025) {
      assert w[..21][..8] == w[..8] && CC_2025[..8] == SVC;
    }
    if StartsWith(w, DATA) {
      assert w[..13][..8] == w[..8] && DATA[..8] == SVC;
    }
  }

  /** An old cache path that reappeared gets longer with every pass. */
  lemma CacheGrows(w: string, prefix: string)
    requires StartsWith(w, CACHE)
    ensures |Elsewhere("niodatapath", w, prefix)| > |w|
  {
    Names();
    Literals();
    SwappedCases(w);
    CacheIsNotCc2025(w);
    ReplaceNeverShrinks(Swapped(w));
    assert |Swapped(w)| == |w| + 2;
  }

  lemma CacheIsNotCc2025(w: string)
    requires StartsWith(w, CACHE)
    ensures !StartsWith(w, CC_2025)
  {
    Literals();
    assert w[1] == w[..11][1];
    NotStart(w, CC_2025, 1);
  }

  // ------------------------------------------------------------------ the other attributes

  lemma {:induction false} UpgradePointwise(s: string)
    ensures |ReplaceAll(s, V5, V6)| == |s|
    ensures forall i :: 0 <= i < |s| ==> ReplaceAll(s, V5, V6)[i] == s[i] || (s[i] == '5' && ReplaceAll(s, V5, V6)[i] == '6')
  {
    if |s| >= |V5| {
      if StartsWith(s, V5) {
        UpgradePointwise(s[13..]);
        assert forall i :: 0 <= i < 13 ==> s[i] == s[..13][i];
        assert forall i :: 0 <= i < 12 ==> V5[i] == V6[i];
      } else {
        UpgradePointwise(s[1..]);
      }
    }
  }

  lemma {:induction false} UpgradeKeepsSvc(s: string)
    ensures StartsWith(ReplaceAll(s, V5, V6), SVC) <==> StartsWith(s, SVC)
  {
    UpgradePointwise(s);
    var r := ReplaceAll(s, V5, V6);
    assert |SVC| == 8 && forall i :: 0 <= i < 8 ==> SVC[i] != '5' && SVC[i] != '6';
    if StartsWith(r, SVC) {
      forall i | 0 <= i < 8
        ensures s[i] == SVC[i]
      {
        assert r[i] == r[..8][i];
      }
      assert s[..8] == SVC;
    }
    if StartsWith(s, SVC) {
      forall i | 0 <= i < 8
        ensures r[i] == SVC[i]
      {
        assert s[i] == s[..8][i];
      }
      assert r[..8] == SVC;
    }
  }

  /** @module, @dataPath and all other attributes: with a proper prefix a second pass never changes them. */
  lemma OthersTwice(attr: string, v: string, prefix: string)
    requires PrefixOk(prefix) && attr != "niodatapath"
    ensures Elsewhere(attr, Elsewhere(attr, v, prefix), prefix) == Elsewhere(attr, v, prefix)
    ensures InUniverse(attr, InUniverse(attr, v)) == InUniverse(attr, v)
  {
    Names();
    HomeSettles();
    V5Settles();
    if attr == "dataPath" {
      var w := ReplaceAll(v, HOME, FIVE);
      ReplaceLeavesNone(v, HOME, FIVE);
      ReplaceIdempotent(v, HOME, FIVE);
      if StartsWith(w, SVC) {
        MigratedIsSafe(prefix, w);
        MigratedHasNoHome(prefix, w);
        ReplaceAbsent(prefix + w, HOME, FIVE);
      }
    } else {
      if StartsWith(v, SVC) {
        MigratedIsSafe(prefix, v);
      }
      if attr == "module" {
        ReplaceIdempotent(Migrate(v, prefix), V5, V6);
        UpgradeKeepsSvc(Migrate(v, prefix));
        ReplaceIdempotent(v, V5, V6);
      }
    }
  }

  // ------------------------------------------------------------------ exactly which prefixes

  lemma {:induction false} ReplaceLengthens(s: string, i: nat)
    requires OccursAt(s, HOME, i)
    ensures |ReplaceAll(s, HOME, FIVE)| > |s|
  {
    assert |HOME| == 21 && |FIVE| == 43;
    assert s[0..0 + 21] == s[..21];
    if StartsWith(s, HOME) {
      ReplaceNeverShrinks(s[21..]);
    } else {
      OccursLater(s, HOME, i - 1);
      ReplaceLengthens(s[1..], i - 1);
    }
  }

  lemma SvcIsShort()
    ensures StartsWith(SVC, SVC) && Pathed(SVC) == SVC && ReplaceAll(SVC, HOME, FIVE) == SVC && !StartsWith(SVC, CACHE_HOME)
  {
    Literals();
    assert |SVC| == 8 && |HOME| == 21 && |CC_2025| == 21 && |CACHE| == 11 && |CACHE_HOME| == 27;
    assert SVC[..8] == SVC;
  }

  /** May this attribute be expected to settle? Not a @niodatapath under the old home in the cache. */
  predicate Settling(attr: string, v: string) {
    attr == "niodatapath" ==> !StartsWith(v, CACHE_HOME)
  }

  predicate Stable(attr: string, v: string, prefix: string) {
    Elsewhere(attr, Elsewhere(attr, v, prefix), prefix) == Elsewhere(attr, v, prefix)
  }

  /** A prefix that is not proper has a value that a second pass changes. */
  lemma BadPrefixFails(prefix: string) returns (attr: string, v: string)
    requires !PrefixOk(prefix)
    ensures Settling(attr, v) && !Stable(attr, v, prefix)
  {
    Names();
    IdName();
    SvcIsShort();
    v := SVC;
    var once := prefix + SVC;
    if prefix == "" {
      attr, v := "niodatapath", CACHE_CC_2025;
      CacheWords();
      NotStart(v, CACHE_HOME, 7);
      assert StartsWith(v, CACHE_CC_2025);
      UniverseExactly(v);
      NoPrefix(v);
      NoPrefix(Pathed(v));
    } else if StartsWith(once, SVC) {
      attr := "id";
      assert Elsewhere(attr, v, prefix) == once && |prefix + once| > |once|;
    } else if StartsWith(once, CACHE) {
      attr := "niodatapath";
      CacheGrows(once, prefix);
    } else {
      attr := "dataPath";
      var i :| OccursAt(prefix, HOME, i);
      assert OccursAt(once, HOME, i) by {
        assert once[i..i + |HOME|] == prefix[i..i + |HOME|];
      }
      ReplaceLengthens(once, i);
    }
  }

  lemma NoPrefix(v: string)
    ensures Elsewhere("niodatapath", v, "") == Pathed(v)
  {
    Names();
    assert "" + Pathed(v) == Pathed(v);
  }

  lemma IdName()
    ensures "id" != "niodatapath" && "id" != "dataPath" && "id" != "module"
  {
    assert |"id"| == 2 && |"niodatapath"| == 11 && |"dataPath"| == 8 && |"module"| == 6;
  }

  /** Every attribute that may settle does so after one pass exactly when the prefix is proper. */
  lemma PrefixExactly(prefix: string)
    ensures (forall attr, v :: Settling(attr, v) ==> Stable(attr, v, prefix)) <==> PrefixOk(prefix)
  {
    if PrefixOk(prefix) {
      forall attr, v | Settling(attr, v)
        ensures Stable(attr, v, prefix)
      {
        if attr == "niodatapath" {
          ElsewhereExactly(v, prefix);
        } else {
          OthersTwice(attr, v, prefix);
        }
      }
    } else {
      var attr, v := BadPrefixFails(prefix);
    }
  }

  /** "/cache" is neither empty nor begins with a forbidden path, and yet it is not proper. */
  lemma PrefixCacheFails()
    ensures "/cache" != "" && !StartsWith("/cache", SVC) && !StartsWith("/cache", CACHE) && !PrefixOk("/cache")
  {
    CacheWords();
    Literals();
    var p := "/cache";
    assert |p| == 6;
    assert (p + SVC)[..11] == CACHE by {
      assert p == CACHE[..6] && SVC[..5] == CACHE[6..];
      assert CACHE == CACHE[..6] + CACHE[6..];
    }
  }

  lemma FiveBegins()
    ensures |FIVE| >= 8 && FIVE[..8] == SVC
  {
    assert |FIVE| == 43;
    assert |SVC| == 8;
    assert FIVE[0] == '/' && FIVE[1] == 'd' && FIVE[2] == 'a' && FIVE[3] == 't' && FIVE[4] == 'a' && FIVE[5] == 's' && FIVE[6] == 'v' && FIVE[7] == 'c';
    assert forall i :: 0 <= i < 8 ==> FIVE[..8][i] == SVC[i];
  }
}
