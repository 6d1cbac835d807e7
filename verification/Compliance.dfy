// Daily position compliance: the checker's one-pass counters (ops/services/check/checker/compliance_checker.py:65-197)
// and the vectorised profile script (scripts/compliance_profile.py:56-112) count the same things.
module Compliance {
  import opened Prelude

  /** A share of the day's exposure; a day with an infinite weight has none. */
  datatype Share = NotFinite | Share(r: real)

  datatype DayStat = DayStat(date: string, maxPos: Share, longs: nat, shorts: nat)

  /** What reading one dump file gives. */
  datatype File = Unreadable | NoExposure | Day(stat: DayStat)

  datatype Rule = Concentrated | TooFew | TooFewLong | TooFewShort

  datatype Limits = Limits(maxPos: real, hardPos: real, minTotal: int, minLong: int, minShort: int, tolerance: int)

  // ------------------------------------------------------------------ one day

  predicate Breaks(l: Limits, d: DayStat, r: Rule) {
    match r
    case Concentrated => d.maxPos.Share? && d.maxPos.r > l.maxPos
    case TooFew => d.longs + d.shorts < l.minTotal
    case TooFewLong => d.longs < l.minLong
    case TooFewShort => d.shorts < l.minShort
  }

  predicate Violates(l: Limits, d: DayStat) {
    exists r :: Breaks(l, d, r)
  }

  /** An infinite weight, or a share over the hard line. */
  predicate IsSevere(l: Limits, d: DayStat) {
    d.maxPos.NotFinite? || d.maxPos.r > l.hardPos
  }

  /** _violations: the broken rules, in the order the checker lists them. */
  method Violations(l: Limits, d: DayStat) returns (v: seq<Rule>)
    ensures forall r :: r in v <==> Breaks(l, d, r)
    ensures forall i, j :: 0 <= i < j < |v| ==> v[i] != v[j]
    ensures v != [] <==> Violates(l, d)
  {
    v := [];
    if d.maxPos.Share? && d.maxPos.r > l.maxPos {
      v := v + [Concentrated];
    }
    if d.longs + d.shorts < l.minTotal {
      v := v + [TooFew];
    }
    if d.longs < l.minLong {
      v := v + [TooFewLong];
    }
    if d.shorts < l.minShort {
      v := v + [TooFewShort];
    }
    if v != [] {
      assert v[0] in v;
    }
  }

  // ------------------------------------------------------------------ what the counters mean

  /** Days with exposure that could be read, in file order. */
  function ValidDays(files: seq<File>): seq<DayStat> {
    if files == [] then []
    else ValidDays(files[..|files| - 1]) + if files[|files| - 1].Day? then [files[|files| - 1].stat] else []
  }

  function Mask(l: Limits, days: seq<DayStat>): (m: seq<bool>)
    ensures |m| == |days| && forall i :: 0 <= i < |m| ==> m[i] == Violates(l, days[i])
  {
    seq(|days|, i requires 0 <= i < |days| => Violates(l, days[i]))
  }

  /** The positions at which p holds. */
  function Where(days: seq<DayStat>, p: DayStat -> bool): set<nat> {
    set i | 0 <= i < |days| && p(days[i])
  }

  function FirstSevere(l: Limits, days: seq<DayStat>): Option<DayStat> {
    if days == [] then None
    else if IsSevere(l, days[0]) then Some(days[0])
    else FirstSevere(l, days[1..])
  }

  function LastViolation(l: Limits, days: seq<DayStat>): Option<DayStat> {
    if days == [] then None
    else if Violates(l, days[|days| - 1]) then Some(days[|days| - 1])
    else LastViolation(l, days[..|days| - 1])
  }

  /** n consecutive true values starting at i. */
  ghost predicate RunAt(mask: seq<bool>, i: int, n: int) {
    0 <= i && 0 <= n && i + n <= |mask| && forall j :: i <= j < i + n ==> mask[j]
  }

  ghost predicate IsLongestRun(mask: seq<bool>, n: nat) {
    (exists i :: RunAt(mask, i, n)) && forall i, k :: RunAt(mask, i, k) ==> k <= n
  }

  function Ending(mask: seq<bool>): (n: nat)
    ensures n <= |mask|
  {
    if mask == [] || !mask[|mask| - 1] then 0 else Ending(mask[..|mask| - 1]) + 1
  }

  function Longest(mask: seq<bool>): nat {
    if mask == [] then 0
    else
      var before, here := Longest(mask[..|mask| - 1]), Ending(mask);
      if here > before then here else before
  }

  lemma {:induction false} EndingIsRun(mask: seq<bool>, i: int)
    ensures RunAt(mask, |mask| - Ending(mask), Ending(mask))
    ensures RunAt(mask, i, |mask| - i) ==> |mask| - i <= Ending(mask)
  {
    if mask != [] && mask[|mask| - 1] {
      var init := mask[..|mask| - 1];
      EndingIsRun(init, i);
      if RunAt(mask, i, |mask| - i) && i < |mask| {
        assert RunAt(init, i, |init| - i);
      }
      assert forall j :: |init| - Ending(init) <= j < |init| ==> mask[j] == init[j];
    }
  }

  /** The running counter's maximum is the length of the longest run. */
  lemma {:induction false} LongestIsLongestRun(mask: seq<bool>)
    ensures IsLongestRun(mask, Longest(mask))
  {
    if mask == [] {
      assert RunAt(mask, 0, 0);
    } else {
      var init := mask[..|mask| - 1];
      LongestIsLongestRun(init);
      LongestReached(mask);
      forall i, k | RunAt(mask, i, k)
        ensures k <= Longest(mask)
      {
        if i + k < |mask| {
          assert RunAt(init, i, k);
        } else {
          EndingIsRun(mask, i);
        }
      }
    }
  }

  lemma {:induction false} LongestReached(mask: seq<bool>)
    requires mask != [] && IsLongestRun(mask[..|mask| - 1], Longest(mask[..|mask| - 1]))
    ensures exists i :: RunAt(mask, i, Longest(mask))
  {
    var init := mask[..|mask| - 1];
    if Ending(mask) > Longest(init) {
      EndingIsRun(mask, 0);
      assert Longest(mask) == Ending(mask);
    } else {
      assert Longest(mask) == Longest(init);
      var i :| RunAt(init, i, Longest(init));
      RunInPrefix(mask, i, Longest(init));
    }
  }

  lemma RunInPrefix(mask: seq<bool>, i: int, n: int)
    requires mask != [] && RunAt(mask[..|mask| - 1], i, n)
    ensures RunAt(mask, i, n)
  {
    assert forall j :: 0 <= j < |mask| - 1 ==> mask[..|mask| - 1][j] == mask[j];
  }

  lemma LongestRunUnique(mask: seq<bool>, m: nat, n: nat)
    requires IsLongestRun(mask, m) && IsLongestRun(mask, n)
    ensures m == n
  {
  }

  // ------------------------------------------------------------------ the verdict

  datatype Verdict =
    | Skipped(noFiles: bool)
    | Severe(first: DayStat, severeDays: nat, violDays: nat, days: nat)
    | TooMany(violDays: nat, days: nat, perRule: map<Rule, nat>, longestRun: nat, last: Option<DayStat>)
    | Passed(days: nat)

  function RuleDays(l: Limits, days: seq<DayStat>): map<Rule, nat> {
    map[Concentrated := |Where(days, d => Breaks(l, d, Concentrated))|,
        TooFew := |Where(days, d => Breaks(l, d, TooFew))|,
        TooFewLong := |Where(days, d => Breaks(l, d, TooFewLong))|,
        TooFewShort := |Where(days, d => Breaks(l, d, TooFewShort))|]
  }

  function ViolDays(l: Limits, days: seq<DayStat>): nat {
    |Where(days, d => Violates(l, d))|
  }

  /** What the checker concludes from the valid days: a severe day rejects whatever the tolerance. */
  function VerdictOn(l: Limits, days: seq<DayStat>): Verdict {
    if days == [] then Skipped(false)
    else if FirstSevere(l, days).Some? then
      Severe(FirstSevere(l, days).value, |Where(days, d => IsSevere(l, d))|, ViolDays(l, days), |days|)
    else if ViolDays(l, days) > l.tolerance then
      TooMany(ViolDays(l, days), |days|, RuleDays(l, days), Longest(Mask(l, days)), LastViolation(l, days))
    else Passed(|days|)
  }

  function VerdictOf(l: Limits, files: seq<File>): Verdict {
    if files == [] then Skipped(true) else VerdictOn(l, ValidDays(files))
  }

  lemma WhereNext(days: seq<DayStat>, d: DayStat, p: DayStat -> bool)
    ensures |Where(days + [d], p)| == |Where(days, p)| + if p(d) then 1 else 0
  {
    var more := days + [d];
    assert forall i :: 0 <= i < |days| ==> more[i] == days[i];
    if p(d) {
      assert Where(more, p) == Where(days, p) + {|days|};
      assert |days| !in Where(days, p);
    } else {
      assert Where(more, p) == Where(days, p);
    }
  }

  lemma {:induction false} FirstSevereNext(l: Limits, days: seq<DayStat>, d: DayStat)
    ensures FirstSevere(l, days + [d]) == if FirstSevere(l, days).Some? then FirstSevere(l, days) else if IsSevere(l, d) then Some(d) else None
  {
    if days == [] {
      assert ([] + [d])[1..] == [];
    } else {
      assert (days + [d])[1..] == days[1..] + [d];
      FirstSevereNext(l, days[1..], d);
    }
  }

  /** The counters of the loop, as one value. */
  datatype Counters = Counters(days: seq<DayStat>, first: Option<DayStat>, severeDays: nat, violDays: nat, perRule: map<Rule, nat>,
                               streak: nat, maxStreak: nat, last: Option<DayStat>)

  ghost predicate Counts(l: Limits, c: Counters, days: seq<DayStat>) {
    && c.days == days && c.first == FirstSevere(l, days) && c.severeDays == |Where(days, d => IsSevere(l, d))|
    && c.violDays == ViolDays(l, days) && c.perRule == RuleDays(l, days)
    && c.streak == Ending(Mask(l, days)) && c.maxStreak == Longest(Mask(l, days)) && c.last == LastViolation(l, days)
  }

  function Bump(perRule: map<Rule, nat>, r: Rule): map<Rule, nat>
    requires r in perRule
  {
    perRule[r := perRule[r] + 1]
  }

  /** rule_days[tag] += 1 for every broken rule. */
  method CountRules(v: seq<Rule>, perRule0: map<Rule, nat>) returns (perRule: map<Rule, nat>)
    requires forall i, j :: 0 <= i < j < |v| ==> v[i] != v[j]
    requires forall r: Rule :: r in perRule0
    ensures perRule.Keys == perRule0.Keys
    ensures forall r: Rule :: perRule[r] == perRule0[r] + if r in v then 1 else 0
  {
    perRule := perRule0;
    var i := 0;
    while i < |v|
      invariant 0 <= i <= |v| && perRule.Keys == perRule0.Keys
      invariant forall r: Rule :: perRule[r] == perRule0[r] + if r in v[..i] then 1 else 0
    {
      assert v[..i + 1] == v[..i] + [v[i]];
      perRule := Bump(perRule, v[i]);
      i := i + 1;
    }
    assert v[..|v|] == v;
  }

  /** What one more day does to each counter. */
  lemma {:induction false} CountersNext(l: Limits, days: seq<DayStat>, d: DayStat)
    ensures var more := days + [d];
            && FirstSevere(l, more) == (if FirstSevere(l, days).Some? then FirstSevere(l, days) else if IsSevere(l, d) then Some(d) else None)
            && |Where(more, x => IsSevere(l, x))| == |Where(days, x => IsSevere(l, x))| + (if IsSevere(l, d) then 1 else 0)
            && ViolDays(l, more) == ViolDays(l, days) + (if Violates(l, d) then 1 else 0)
            && LastViolation(l, more) == (if Violates(l, d) then Some(d) else LastViolation(l, days))
  {
    WhereNext(days, d, x => IsSevere(l, x));
    WhereNext(days, d, x => Violates(l, x));
    FirstSevereNext(l, days, d);
    assert (days + [d])[..|days|] == days;
  }

  /** The rule counters after a day. */
  method CountDayRules(l: Limits, days: seq<DayStat>, d: DayStat, perRule0: map<Rule, nat>) returns (violates: bool, perRule: map<Rule, nat>)
    requires perRule0 == RuleDays(l, days)
    ensures violates == Violates(l, d) && perRule == RuleDays(l, days + [d])
  {
    RuleDaysNext(l, days, d);
    var v := Violations(l, d);
    perRule := CountRules(v, perRule0);
    assert perRule == RuleDays(l, days + [d]);
    violates := v != [];
  }

  /** One valid day of the loop. */
  method CountDay(l: Limits, c: Counters, d: DayStat) returns (r: Counters)
    requires Counts(l, c, c.days)
    ensures Counts(l, r, c.days + [d])
  {
    CountersNext(l, c.days, d);
    MaskNext(l, c.days, d);
    var first, severeDays := c.first, c.severeDays;
    if IsSevere(l, d) {
      severeDays := severeDays + 1;
      first := if first.Some? then first else Some(d);
    }
    var violates, perRule := CountDayRules(l, c.days, d, c.perRule);
    if violates {
      var streak := c.streak + 1;
      r := Counters(c.days + [d], first, severeDays, c.violDays + 1, perRule, streak, if streak > c.maxStreak then streak else c.maxStreak, Some(d));
    } else {
      r := Counters(c.days + [d], first, severeDays, c.violDays, perRule, 0, c.maxStreak, c.last);
    }
  }

  lemma MaskNext(l: Limits, days: seq<DayStat>, d: DayStat)
    ensures Mask(l, days + [d]) == Mask(l, days) + [Violates(l, d)]
    ensures Ending(Mask(l, days + [d])) == if Violates(l, d) then Ending(Mask(l, days)) + 1 else 0
    ensures Longest(Mask(l, days + [d])) ==
              if Ending(Mask(l, days + [d])) > Longest(Mask(l, days)) then Ending(Mask(l, days + [d])) else Longest(Mask(l, days))
  {
    assert Mask(l, days + [d]) == Mask(l, days) + [Violates(l, d)];
    assert (Mask(l, days) + [Violates(l, d)])[..|days|] == Mask(l, days);
  }

  lemma RuleDaysNext(l: Limits, days: seq<DayStat>, d: DayStat)
    ensures forall r: Rule :: r in RuleDays(l, days) && r in RuleDays(l, days + [d])
    ensures forall r: Rule :: RuleDays(l, days + [d])[r] == RuleDays(l, days)[r] + if Breaks(l, d, r) then 1 else 0
  {
    WhereNext(days, d, x => Breaks(l, x, Concentrated));
    WhereNext(days, d, x => Breaks(l, x, TooFew));
    WhereNext(days, d, x => Breaks(l, x, TooFewLong));
    WhereNext(days, d, x => Breaks(l, x, TooFewShort));
    forall r: Rule
      ensures r in RuleDays(l, days) && r in RuleDays(l, days + [d])
      ensures RuleDays(l, days + [d])[r] == RuleDays(l, days)[r] + if Breaks(l, d, r) then 1 else 0
    {
      match r
      case Concentrated =>
      case TooFew =>
      case TooFewLong =>
      case TooFewShort =>
    }
  }

  // ------------------------------------------------------------------ the verdict in terms of the files

  /** The day of file i is over the hard line: an infinite weight, or a share above it. */
  ghost predicate SevereAt(l: Limits, files: seq<File>, i: int) {
    0 <= i < |files| && files[i].Day? && (files[i].stat.maxPos == NotFinite || exists r :: files[i].stat.maxPos == Share(r) && r > l.hardPos)
  }

  /** It breaks one of the four limits. */
  ghost predicate OverAt(l: Limits, files: seq<File>, i: int) {
    0 <= i < |files| && files[i].Day? &&
    var d := files[i].stat;
    || (exists r :: d.maxPos == Share(r) && r > l.maxPos)
    || d.longs + d.shorts < l.minTotal || d.longs < l.minLong || d.shorts < l.minShort
  }

  ghost function SevereFiles(l: Limits, files: seq<File>): set<int> {
    set i | 0 <= i < |files| && SevereAt(l, files, i)
  }

  ghost function OverFiles(l: Limits, files: seq<File>): set<int> {
    set i | 0 <= i < |files| && OverAt(l, files, i)
  }

  ghost function DayFiles(files: seq<File>): set<int> {
    set i | 0 <= i < |files| && files[i].Day?
  }

  lemma SameJudgement(l: Limits, files: seq<File>, i: int)
    requires 0 <= i < |files| && files[i].Day?
    ensures SevereAt(l, files, i) <==> IsSevere(l, files[i].stat)
    ensures OverAt(l, files, i) <==> Violates(l, files[i].stat)
  {
    var d := files[i].stat;
    if OverAt(l, files, i) {
      assert Breaks(l, d, Concentrated) || Breaks(l, d, TooFew) || Breaks(l, d, TooFewLong) || Breaks(l, d, TooFewShort);
    }
  }

  lemma CountedWith(s: set<int>, t: set<int>, k: int, more: bool)
    requires k !in s && t == if more then s + {k} else s
    ensures |t| == |s| + if more then 1 else 0
  {
  }

  lemma DaysNext(files: seq<File>, k: nat)
    requires k == |files| - 1
    ensures |DayFiles(files)| == |DayFiles(files[..k])| + if files[k].Day? then 1 else 0
  {
    CountedWith(DayFiles(files[..k]), DayFiles(files), k, files[k].Day?);
  }

  lemma OverNext(l: Limits, files: seq<File>, k: nat)
    requires k == |files| - 1
    ensures |OverFiles(l, files)| == |OverFiles(l, files[..k])| + if OverAt(l, files, k) then 1 else 0
  {
    var before := files[..k];
    assert forall i :: OverAt(l, before, i) <==> i < k && OverAt(l, files, i);
    assert forall i :: OverAt(l, files, i) ==> 0 <= i <= k;
    hide OverAt;
    CountedWith(OverFiles(l, before), OverFiles(l, files), k, OverAt(l, files, k));
  }

  lemma SevereNext(l: Limits, files: seq<File>, k: nat)
    requires k == |files| - 1
    ensures |SevereFiles(l, files)| == |SevereFiles(l, files[..k])| + if SevereAt(l, files, k) then 1 else 0
    ensures SevereFiles(l, files) == {} <==> SevereFiles(l, files[..k]) == {} && !SevereAt(l, files, k)
  {
    var before := files[..k];
    assert forall i :: SevereAt(l, before, i) <==> i < k && SevereAt(l, files, i);
    assert forall i :: SevereAt(l, files, i) ==> 0 <= i <= k;
    hide SevereAt;
    CountedWith(SevereFiles(l, before), SevereFiles(l, files), k, SevereAt(l, files, k));
  }

  /** Counting days is counting files. */
  lemma {:induction false} CountsFiles(l: Limits, files: seq<File>)
    ensures var days := ValidDays(files);
            && |days| == |DayFiles(files)| && ViolDays(l, days) == |OverFiles(l, files)| && |Where(days, d => IsSevere(l, d))| == |SevereFiles(l, files)|
            && (forall f :: FirstSevere(l, days) == Some(f) ==> FirstAt(l, files, f))
            && (FirstSevere(l, days).None? <==> SevereFiles(l, files) == {})
            && forall f :: LastViolation(l, days) == Some(f) ==> LastAt(l, files, f)
  {
    if files != [] {
      var k := |files| - 1;
      var days := ValidDays(files[..k]);
      CountsFiles(l, files[..k]);
      DaysNext(files, k);
      OverNext(l, files, k);
      SevereNext(l, files, k);
      FirstStays(l, files, k);
      LastMoves(l, files, k);
      if files[k].Day? {
        SameJudgement(l, files, k);
        CountersNext(l, days, files[k].stat);
      } else {
        assert days + [] == days;
      }
      hide SevereFiles, OverFiles, DayFiles, SevereAt, OverAt, FirstAt, LastAt, IsSevere, Violates, Where, ViolDays, FirstSevere;
    }
  }

  /** The day of file i breaks this one limit. */
  ghost predicate BrokenAt(l: Limits, files: seq<File>, i: int, r: Rule) {
    0 <= i < |files| && files[i].Day? &&
    var d := files[i].stat;
    match r
    case Concentrated => exists share :: d.maxPos == Share(share) && share > l.maxPos
    case TooFew => d.longs + d.shorts < l.minTotal
    case TooFewLong => d.longs < l.minLong
    case TooFewShort => d.shorts < l.minShort
  }

  ghost function BrokenFiles(l: Limits, files: seq<File>, r: Rule): set<int> {
    set i | 0 <= i < |files| && BrokenAt(l, files, i, r)
  }

  lemma BrokenBefore(l: Limits, files: seq<File>, k: nat, i: int, r: Rule)
    requires k <= |files|
    ensures BrokenAt(l, files[..k], i, r) <==> i < k && BrokenAt(l, files, i, r)
  {
  }

  lemma BrokenNext(l: Limits, files: seq<File>, k: nat, r: Rule)
    requires k == |files| - 1
    ensures |BrokenFiles(l, files, r)| == |BrokenFiles(l, files[..k], r)| + if BrokenAt(l, files, k, r) then 1 else 0
  {
    var before := files[..k];
    forall i
      ensures BrokenAt(l, before, i, r) <==> i < k && BrokenAt(l, files, i, r)
    {
      BrokenBefore(l, files, k, i, r);
    }
    hide BrokenAt;
    CountedWith(BrokenFiles(l, before, r), BrokenFiles(l, files, r), k, BrokenAt(l, files, k, r));
  }

  lemma {:induction false} CountsRule(l: Limits, files: seq<File>, r: Rule)
    ensures r in RuleDays(l, ValidDays(files)) && RuleDays(l, ValidDays(files))[r] == |BrokenFiles(l, files, r)|
  {
    if files == [] {
      assert BrokenFiles(l, files, r) == {};
      assert |Where([], d => Breaks(l, d, Concentrated))| == 0;
    } else {
      var k := |files| - 1;
      CountsRule(l, files[..k], r);
      BrokenNext(l, files, k, r);
      if files[k].Day? {
        assert BrokenAt(l, files, k, r) <==> Breaks(l, files[k].stat, r);
        RuleDaysNext(l, ValidDays(files[..k]), files[k].stat);
      } else {
        assert ValidDays(files[..k]) + [] == ValidDays(files[..k]);
      }
      hide BrokenFiles, BrokenAt, Breaks, RuleDays, Where;
    }
  }

  /** f is the day of the first file over the hard line. */
  ghost predicate FirstAt(l: Limits, files: seq<File>, f: DayStat) {
    exists i :: SevereAt(l, files, i) && files[i].stat == f && forall j :: 0 <= j < i ==> !SevereAt(l, files, j)
  }

  /** f is the day of the last file over a limit. */
  ghost predicate LastAt(l: Limits, files: seq<File>, f: DayStat) {
    exists i :: OverAt(l, files, i) && files[i].stat == f && forall j :: i < j ==> !OverAt(l, files, j)
  }

  lemma LastMoves(l: Limits, files: seq<File>, k: nat)
    requires k == |files| - 1
    ensures OverAt(l, files, k) ==> LastAt(l, files, files[k].stat)
    ensures !OverAt(l, files, k) ==> forall f :: LastAt(l, files[..k], f) ==> LastAt(l, files, f)
  {
    assert forall i :: OverAt(l, files[..k], i) <==> i < k && OverAt(l, files, i);
    assert forall i :: OverAt(l, files, i) ==> i <= k;
  }

  lemma FirstStays(l: Limits, files: seq<File>, k: nat)
    requires k == |files| - 1
    ensures forall f :: FirstAt(l, files[..k], f) ==> FirstAt(l, files, f)
    ensures SevereFiles(l, files[..k]) == {} && SevereAt(l, files, k) ==> FirstAt(l, files, files[k].stat)
  {
    assert forall i :: SevereAt(l, files[..k], i) <==> i < k && SevereAt(l, files, i);
    if SevereFiles(l, files[..k]) == {} && SevereAt(l, files, k) {
      forall j | 0 <= j < k
        ensures !SevereAt(l, files, j)
      {
        assert j !in SevereFiles(l, files[..k]);
      }
    }
  }

  /** Every verdict in terms of the files: nothing to judge; a day over the hard line, whatever the tolerance, and the first one
      is named; more days over a limit than tolerated; and otherwise the factor passes. */
  lemma VerdictMeaning(l: Limits, files: seq<File>)
    ensures var v, severe, over, days := VerdictOf(l, files), SevereFiles(l, files), |OverFiles(l, files)|, |DayFiles(files)|;
            && (v.Skipped? <==> days == 0) && (v.Skipped? ==> (v.noFiles <==> files == []))
            && (v.Severe? <==> severe != {})
            && (v.Severe? ==> FirstAt(l, files, v.first) && v.severeDays == |severe| && v.violDays == over && v.days == days)
            && (v.TooMany? <==> days > 0 && severe == {} && over > l.tolerance)
            && (v.TooMany? ==> v.violDays == over && v.days == days && forall f :: v.last == Some(f) ==> LastAt(l, files, f))
            && (v.TooMany? ==> forall r: Rule :: r in v.perRule && v.perRule[r] == |BrokenFiles(l, files, r)|)
            && (v.Passed? <==> days > 0 && severe == {} && over <= l.tolerance) && (v.Passed? ==> v.days == days)
  {
    NoFilesNoDays(l);
    hide SevereFiles, OverFiles, DayFiles, BrokenFiles, RuleDays, Where, FirstSevere, FirstAt, LastAt, LastViolation, ViolDays;
    CountsFiles(l, files);
    forall r: Rule
      ensures r in RuleDays(l, ValidDays(files)) && RuleDays(l, ValidDays(files))[r] == |BrokenFiles(l, files, r)|
    {
      CountsRule(l, files, r);
    }
    if ValidDays(files) == [] {
      NoDayNoSevere(l, files);
    }
  }

  lemma NoDayNoSevere(l: Limits, files: seq<File>)
    requires |DayFiles(files)| == 0
    ensures SevereFiles(l, files) == {}
  {
    assert SevereFiles(l, files) <= DayFiles(files) == {};
  }

  lemma NoFilesNoDays(l: Limits)
    ensures DayFiles([]) == {} && SevereFiles(l, []) == {}
  {
  }

  /** check's one pass over all files. */
  method CountFiles(l: Limits, files: seq<File>) returns (c: Counters)
    ensures Counts(l, c, ValidDays(files))
  {
    c := Counters([], None, 0, 0, map[Concentrated := 0, TooFew := 0, TooFewLong := 0, TooFewShort := 0], 0, 0, None);
    assert Counts(l, c, []);
    hide Counts;
    var i := 0;
    while i < |files|
      invariant 0 <= i <= |files| && Counts(l, c, ValidDays(files[..i]))
    {
      assert files[..i + 1][..i] == files[..i] && files[..i + 1][i] == files[i];
      if files[i].Day? {
        c := CountDay(l, c, files[i].stat);
      } else {
        assert ValidDays(files[..i]) + [] == ValidDays(files[..i]);
      }
      i := i + 1;
    }
    assert files[..|files|] == files;
  }

  /** check: the pass, then the verdict. */
  method Check(l: Limits, files: seq<File>) returns (v: Verdict)
    ensures v == VerdictOf(l, files)
    ensures v.Passed? <==> DayFiles(files) != {} && SevereFiles(l, files) == {} && |OverFiles(l, files)| <= l.tolerance
    ensures v.Severe? <==> SevereFiles(l, files) != {}
    ensures v.Severe? ==> FirstAt(l, files, v.first)
    ensures v.Skipped? <==> DayFiles(files) == {}
  {
    VerdictMeaning(l, files);
    hide SevereFiles, OverFiles, DayFiles, BrokenFiles, FirstAt, LastAt, ValidDays, Where, ViolDays, FirstSevere, LastViolation, RuleDays, Longest, Mask;
    if files == [] {
      return Skipped(true);
    }
    var c := CountFiles(l, files);
    if c.days == [] {
      return Skipped(false);
    }
    if c.first.Some? {
      return Severe(c.first.value, c.severeDays, c.violDays, |c.days|);
    }
    if c.violDays > l.tolerance {
      return TooMany(c.violDays, |c.days|, c.perRule, c.maxStreak, c.last);
    }
    return Passed(|c.days|);
  }

  // ------------------------------------------------------------------ the profile script

  /** Positions i with step m[i] -> m[i+1] equal to !up -> up: flatnonzero(diff(m) == 1) or == -1. */
  function Steps(m: seq<bool>, up: bool): seq<int> {
    if |m| < 2 then []
    else Steps(m[..|m| - 1], up) + if m[|m| - 2] == !up && m[|m| - 1] == up then [|m| - 2] else []
  }

  function Minus(ends: seq<int>, starts: seq<int>): seq<int>
    requires |ends| <= |starts|
  {
    seq(|ends|, i requires 0 <= i < |ends| => ends[i] - starts[i])
  }

  function MaxOf(s: seq<int>): (m: int)
    ensures m >= 0
  {
    if s == [] then 0
    else if s[|s| - 1] > MaxOf(s[..|s| - 1]) then s[|s| - 1]
    else MaxOf(s[..|s| - 1])
  }

  /** The script's array expression; starts and ends pair up. */
  function LongestByDiff(mask: seq<bool>): int
    requires |Steps([false] + mask + [false], false)| <= |Steps([false] + mask + [false], true)|
  {
    if true !in mask then 0
    else
      var m := [false] + mask + [false];
      MaxOf(Minus(Steps(m, false), Steps(m, true)))
  }

  function Max(a: int, b: int): int { if a > b then a else b }

  lemma MinusMore(e: seq<int>, s: seq<int>, k: int)
    requires |e| < |s|
    ensures Minus(e + [k], s) == Minus(e, s) + [k - s[|e|]]
  {
  }

  lemma {:induction false} MaxOfMore(d: seq<int>, x: int)
    ensures MaxOf(d + [x]) == Max(x, MaxOf(d))
  {
    var more := d + [x];
    assert more[..|more| - 1] == d && more[|more| - 1] == x;
  }

  lemma MinusSnoc(e: seq<int>, s: seq<int>, k: int)
    requires |e| < |s|
    ensures MaxOf(Minus(e + [k], s)) == Max(k - s[|e|], MaxOf(Minus(e, s)))
  {
    MinusMore(e, s, k);
    MaxOfMore(Minus(e, s), k - s[|e|]);
  }

  /** The completed runs are paired, an open run has an unpaired start, and the longest run so far is the longest completed
      one or the open one. */
  ghost predicate Paired(mask: seq<bool>, s: seq<int>, e: seq<int>) {
    && |s| == |e| + (if Ending(mask) > 0 then 1 else 0)
    && (Ending(mask) > 0 ==> s[|s| - 1] == |mask| - Ending(mask))
    && Longest(mask) == Max(Ending(mask), MaxOf(Minus(e, s)))
  }

  lemma {:induction false} LongestOf(mask: seq<bool>)
    requires mask != []
    ensures Longest(mask) == Max(Ending(mask), Longest(mask[..|mask| - 1]))
    ensures Ending(mask) == if mask[|mask| - 1] then Ending(mask[..|mask| - 1]) + 1 else 0
  {
  }

  lemma PairedClose(mask: seq<bool>, s: seq<int>, e: seq<int>)
    requires mask != [] && !mask[|mask| - 1] && Paired(mask[..|mask| - 1], s, e) && Ending(mask[..|mask| - 1]) > 0
    ensures Paired(mask, s, e + [|mask| - 1])
  {
    LongestOf(mask);
    MinusSnoc(e, s, |mask| - 1);
  }

  lemma PairedOpen(mask: seq<bool>, s: seq<int>, e: seq<int>)
    requires mask != [] && mask[|mask| - 1] && Paired(mask[..|mask| - 1], s, e) && Ending(mask[..|mask| - 1]) == 0
    ensures Paired(mask, s + [|mask| - 1], e)
  {
    LongestOf(mask);
    MinusIgnores(e, s, |mask| - 1);
  }

  lemma PairedStay(mask: seq<bool>, s: seq<int>, e: seq<int>)
    requires mask != [] && Paired(mask[..|mask| - 1], s, e) && (mask[|mask| - 1] <==> Ending(mask[..|mask| - 1]) > 0)
    ensures Paired(mask, s, e)
  {
    LongestOf(mask);
  }

  lemma {:induction false} StepsLast(m: seq<bool>, up: bool)
    requires |m| >= 2
    ensures Steps(m, up) == Steps(m[..|m| - 1], up) + if m[|m| - 2] == !up && m[|m| - 1] == up then [|m| - 2] else []
  {
  }

  lemma {:induction false} StepsPair(mask: seq<bool>)
    ensures Paired(mask, Steps([false] + mask, true), Steps([false] + mask, false))
  {
    if mask != [] {
      var init, m := mask[..|mask| - 1], [false] + mask;
      StepsPair(init);
      assert m[..|m| - 1] == [false] + init;
      var s0, e0 := Steps([false] + init, true), Steps([false] + init, false);
      assert m[|m| - 1] == mask[|mask| - 1];
      assert m[|m| - 2] == (if init == [] then false else init[|init| - 1]);
      EndingPositive(init);
      assert s0 + [] == s0 && e0 + [] == e0;
      StepsLast(m, true);
      StepsLast(m, false);
      if m[|m| - 2] && !m[|m| - 1] {
        PairedClose(mask, s0, e0);
      } else if !m[|m| - 2] && m[|m| - 1] {
        PairedOpen(mask, s0, e0);
      } else {
        PairedStay(mask, s0, e0);
      }
    }
  }

  lemma {:induction false} EndingPositive(mask: seq<bool>)
    ensures Ending(mask) > 0 <==> mask != [] && mask[|mask| - 1]
  {
  }

  lemma MinusIgnores(e: seq<int>, s: seq<int>, x: int)
    requires |e| <= |s|
    ensures Minus(e, s + [x]) == Minus(e, s)
  {
  }

  lemma {:induction false} NoneLongest(mask: seq<bool>)
    requires true !in mask
    ensures Longest(mask) == 0
  {
    if mask != [] {
      NoneLongest(mask[..|mask| - 1]);
      assert mask[|mask| - 1] in mask;
    }
  }

  /** The diff-based longest run is the loop's. */
  lemma {:induction false} DiffIsLoop(mask: seq<bool>)
    ensures var m := [false] + mask + [false]; |Steps(m, false)| == |Steps(m, true)|
    ensures LongestByDiff(mask) == Longest(mask)
  {
    var more := mask + [false];
    StepsPair(more);
    assert [false] + mask + [false] == [false] + more;
    assert more[..|mask|] == mask;
    LongestOf(more);
    if true !in mask {
      NoneLongest(mask);
    }
  }

  /** v_max | v_long | v_short | v_total */
  predicate VAny(l: Limits, d: DayStat) {
    (d.maxPos.Share? && d.maxPos.r > l.maxPos) || d.longs < l.minLong || d.shorts < l.minShort || d.longs + d.shorts < l.minTotal
  }

  lemma VAnyIsViolates(l: Limits, d: DayStat)
    ensures VAny(l, d) <==> Violates(l, d)
  {
    if VAny(l, d) {
      assert Breaks(l, d, Concentrated) || Breaks(l, d, TooFewLong) || Breaks(l, d, TooFewShort) || Breaks(l, d, TooFew);
    }
  }

  function VAnyMask(l: Limits, days: seq<DayStat>): (m: seq<bool>)
    ensures |m| == |days| && forall i :: 0 <= i < |m| ==> m[i] == VAny(l, days[i])
  {
    seq(|days|, i requires 0 <= i < |days| => VAny(l, days[i]))
  }

  function CountTrue(mask: seq<bool>): nat {
    if mask == [] then 0 else CountTrue(mask[..|mask| - 1]) + if mask[|mask| - 1] then 1 else 0
  }

  lemma {:induction false} CountTrueIsWhere(days: seq<DayStat>, mask: seq<bool>, p: DayStat -> bool)
    requires |mask| == |days| && forall i :: 0 <= i < |mask| ==> mask[i] == p(days[i])
    ensures CountTrue(mask) == |Where(days, p)|
  {
    if days == [] {
      assert Where(days, p) == {};
    } else {
      var k := |days| - 1;
      CountTrueIsWhere(days[..k], mask[..k], p);
      WhereNext(days[..k], days[k], p);
      assert days == days[..k] + [days[k]];
    }
  }

  /** On the same valid days the script's violating days and longest run are the checker's. */
  lemma ProfileAgrees(l: Limits, days: seq<DayStat>)
    ensures CountTrue(VAnyMask(l, days)) == ViolDays(l, days)
    ensures var m := [false] + VAnyMask(l, days) + [false]; |Steps(m, false)| == |Steps(m, true)|
    ensures LongestByDiff(VAnyMask(l, days)) == Longest(Mask(l, days))
  {
    forall i | 0 <= i < |days|
      ensures VAnyMask(l, days)[i] == Mask(l, days)[i]
    {
      VAnyIsViolates(l, days[i]);
    }
    assert VAnyMask(l, days) == Mask(l, days);
    DiffIsLoop(Mask(l, days));
    CountTrueIsWhere(days, Mask(l, days), d => Violates(l, d));
  }

  // ------------------------------------------------------------------ days that do not count

  lemma {:induction false} ValidDaysConcat(a: seq<File>, b: seq<File>)
    ensures ValidDays(a + b) == ValidDays(a) + ValidDays(b)
  {
    if b == [] {
      assert a + b == a;
    } else {
      assert (a + b)[..|a + b| - 1] == a + b[..|b| - 1];
      ValidDaysConcat(a, b[..|b| - 1]);
    }
  }

  /** Putting unreadable files or days without exposure anywhere into a non-empty history changes nothing. */
  lemma InvalidDaysDoNotCount(l: Limits, a: seq<File>, x: File, b: seq<File>)
    requires !x.Day? && a + b != []
    ensures VerdictOf(l, a + [x] + b) == VerdictOf(l, a + b)
  {
    ValidDaysConcat(a, b);
    ValidDaysConcat(a + [x], b);
    ValidDaysConcat(a, [x]);
    assert [x][..0] == [];
    assert ValidDays([x]) == [];
    assert ValidDays(a + [x] + b) == ValidDays(a + b);
  }

  lemma {:induction false} ValidDaysShorter(files: seq<File>)
    ensures |ValidDays(files)| <= |files|
  {
    if files != [] {
      ValidDaysShorter(files[..|files| - 1]);
    }
  }

  /** The valid days of the last k files are among the last k valid days, so a window of files shows no violation that the
      same window of valid days does not. */
  lemma WindowOfFiles(files: seq<File>, k: nat)
    requires k <= |files|
    ensures var inWindow, days := ValidDays(files[|files| - k..]), ValidDays(files);
            |inWindow| <= k && |inWindow| <= |days| && inWindow == days[|days| - |inWindow|..]
  {
    ValidDaysConcat(files[..|files| - k], files[|files| - k..]);
    assert files == files[..|files| - k] + files[|files| - k..];
    ValidDaysShorter(files[|files| - k..]);
  }
}
