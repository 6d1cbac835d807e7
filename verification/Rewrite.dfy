// Prefixes, suffixes and Python's str.replace, with the conditions under which replacing leaves nothing to replace.
module Rewrite {

  predicate StartsWith(s: string, p: string) {
    |s| >= |p| && s[..|p|] == p
  }

  predicate EndsWith(s: string, p: string) {
    |s| >= |p| && s[|s| - |p|..] == p
  }

  /** Path(s).name of a path that does not end in a separator. */
  function Basename(s: string): string {
    if s == [] then [] else if s[|s| - 1] == '/' then [] else Basename(s[..|s| - 1]) + [s[|s| - 1]]
  }

  /** s.replace(old, new): occurrences from the left, without overlap. */
  function ReplaceAll(s: string, was: string, now: string): string
    requires was != ""
  {
    if |s| < |was| then s
    else if StartsWith(s, was) then now + ReplaceAll(s[|was|..], was, now)
    else [s[0]] + ReplaceAll(s[1..], was, now)
  }

  predicate OccursAt(s: string, p: string, i: int) {
    0 <= i && i + |p| <= |s| && s[i..i + |p|] == p
  }

  ghost predicate Absent(s: string, p: string) {
    forall i :: !OccursAt(s, p, i)
  }

  /** Replacing old by new cannot make a new occurrence of old: not inside new, not across either end of it. */
  ghost predicate Settles(was: string, now: string) {
    && 1 <= |was| <= |now|
    && Absent(now, was)
    && (forall k :: 1 <= k < |was| ==> now[|now| - k..] != was[..k])
    && (forall k :: 1 <= k <= |was| ==> now[..k] != was[|was| - k..])
  }

  lemma TakeOfConcat(a: string, b: string, k: nat)
    requires k <= |a|
    ensures (a + b)[..k] == a[..k]
  {
  }

  lemma {:induction false} ReplaceStartsWithTail(s: string, was: string, now: string, k: nat)
    requires Settles(was, now) && k <= |was| && StartsWith(ReplaceAll(s, was, now), was[|was| - k..])
    ensures StartsWith(s, was[|was| - k..])
  {
    var r, q := ReplaceAll(s, was, now), was[|was| - k..];
    if k > 0 && |s| >= |was| {
      if StartsWith(s, was) {
        TakeOfConcat(now, ReplaceAll(s[|was|..], was, now), k);
      } else {
        assert r[1..] == ReplaceAll(s[1..], was, now);
        assert q[1..] == was[|was| - (k - 1)..];
        assert r[..k][1..] == r[1..][..k - 1];
        ReplaceStartsWithTail(s[1..], was, now, k - 1);
        assert s[..k] == [s[0]] + s[1..][..k - 1];
        assert q == [q[0]] + q[1..];
      }
    }
  }

  lemma OccursInConcat(a: string, b: string, p: string, i: int)
    requires OccursAt(a + b, p, i) && p != ""
    ensures OccursAt(a, p, i) || (i >= |a| && OccursAt(b, p, i - |a|))
            || (0 <= i < |a| < i + |p| && a[i..] == p[..|a| - i] && b[..i + |p| - |a|] == p[|a| - i..])
  {
    var s := a + b;
    if i >= |a| {
      assert s[i..i + |p|] == b[i - |a|..i - |a| + |p|];
    } else if i + |p| <= |a| {
      assert s[i..i + |p|] == a[i..i + |p|];
    } else {
      assert p[..|a| - i] == s[i..i + |p|][..|a| - i] == a[i..];
      assert p[|a| - i..] == s[i..i + |p|][|a| - i..] == b[..i + |p| - |a|];
    }
  }

  lemma {:induction false} ReplaceKeepsHead(s: string, was: string, now: string)
    requires Settles(was, now) && s != "" && s[0] == was[0]
    requires StartsWith(ReplaceAll(s[1..], was, now), was[1..])
    ensures StartsWith(s, was)
  {
    assert was[1..] == was[|was| - (|was| - 1)..];
    ReplaceStartsWithTail(s[1..], was, now, |was| - 1);
    assert s[..|was|] == [s[0]] + s[1..][..|was| - 1];
    assert was == [was[0]] + was[1..];
  }

  /** An occurrence at the very start of a result that kept its first character is one of the original. */
  lemma {:induction false} FirstOccurrence(s: string, was: string, now: string)
    requires Settles(was, now) && |s| >= |was|
    ensures OccursAt([s[0]] + ReplaceAll(s[1..], was, now), was, 0) ==> StartsWith(s, was)
  {
    var rest := ReplaceAll(s[1..], was, now);
    var r := [s[0]] + rest;
    if OccursAt(r, was, 0) {
      assert r[0] == was[0];
      assert rest[..|was| - 1] == r[0..|was|][1..] == was[1..];
      ReplaceKeepsHead(s, was, now);
    }
  }

  /** After s.replace(old, new) no occurrence of old is left. */
  lemma {:induction false} ReplaceLeavesNone(s: string, was: string, now: string)
    requires Settles(was, now)
    ensures Absent(ReplaceAll(s, was, now), was)
  {
    if |s| >= |was| {
      FirstOccurrence(s, was, now);
      var head, rest := if StartsWith(s, was) then now else [s[0]], if StartsWith(s, was) then s[|was|..] else s[1..];
      ReplaceLeavesNone(rest, was, now);
      forall i
        ensures !OccursAt(head + ReplaceAll(rest, was, now), was, i)
      {
        if OccursAt(head + ReplaceAll(rest, was, now), was, i) {
          OccursInConcat(head, ReplaceAll(rest, was, now), was, i);
        }
      }
    }
  }

  lemma OccursLater(s: string, p: string, i: int)
    requires s != ""
    ensures OccursAt(s[1..], p, i) <==> i >= 0 && OccursAt(s, p, i + 1)
  {
    if 0 <= i && i + 1 + |p| <= |s| {
      SliceOfTail(s, i, |p|);
    }
  }

  lemma SliceOfTail(s: string, i: nat, n: nat)
    requires i + 1 + n <= |s|
    ensures s[i + 1..i + 1 + n] == s[1..][i..i + n]
  {
    var a, b := s[i + 1..i + 1 + n], s[1..][i..i + n];
    assert |a| == |b| == n;
    assert forall j :: 0 <= j < n ==> a[j] == s[i + 1 + j] && b[j] == s[i + 1 + j];
  }

  /** Nothing to replace, nothing changes. */
  lemma {:induction false} ReplaceAbsent(s: string, was: string, now: string)
    requires was != "" && Absent(s, was)
    ensures ReplaceAll(s, was, now) == s
  {
    if |s| >= |was| {
      assert !OccursAt(s, was, 0);
      assert s[0..|was|] == s[..|was|];
      forall i
        ensures !OccursAt(s[1..], was, i)
      {
        OccursLater(s, was, i);
      }
      ReplaceAbsent(s[1..], was, now);
    }
  }

  lemma {:induction false} ReplaceIdempotent(s: string, was: string, now: string)
    requires Settles(was, now)
    ensures ReplaceAll(ReplaceAll(s, was, now), was, now) == ReplaceAll(s, was, now)
  {
    ReplaceLeavesNone(s, was, now);
    ReplaceAbsent(ReplaceAll(s, was, now), was, now);
  }

  /** Characters before the first occurrence stay where they are. */
  lemma {:induction false} ReplaceKeepsStart(s: string, was: string, now: string, n: nat)
    requires was != "" && n <= |s| && forall i :: 0 <= i < n ==> !OccursAt(s, was, i)
    ensures |ReplaceAll(s, was, now)| >= n && ReplaceAll(s, was, now)[..n] == s[..n]
    ensures ReplaceAll(s, was, now) == s[..n] + ReplaceAll(s[n..], was, now)
  {
    if n > 0 {
      if |s| >= |was| {
        assert !OccursAt(s, was, 0);
        assert s[0..|was|] == s[..|was|];
        forall i | 0 <= i < n - 1
          ensures !OccursAt(s[1..], was, i)
        {
          OccursLater(s, was, i);
        }
        ReplaceKeepsStart(s[1..], was, now, n - 1);
        assert s[1..][n - 1..] == s[n..];
        assert s[..n] == [s[0]] + s[1..][..n - 1];
      } else {
        assert s == s[..n] + s[n..];
      }
    } else {
      assert s[0..] == s;
    }
  }

  /** A beginning without an occurrence, not even one that reaches over its end, stays. */
  lemma {:induction false} ReplaceSkips(a: string, c: string, was: string, now: string)
    requires was != "" && forall i :: 0 <= i < |a| ==> !OccursAt(a + c, was, i)
    ensures ReplaceAll(a + c, was, now) == a + ReplaceAll(c, was, now)
  {
    ReplaceKeepsStart(a + c, was, now, |a|);
    assert (a + c)[..|a|] == a && (a + c)[|a|..] == c;
  }

  lemma {:induction false} ReplaceOfNothing(s: string, was: string, now: string)
    requires was != ""
    ensures s == "" ==> ReplaceAll(s, was, now) == ""
  {
  }

  /** `now`, put at place i of q, agrees with q as far as both go. */
  ghost predicate Fits(now: string, q: string, i: int) {
    forall j :: 0 <= j < |now| && 0 <= i + j < |q| ==> q[i + j] == now[j]
  }

  lemma {:induction false} FitsThere(s: string, was: string, now: string, q: string, i: nat)
    requires was != "" && i < |q| && i <= |s| && StartsWith(s[i..], was)
    requires StartsWith(s[..i] + ReplaceAll(s[i..], was, now), q)
    ensures Fits(now, q, i)
  {
    var r := s[..i] + ReplaceAll(s[i..], was, now);
    forall j | 0 <= j < |now| && 0 <= i + j < |q|
      ensures q[i + j] == now[j]
    {
      assert r[..|q|][i + j] == r[i + j] == ReplaceAll(s[i..], was, now)[j];
    }
  }

  lemma {:induction false} StartedOneMore(s: string, was: string, now: string, q: string, m: nat)
    requires was != "" && StartsWith(ReplaceAll(s, was, now), q) && m < |q| && !Fits(now, q, m)
    requires m <= |s| && ReplaceAll(s, was, now) == s[..m] + ReplaceAll(s[m..], was, now)
    ensures m < |s| && !OccursAt(s, was, m)
  {
    ReplaceOfNothing(s[m..], was, now);
    if m < |s| && OccursAt(s, was, m) {
      assert s[m..m + |was|] == s[m..][..|was|];
      FitsThere(s, was, now, q, m);
    }
  }

  /** When the result begins with q, and `now` fits at none of the first n places of q, those n characters were there before. */
  lemma {:induction false} StartedBefore(s: string, was: string, now: string, q: string, n: nat)
    requires was != "" && StartsWith(ReplaceAll(s, was, now), q) && n <= |q|
    requires forall i :: 0 <= i < n ==> !Fits(now, q, i)
    ensures n <= |s| && s[..n] == q[..n] && ReplaceAll(s, was, now) == s[..n] + ReplaceAll(s[n..], was, now)
    ensures forall i :: 0 <= i < n ==> !OccursAt(s, was, i)
  {
    if n > 0 {
      StartedBefore(s, was, now, q, n - 1);
      StartedOneMore(s, was, now, q, n - 1);
      ReplaceKeepsStart(s, was, now, n);
      assert ReplaceAll(s, was, now)[..|q|][..n] == s[..n];
    } else {
      assert s[0..] == s;
    }
  }

  // ------------------------------------------------------------------ file names

  lemma {:induction false} BasenameOfPath(a: string, b: string)
    requires '/' !in b
    ensures Basename(a + "/" + b) == b
  {
    var s := a + "/" + b;
    if b == [] {
      assert s[|s| - 1] == '/';
    } else {
      var k := |b| - 1;
      assert s[|s| - 1] == b[k] && s[..|s| - 1] == a + "/" + b[..k];
      BasenameOfPath(a, b[..k]);
      assert b == b[..k] + [b[k]];
    }
  }

  lemma {:induction false} BasenameIsPlain(s: string)
    ensures '/' !in Basename(s)
    ensures Basename(s) == s || exists a :: s == a + "/" + Basename(s)
  {
    if s != [] && s[|s| - 1] == '/' {
      assert s == s[..|s| - 1] + "/" + [];
    } else if s != [] {
      var k := |s| - 1;
      BasenameIsPlain(s[..k]);
      if Basename(s[..k]) == s[..k] {
        assert s == s[..k] + [s[k]];
      } else {
        var a :| s[..k] == a + "/" + Basename(s[..k]);
        assert s == a + "/" + (Basename(s[..k]) + [s[k]]);
      }
    }
  }

  lemma {:induction false} BasenameSelf(s: string)
    requires '/' !in s
    ensures Basename(s) == s
  {
    if s != [] {
      BasenameSelf(s[..|s| - 1]);
      assert s == s[..|s| - 1] + [s[|s| - 1]];
    }
  }

  /** m is a path to this file. */
  predicate LeadsTo(m: string, file: string) {
    m == file || EndsWith(m, "/" + file)
  }

  lemma {:induction false} BasenameIs(m: string, file: string)
    requires '/' !in file && LeadsTo(m, file)
    ensures Basename(m) == file
  {
    if m == file {
      BasenameSelf(m);
    } else {
      var dir := m[..|m| - |file| - 1];
      assert m == dir + m[|m| - |file| - 1..] == dir + "/" + file;
      BasenameOfPath(dir, file);
    }
  }

  lemma {:induction false} LeadsToBasename(m: string)
    ensures LeadsTo(m, Basename(m))
  {
    BasenameIsPlain(m);
    var file := Basename(m);
    hide Basename;
    if file != m {
      var dir :| m == dir + "/" + file;
      var end := "/" + file;
      assert m == dir + end;
      assert m[|dir|..] == end;
    }
  }
}
