// Python's order on strings, its stable sort by a key, and permutations element by element.
module Ordering {

  /** a < b by code points, a proper prefix first. */
  predicate Less(a: string, b: string) {
    b != [] && (a == [] || a[0] < b[0] || (a[0] == b[0] && Less(a[1..], b[1..])))
  }

  predicate AtMost(a: string, b: string) {
    a == b || Less(a, b)
  }

  lemma {:induction false} LessIrreflexive(a: string)
    ensures !Less(a, a)
  {
    if a != [] {
      LessIrreflexive(a[1..]);
    }
  }

  lemma {:induction false} LessTransitive(a: string, b: string, c: string)
    requires Less(a, b) && Less(b, c)
    ensures Less(a, c)
  {
    if a != [] && a[0] == b[0] && b[0] == c[0] {
      LessTransitive(a[1..], b[1..], c[1..]);
    }
  }

  lemma {:induction false} LessTotal(a: string, b: string)
    ensures Less(a, b) || a == b || Less(b, a)
  {
    if a != [] && b != [] && a[0] == b[0] {
      LessTotal(a[1..], b[1..]);
      if a[1..] == b[1..] {
        assert a == [a[0]] + a[1..] && b == [b[0]] + b[1..];
      }
    }
  }

  /** a is less than b exactly when it is a proper prefix, or has the smaller code point where they first differ. */
  lemma {:induction false} LessExactly(a: string, b: string) returns (k: nat)
    ensures k <= |a| && k <= |b| && a[..k] == b[..k] && (k < |a| && k < |b| ==> a[k] != b[k])
    ensures Less(a, b) <==> k < |b| && (k == |a| || a[k] < b[k])
  {
    k := 0;
    if a != [] && b != [] && a[0] == b[0] {
      k := LessExactly(a[1..], b[1..]);
      assert a[..k + 1] == [a[0]] + a[1..][..k] && b[..k + 1] == [b[0]] + b[1..][..k];
      k := k + 1;
    }
  }

  lemma AtMostTransitive(a: string, b: string, c: string)
    requires AtMost(a, b) && AtMost(b, c)
    ensures AtMost(a, c)
  {
    if a != b && b != c {
      LessTransitive(a, b, c);
    }
  }

  lemma AtMostAntisymmetric(a: string, b: string)
    requires AtMost(a, b) && AtMost(b, a)
    ensures a == b
  {
    if a != b {
      LessTransitive(a, b, a);
      LessIrreflexive(a);
    }
  }

  // ------------------------------------------------------------------ sorting by a key

  ghost predicate Sorted<T(!new)>(s: seq<T>, key: T -> string) {
    forall i, j :: 0 <= i < j < |s| ==> AtMost(key(s[i]), key(s[j]))
  }

  /** x goes before the first element whose key is greater, after its equals. */
  function Insert<T>(x: T, s: seq<T>, key: T -> string): (r: seq<T>)
    ensures |r| == |s| + 1
  {
    if s == [] || Less(key(x), key(s[0])) then [x] + s else [s[0]] + Insert(x, s[1..], key)
  }

  /** The stable sort: elements are inserted from the left. */
  function Sort<T>(s: seq<T>, key: T -> string): (r: seq<T>)
    ensures |r| == |s|
  {
    if s == [] then [] else Insert(s[|s| - 1], Sort(s[..|s| - 1], key), key)
  }

  lemma {:induction false} InsertElements<T>(x: T, s: seq<T>, key: T -> string)
    ensures multiset(Insert(x, s, key)) == multiset(s) + multiset{x}
  {
    if !(s == [] || Less(key(x), key(s[0]))) {
      InsertElements(x, s[1..], key);
      assert s == [s[0]] + s[1..];
    }
  }

  lemma {:induction false} InsertSorted<T(!new)>(x: T, s: seq<T>, key: T -> string)
    requires Sorted(s, key)
    ensures Sorted(Insert(x, s, key), key)
  {
    var r := Insert(x, s, key);
    if s == [] {
    } else if Less(key(x), key(s[0])) {
      forall j | 0 <= j < |s|
        ensures AtMost(key(x), key(s[j]))
      {
        AtMostTransitive(key(x), key(s[0]), key(s[j]));
      }
    } else {
      InsertSorted(x, s[1..], key);
      InsertElements(x, s[1..], key);
      LessTotal(key(x), key(s[0]));
      var t := Insert(x, s[1..], key);
      forall j | 0 <= j < |t|
        ensures AtMost(key(s[0]), key(t[j]))
      {
        assert t[j] in multiset(t);
        assert t[j] == x || t[j] in s[1..];
      }
    }
  }

  lemma {:induction false} SortElements<T>(s: seq<T>, key: T -> string)
    ensures multiset(Sort(s, key)) == multiset(s)
  {
    if s != [] {
      var k := |s| - 1;
      SortElements(s[..k], key);
      InsertElements(s[k], Sort(s[..k], key), key);
      assert s == s[..k] + [s[k]];
    }
  }

  lemma {:induction false} SortSorted<T(!new)>(s: seq<T>, key: T -> string)
    ensures Sorted(Sort(s, key), key)
  {
    if s != [] {
      SortSorted(s[..|s| - 1], key);
      InsertSorted(s[|s| - 1], Sort(s[..|s| - 1], key), key);
    }
  }

  /** The elements with this very key, in their order. */
  function WithKey<T>(s: seq<T>, key: T -> string, k: string): seq<T> {
    if s == [] then [] else (if key(s[0]) == k then [s[0]] else []) + WithKey(s[1..], key, k)
  }

  lemma {:induction false} WithKeyAppend<T>(s: seq<T>, x: T, key: T -> string, k: string)
    ensures WithKey(s + [x], key, k) == WithKey(s, key, k) + if key(x) == k then [x] else []
  {
    if s != [] {
      WithKeyAppend(s[1..], x, key, k);
      assert (s + [x])[1..] == s[1..] + [x];
    }
  }

  lemma {:induction false} NoneAbove<T(!new)>(s: seq<T>, key: T -> string, k: string)
    requires forall i :: 0 <= i < |s| ==> Less(k, key(s[i]))
    ensures WithKey(s, key, k) == []
  {
    if s != [] {
      LessIrreflexive(k);
      NoneAbove(s[1..], key, k);
    }
  }

  lemma {:induction false} InsertStable<T(!new)>(x: T, s: seq<T>, key: T -> string, k: string)
    requires Sorted(s, key)
    ensures WithKey(Insert(x, s, key), key, k) == WithKey(s, key, k) + if key(x) == k then [x] else []
  {
    if s != [] && Less(key(x), key(s[0])) {
      forall i | 0 <= i < |s|
        ensures Less(key(x), key(s[i]))
      {
        if key(s[0]) != key(s[i]) {
          LessTransitive(key(x), key(s[0]), key(s[i]));
        }
      }
      NoneAbove(s, key, key(x));
      assert ([x] + s)[1..] == s;
    } else if s != [] {
      InsertStable(x, s[1..], key, k);
      assert ([s[0]] + Insert(x, s[1..], key))[1..] == Insert(x, s[1..], key);
    }
  }

  /** The sort is stable: elements with one key keep their order. */
  lemma {:induction false} SortStable<T(!new)>(s: seq<T>, key: T -> string, k: string)
    ensures WithKey(Sort(s, key), key, k) == WithKey(s, key, k)
  {
    if s != [] {
      var init := s[..|s| - 1];
      SortStable(init, key, k);
      SortSorted(init, key);
      InsertStable(s[|s| - 1], Sort(init, key), key, k);
      WithKeyAppend(init, s[|s| - 1], key, k);
      assert s == init + [s[|s| - 1]];
    }
  }

  lemma {:induction false} InsertLast<T(!new)>(x: T, s: seq<T>, key: T -> string)
    requires forall i :: 0 <= i < |s| ==> AtMost(key(s[i]), key(x))
    ensures Insert(x, s, key) == s + [x]
  {
    if s != [] {
      if Less(key(x), key(s[0])) {
        AtMostAntisymmetric(key(s[0]), key(x));
        LessIrreflexive(key(x));
      }
      InsertLast(x, s[1..], key);
    }
  }

  /** Sorting what is sorted changes nothing. */
  lemma {:induction false} SortOfSorted<T(!new)>(s: seq<T>, key: T -> string)
    requires Sorted(s, key)
    ensures Sort(s, key) == s
  {
    if s != [] {
      var k := |s| - 1;
      SortOfSorted(s[..k], key);
      InsertLast(s[k], s[..k], key);
    }
  }

  ghost predicate KeysTell<T(!new)>(s: seq<T>, key: T -> string) {
    forall i, j :: 0 <= i < |s| && 0 <= j < |s| && key(s[i]) == key(s[j]) ==> s[i] == s[j]
  }

  lemma SameHead<T(!new)>(s: seq<T>, t: seq<T>, key: T -> string)
    requires Sorted(s, key) && Sorted(t, key) && multiset(s) == multiset(t) && s != [] && KeysTell(s, key)
    ensures t != [] && s[0] == t[0]
  {
    assert s[0] in multiset(t);
    assert t[0] in multiset(s);
    var i :| 0 <= i < |t| && t[i] == s[0];
    var j :| 0 <= j < |s| && s[j] == t[0];
    AtMostAntisymmetric(key(s[0]), key(t[0]));
  }

  /** A sorted sequence is determined by its elements when equal keys mean equal elements. */
  lemma {:induction false} SortedUnique<T(!new)>(s: seq<T>, t: seq<T>, key: T -> string)
    requires Sorted(s, key) && Sorted(t, key) && multiset(s) == multiset(t) && KeysTell(s, key)
    ensures s == t
  {
    if s == [] {
      assert |multiset(t)| == 0;
    } else {
      SameHead(s, t, key);
      assert s == [s[0]] + s[1..] && t == [t[0]] + t[1..];
      assert multiset(s[1..]) == multiset(s) - multiset{s[0]} == multiset(t) - multiset{t[0]} == multiset(t[1..]);
      SortedUnique(s[1..], t[1..], key);
    }
  }

  // ------------------------------------------------------------------ distinct keys

  ghost predicate StrictlySorted<T(!new)>(s: seq<T>, key: T -> string) {
    forall i, j :: 0 <= i < j < |s| ==> Less(key(s[i]), key(s[j]))
  }

  lemma {:induction false} InsertStrict<T(!new)>(x: T, s: seq<T>, key: T -> string)
    requires StrictlySorted(s, key) && forall i :: 0 <= i < |s| ==> key(s[i]) != key(x)
    ensures StrictlySorted(Insert(x, s, key), key)
    ensures forall y :: y in Insert(x, s, key) <==> y == x || y in s
  {
    if s == [] {
    } else if Less(key(x), key(s[0])) {
      forall j | 0 <= j < |s|
        ensures Less(key(x), key(s[j]))
      {
        if j > 0 {
          LessTransitive(key(x), key(s[0]), key(s[j]));
        }
      }
    } else {
      InsertStrict(x, s[1..], key);
      LessTotal(key(x), key(s[0]));
      var t := Insert(x, s[1..], key);
      forall j | 0 <= j < |t|
        ensures Less(key(s[0]), key(t[j]))
      {
        assert t[j] in t;
        assert t[j] == x || t[j] in s[1..];
      }
    }
  }

  lemma {:induction false} SortStrict<T(!new)>(s: seq<T>, key: T -> string)
    requires forall i, j :: 0 <= i < j < |s| ==> key(s[i]) != key(s[j])
    ensures StrictlySorted(Sort(s, key), key)
    ensures forall y :: y in Sort(s, key) <==> y in s
  {
    if s != [] {
      var k := |s| - 1;
      SortStrict(s[..k], key);
      var t := Sort(s[..k], key);
      forall i | 0 <= i < |t|
        ensures key(t[i]) != key(s[k])
      {
        assert t[i] in s[..k];
      }
      InsertStrict(s[k], t, key);
    }
  }

  lemma StrictSameHead<T(!new)>(s: seq<T>, t: seq<T>, key: T -> string)
    requires StrictlySorted(s, key) && StrictlySorted(t, key) && (forall x :: x in s <==> x in t) && s != []
    ensures t != [] && s[0] == t[0]
  {
    assert s[0] in t;
    assert t[0] in s;
    var i :| 0 <= i < |t| && t[i] == s[0];
    var j :| 0 <= j < |s| && s[j] == t[0];
    if i > 0 && j > 0 {
      LessTransitive(key(s[0]), key(t[0]), key(s[0]));
      LessIrreflexive(key(s[0]));
    }
  }

  lemma StrictTail<T(!new)>(s: seq<T>, key: T -> string)
    requires StrictlySorted(s, key) && s != []
    ensures StrictlySorted(s[1..], key) && s[0] !in s[1..]
  {
    if s[0] in s[1..] {
      LessIrreflexive(key(s[0]));
    }
  }

  /** A strictly sorted sequence is determined by which elements it has. */
  lemma {:induction false} StrictlySortedUnique<T(!new)>(s: seq<T>, t: seq<T>, key: T -> string)
    requires StrictlySorted(s, key) && StrictlySorted(t, key) && forall x :: x in s <==> x in t
    ensures s == t
  {
    assert t != [] ==> t[0] in t;
    if s != [] {
      StrictSameHead(s, t, key);
      StrictTail(s, key);
      StrictTail(t, key);
      assert s == [s[0]] + s[1..] && t == [t[0]] + t[1..];
      forall x
        ensures x in s[1..] <==> x in t[1..]
      {
        assert x in s <==> x == s[0] || x in s[1..];
        assert x in t <==> x == t[0] || x in t[1..];
      }
      StrictlySortedUnique(s[1..], t[1..], key);
    }
  }

  function Self(s: string): string { s }

  /** Sorting strings forgets the order they came in. */
  lemma {:induction false} SortCanonical(s: seq<string>, t: seq<string>)
    requires multiset(s) == multiset(t)
    ensures Sort(s, Self) == Sort(t, Self)
  {
    SortSorted(s, Self);
    SortSorted(t, Self);
    SortElements(s, Self);
    SortElements(t, Self);
    SortedUnique(Sort(s, Self), Sort(t, Self), Self);
  }

  // ------------------------------------------------------------------ one element at a time

  function Without<T>(s: seq<T>, i: nat): (r: seq<T>)
    requires i < |s|
    ensures |r| == |s| - 1
  {
    s[..i] + s[i + 1..]
  }

  lemma SplitAt<T>(s: seq<T>, i: nat)
    requires i < |s|
    ensures s == s[..i] + ([s[i]] + s[i + 1..])
  {
  }

  lemma ElementsWithout<T>(s: seq<T>, i: nat)
    requires i < |s|
    ensures multiset(s) == multiset(Without(s, i)) + multiset{s[i]}
  {
    SplitAt(s, i);
  }

  /** Where a permutation has the first element. */
  lemma Find<T>(s: seq<T>, t: seq<T>) returns (i: nat)
    requires multiset(s) == multiset(t) && s != []
    ensures i < |t| && t[i] == s[0] && multiset(Without(s, 0)) == multiset(Without(t, i))
  {
    assert s[0] in multiset(t);
    i :| 0 <= i < |t| && t[i] == s[0];
    ElementsWithout(s, 0);
    ElementsWithout(t, i);
    assert multiset(Without(s, 0)) == multiset(s) - multiset{s[0]};
    assert multiset(Without(t, i)) == multiset(t) - multiset{s[0]};
  }
}
